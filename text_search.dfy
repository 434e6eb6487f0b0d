/** The case-insensitive search that the question, template and survey
    lists share: `xs.filter(x => key(x).toLowerCase().includes(query.toLowerCase()))`. */
module TextSearch {
  import opened Text
  import opened Seqs

  /** The filter callback for an already lowercased query. */
  function KeyContains<T>(key: T -> string, needle: string): T -> bool
  {
    x => Contains(Lower(key(x)), needle)
  }

  function FilterByText<T>(xs: seq<T>, key: T -> string, query: string): (r: seq<T>)
    ensures IsSubsequence(r, xs)
    ensures forall i :: 0 <= i < |r| ==> Contains(Lower(key(r[i])), Lower(query))
    ensures forall i :: 0 <= i < |xs| && Contains(Lower(key(xs[i])), Lower(query)) ==> xs[i] in r
    ensures forall i :: 0 <= i < |xs| ==>
              multiset(r)[xs[i]] == if Contains(Lower(key(xs[i])), Lower(query)) then multiset(xs)[xs[i]] else 0
  {
    var p := KeyContains(key, Lower(query));
    FilterIsSubsequence(xs, p);
    forall i | 0 <= i < |xs| ensures multiset(Filter(xs, p))[xs[i]] == if p(xs[i]) then multiset(xs)[xs[i]] else 0 {
      FilterCount(xs, p, xs[i]);
    }
    Filter(xs, p)
  }

  /** The empty query keeps everything, in order. */
  lemma EmptyQueryKeepsAll<T>(xs: seq<T>, key: T -> string)
    ensures FilterByText(xs, key, "") == xs
  {
    forall i | 0 <= i < |xs| ensures KeyContains(key, Lower(""))(xs[i]) {
      ContainsEmpty(Lower(key(xs[i])));
    }
    FilterAll(xs, KeyContains(key, Lower("")));
  }

  /** Only the query's letters matter, not their case: typing it in upper
      or lower case gives the same list. */
  lemma QueryCaseIrrelevant<T>(xs: seq<T>, key: T -> string, query: string)
    ensures FilterByText(xs, key, Upper(query)) == FilterByText(xs, key, query)
    ensures FilterByText(xs, key, Lower(query)) == FilterByText(xs, key, query)
  {
    LowerOfUpper(query);
    LowerIdempotent(query);
  }
}
