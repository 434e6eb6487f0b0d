/** The template list (src/pages/Templates.tsx): a case-insensitive name
    search and, per card, the question count and the usage line. */
module Templates {
  import opened Types
  import opened Text
  import opened Seqs
  import opened TextSearch

  function TemplateName(t: Template): string
  {
    t.name
  }

  /** `filteredTemplates`. */
  function FilteredTemplates(templates: seq<Template>, searchQuery: string): (r: seq<Template>)
    ensures IsSubsequence(r, templates)
    ensures forall i :: 0 <= i < |r| ==> Contains(Lower(r[i].name), Lower(searchQuery))
    ensures forall i :: 0 <= i < |templates| && Contains(Lower(templates[i].name), Lower(searchQuery)) ==>
              templates[i] in r
    ensures forall t :: multiset(r)[t] == if Contains(Lower(t.name), Lower(searchQuery)) then multiset(templates)[t] else 0
  {
    FilterByText(templates, TemplateName, searchQuery)
  }

  /** An empty search box lists every template. */
  lemma EmptySearchListsAll(templates: seq<Template>)
    ensures FilteredTemplates(templates, "") == templates
  {
    EmptyQueryKeepsAll(templates, TemplateName);
  }

  const UsedText := "Used in surveys"
  const UnusedText := "Not used in any survey"

  /** What a template card shows besides the name. */
  datatype CardSummary = CardSummary(questionCount: nat, usage: string)

  function Summary(t: Template): (c: CardSummary)
    ensures c.questionCount == |t.questions|
    ensures c.usage == UsedText <==> t.isUsedInSurveys
    ensures c.usage == UnusedText <==> !t.isUsedInSurveys
  {
    CardSummary(|t.questions|, if t.isUsedInSurveys then UsedText else UnusedText)
  }

  /** The cards of a search: one per kept template, in the list's order. */
  function Cards(templates: seq<Template>, searchQuery: string): (cards: seq<CardSummary>)
    ensures |cards| == |FilteredTemplates(templates, searchQuery)|
    ensures forall i :: 0 <= i < |cards| ==>
              cards[i] == Summary(FilteredTemplates(templates, searchQuery)[i])
  {
    var shown := FilteredTemplates(templates, searchQuery);
    seq(|shown|, i requires 0 <= i < |shown| => Summary(shown[i]))
  }
}
