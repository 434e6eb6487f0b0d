/** The question repository list (src/pages/Questions.tsx): the rows shown
    are the questions whose text contains the search box's text, ignoring
    case. */
module Questions {
  import opened Types
  import opened Text
  import opened Seqs
  import opened TextSearch

  function QuestionText(q: Question): string
  {
    q.text
  }

  /** `filteredQuestions`. */
  function FilteredQuestions(questions: seq<Question>, searchQuery: string): (r: seq<Question>)
    ensures IsSubsequence(r, questions)
    ensures forall i :: 0 <= i < |r| ==> Contains(Lower(r[i].text), Lower(searchQuery))
    ensures forall i :: 0 <= i < |questions| && Contains(Lower(questions[i].text), Lower(searchQuery)) ==>
              questions[i] in r
    ensures forall q :: multiset(r)[q] == if Contains(Lower(q.text), Lower(searchQuery)) then multiset(questions)[q] else 0
  {
    FilterByText(questions, QuestionText, searchQuery)
  }

  /** An empty search box lists every question. */
  lemma EmptySearchListsAll(questions: seq<Question>)
    ensures FilteredQuestions(questions, "") == questions
  {
    EmptyQueryKeepsAll(questions, QuestionText);
  }

  /** Searching in any case gives the same rows. */
  lemma SearchIgnoresCase(questions: seq<Question>, searchQuery: string)
    ensures FilteredQuestions(questions, Upper(searchQuery)) == FilteredQuestions(questions, searchQuery)
    ensures FilteredQuestions(questions, Lower(searchQuery)) == FilteredQuestions(questions, searchQuery)
  {
    QueryCaseIrrelevant(questions, QuestionText, searchQuery);
  }
}
