/** The survey overview (src/pages/Dashboard.tsx): a status drop-down
    ("all", "draft", "active", "closed") and a name search, applied one after
    the other to the list of surveys. */
module Dashboard {
  import opened Types
  import opened Text
  import opened Seqs
  import opened TextSearch

  /** The drop-down's value that shows every status. */
  const AllStatuses := "all"

  /** The drop-down's value for a status. */
  function StatusOption(st: SurveyStatus): (v: string)
    ensures v == Lower(StatusName(st))
  {
    match st
    case Draft => "draft"
    case Active => "active"
    case Closed => "closed"
  }

  /** The first filter: "all", or the status compared without case. */
  predicate StatusKept(s: Survey, statusFilter: string)
  {
    statusFilter == AllStatuses || Lower(StatusName(s.status)) == Lower(statusFilter)
  }

  /** The first filter's callback. */
  function StatusPasses(statusFilter: string): Survey -> bool
  {
    (s: Survey) => StatusKept(s, statusFilter)
  }

  function SurveyName(s: Survey): string
  {
    s.name
  }

  /** Both filters, as one condition on a survey. */
  predicate Kept(s: Survey, statusFilter: string, searchQuery: string)
  {
    StatusKept(s, statusFilter) && Contains(Lower(s.name), Lower(searchQuery))
  }

  /** `filteredSurveys`: the status filter, then the name filter. */
  function FilteredSurveys(surveys: seq<Survey>, statusFilter: string, searchQuery: string): (r: seq<Survey>)
    ensures IsSubsequence(r, surveys)
    ensures forall i :: 0 <= i < |r| ==> Kept(r[i], statusFilter, searchQuery)
    ensures forall i :: 0 <= i < |surveys| && Kept(surveys[i], statusFilter, searchQuery) ==> surveys[i] in r
    ensures forall s :: multiset(r)[s] == if Kept(s, statusFilter, searchQuery) then multiset(surveys)[s] else 0
  {
    var byStatus := Filter(surveys, StatusPasses(statusFilter));
    var r := FilterByText(byStatus, SurveyName, searchQuery);
    var both := And(StatusPasses(statusFilter), KeyContains(SurveyName, Lower(searchQuery)));
    FilterFilter(surveys, StatusPasses(statusFilter), KeyContains(SurveyName, Lower(searchQuery)));
    FilterIsSubsequence(surveys, both);
    forall s ensures multiset(r)[s] == if Kept(s, statusFilter, searchQuery) then multiset(surveys)[s] else 0 {
      FilterCount(surveys, both, s);
    }
    r
  }

  /** The initial state of the page, "all" and an empty search, shows every
      survey in its original order. */
  lemma AllAndEmptyShowsEverything(surveys: seq<Survey>)
    ensures FilteredSurveys(surveys, AllStatuses, "") == surveys
  {
    FilterAll(surveys, StatusPasses(AllStatuses));
    EmptyQueryKeepsAll(surveys, SurveyName);
  }

  function HasStatus(st: SurveyStatus): Survey -> bool
  {
    (s: Survey) => s.status == st
  }

  lemma StatusOptionsDistinct(a: SurveyStatus, b: SurveyStatus)
    ensures Lower(StatusName(a)) == Lower(StatusName(b)) <==> a == b
  {
    if a != b {
      assert StatusOption(a) != StatusOption(b);
    }
  }

  /** Each status option, with an empty search, keeps exactly the surveys
      in that status. */
  lemma StatusOptionSelectsExactly(surveys: seq<Survey>, st: SurveyStatus)
    ensures FilteredSurveys(surveys, StatusOption(st), "") == Filter(surveys, HasStatus(st))
  {
    var v := StatusOption(st);
    assert Lower(v) == v;
    forall i | 0 <= i < |surveys| ensures StatusPasses(v)(surveys[i]) == HasStatus(st)(surveys[i]) {
      StatusOptionsDistinct(surveys[i].status, st);
    }
    FilterCongruent(surveys, StatusPasses(v), HasStatus(st));
    EmptyQueryKeepsAll(Filter(surveys, StatusPasses(v)), SurveyName);
  }
}
