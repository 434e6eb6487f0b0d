/** The public response page (src/pages/SurveyResponse.tsx): respondents
    pick a rating from 1 to 4 per question, submission is refused until
    there are as many answers as questions, and a survey submitted once
    from this browser shows the thank-you screen from then on. The
    browser's storage is modelled as the set of survey ids marked
    submitted; the one-second timers are collapsed into their effect. */
module SurveyResponse {

  /** A question as this page holds it: id and text only. */
  datatype QuestionItem = QuestionItem(id: string, text: string)

  /** The rating buttons rendered under each question. */
  const RatingChoices: seq<int> := [1, 2, 3, 4]

  /** The four questions the page loads. */
  const FetchedQuestions: seq<QuestionItem> := [
    QuestionItem("q1", "How would you rate the clarity of communication during the meeting?"),
    QuestionItem("q2", "How effective was the meeting at addressing its stated objectives?"),
    QuestionItem("q3", "How would you rate the efficiency of time usage during the meeting?"),
    QuestionItem("q4", "How well was the meeting facilitated or moderated?")
  ]

  function QuestionIds(qs: seq<QuestionItem>): (ids: seq<string>)
    ensures |ids| == |qs|
    ensures forall i :: 0 <= i < |qs| ==> ids[i] == qs[i].id
  {
    seq(|qs|, i requires 0 <= i < |qs| => qs[i].id)
  }

  predicate Distinct(xs: seq<string>)
  {
    forall i, j :: 0 <= i < j < |xs| ==> xs[i] != xs[j]
  }

  lemma FetchedIdsDistinct()
    ensures Distinct(QuestionIds(FetchedQuestions))
  {
  }

  /** The submission check: as many answered keys as questions. */
  predicate CountMatches(answers: map<string, int>, qs: seq<QuestionItem>)
  {
    |answers| == |qs|
  }

  /** Every answer comes from a button on the page: its key is a displayed
      question's id and its value one of the offered ratings. */
  ghost predicate AnswersFromPage(answers: map<string, int>, qs: seq<QuestionItem>)
  {
    forall k :: k in answers ==> k in QuestionIds(qs) && answers[k] in RatingChoices
  }

  ghost predicate RatingsInRange(answers: map<string, int>)
  {
    forall k :: k in answers ==> 1 <= answers[k] <= 4
  }

  /** Every displayed question has an answer. */
  ghost predicate AllAnswered(answers: map<string, int>, qs: seq<QuestionItem>)
  {
    forall i :: 0 <= i < |qs| ==> qs[i].id in answers
  }

  lemma {:induction false} DistinctSetSize(xs: seq<string>)
    requires Distinct(xs)
    ensures |set x | x in xs| == |xs|
    decreases |xs|
  {
    if xs != [] {
      var tail := xs[1..];
      assert Distinct(tail);
      DistinctSetSize(tail);
      assert (set x | x in xs) == {xs[0]} + (set x | x in tail);
      assert xs[0] !in (set x | x in tail);
    }
  }

  lemma SubsetSizeEqual<T>(a: set<T>, b: set<T>)
    requires a <= b && |a| == |b|
    ensures a == b
  {
    var d := b - a;
    assert b == a + d;
    assert a * d == {};
    assert |d| == 0;
  }

  /** With distinct question ids and answers only from the page, the count
      check passes exactly when every question is answered. */
  lemma CountCheckIffAllAnswered(answers: map<string, int>, qs: seq<QuestionItem>)
    requires Distinct(QuestionIds(qs))
    requires AnswersFromPage(answers, qs)
    ensures CountMatches(answers, qs) <==> AllAnswered(answers, qs)
  {
    var ids := QuestionIds(qs);
    var idSet := set x | x in ids;
    DistinctSetSize(ids);
    assert answers.Keys <= idSet;
    if CountMatches(answers, qs) {
      SubsetSizeEqual(answers.Keys, idSet);
      forall i | 0 <= i < |qs| ensures qs[i].id in answers {
        assert ids[i] in idSet;
      }
    }
    if AllAnswered(answers, qs) {
      forall x | x in idSet ensures x in answers.Keys {
        var i :| 0 <= i < |ids| && ids[i] == x;
      }
      assert answers.Keys == idSet;
    }
  }

  /** With a repeated question id the count check can never pass while
      every question is answered: two questions share one key. */
  lemma RepeatedIdBlocksSubmit(answers: map<string, int>)
    requires answers.Keys == {"q1"}
    ensures AllAnswered(answers, [QuestionItem("q1", "A"), QuestionItem("q1", "B")])
    ensures !CountMatches(answers, [QuestionItem("q1", "A"), QuestionItem("q1", "B")])
  {
    assert |answers.Keys| == 1;
  }

  /** A click on one of a displayed question's buttons keeps every answer
      from the page: the stored ratings stay within 1 to 4. */
  lemma SelectionKeepsAnswersFromPage(answers: map<string, int>, qs: seq<QuestionItem>,
                                      questionId: string, rating: int)
    requires AnswersFromPage(answers, qs)
    requires questionId in QuestionIds(qs) && rating in RatingChoices
    ensures AnswersFromPage(answers[questionId := rating], qs)
    ensures RatingsInRange(answers[questionId := rating])
  {
  }

  /** What the page renders, in the order the source tests it. */
  datatype Screen = LoadingScreen | ThankYouScreen | FormScreen

  function ScreenFor(loading: bool, submitted: bool): (s: Screen)
    ensures s == FormScreen <==> !loading && !submitted
    ensures s == ThankYouScreen <==> !loading && submitted
  {
    if loading then LoadingScreen else if submitted then ThankYouScreen else FormScreen
  }

  /** The browser's storage: the ids of the surveys submitted from here. */
  class SubmissionStore {
    var submitted: set<string>

    constructor (ids: set<string>)
      ensures submitted == ids
    {
      submitted := ids;
    }
  }

  class ResponsePage {
    const surveyId: string
    var questions: seq<QuestionItem>
    var answers: map<string, int>
    var submitted: bool
    var loading: bool

    constructor (id: string)
      ensures surveyId == id && questions == [] && answers == map[] && !submitted && loading
    {
      surveyId := id;
      questions := [];
      answers := map[];
      submitted := false;
      loading := true;
    }

    /** What the page renders now. */
    function CurrentScreen(): (s: Screen)
      reads this
      ensures s == FormScreen <==> !loading && !submitted
      ensures s == ThankYouScreen <==> !loading && submitted
      ensures s == LoadingScreen <==> loading
    {
      ScreenFor(loading, submitted)
    }

    /** The load effect: the questions arrive, and a survey already marked
        in the store opens on the thank-you screen instead of the form. */
    method Load(store: SubmissionStore, fetched: seq<QuestionItem>)
      modifies this`questions, this`submitted, this`loading
      ensures questions == fetched && !loading
      ensures submitted == (old(submitted) || surveyId in store.submitted)
      ensures surveyId in store.submitted ==> CurrentScreen() == ThankYouScreen
    {
      questions := fetched;
      if surveyId in store.submitted {
        submitted := true;
      }
      loading := false;
    }

    /** handleRatingSelect: that question's answer becomes the rating (the
        later choice wins) and every other answer stays. */
    method SelectRating(questionId: string, rating: int)
      modifies this`answers
      ensures answers == old(answers)[questionId := rating]
      ensures questionId in answers && answers[questionId] == rating
      ensures forall k :: k in old(answers) && k != questionId ==> k in answers && answers[k] == old(answers)[k]
    {
      answers := answers[questionId := rating];
    }

    /** handleSubmit: an incomplete form changes nothing; otherwise the
        survey is marked in the store and the thank-you screen follows. */
    method Submit(store: SubmissionStore) returns (accepted: bool)
      modifies this`submitted, this`loading, store
      ensures accepted <==> CountMatches(answers, questions)
      ensures !accepted ==> submitted == old(submitted) && loading == old(loading) &&
                            store.submitted == old(store.submitted)
      ensures accepted ==> store.submitted == old(store.submitted) + {surveyId} &&
                           submitted && !loading && CurrentScreen() == ThankYouScreen
    {
      if |answers| != |questions| {
        return false;
      }
      loading := true;
      store.submitted := store.submitted + {surveyId};
      submitted := true;
      loading := false;
      accepted := true;
    }
  }

  /** A respondent rates each of the four questions, changing one answer
      on the way: the later choice wins and four answers remain. */
  method AnswerAll(page: ResponsePage)
    modifies page`answers
    requires page.answers == map[]
    ensures page.answers == map["q1" := 4, "q2" := 2, "q3" := 3, "q4" := 1]
    ensures |page.answers| == 4
  {
    page.SelectRating("q1", 4);
    page.SelectRating("q2", 3);
    page.SelectRating("q3", 3);
    page.SelectRating("q2", 2);
    page.SelectRating("q4", 1);
    assert page.answers.Keys == {"q1", "q2", "q3", "q4"};
  }

  /** A respondent submits too early, then answers all four questions and
      submits again; the first attempt is refused, the second marks the
      survey in the store, and opening the same survey again in a new page
      shows the thank-you screen. */
  method SubmitOnce(id: string) returns (early: bool, ok: bool, stored: set<string>, reopened: Screen)
    ensures !early && ok
    ensures stored == {id}
    ensures reopened == ThankYouScreen
  {
    var store := new SubmissionStore({});
    var page := new ResponsePage(id);
    page.Load(store, FetchedQuestions);
    assert page.CurrentScreen() == FormScreen;
    early := page.Submit(store);
    AnswerAll(page);
    assert |page.answers| == |page.questions|;
    ok := page.Submit(store);
    stored := store.submitted;
    var again := new ResponsePage(id);
    again.Load(store, FetchedQuestions);
    reopened := again.CurrentScreen();
  }
}
