/**
 * The respondent's form: the answer state built from the questions of a
 * survey (one empty text per open question, one unselected entry per
 * presented choice), the handlers that edit one entry, the per-question
 * counter of selected options, and the cardinality check that blocks a
 * submission whose selections fall outside `[min, max]`.
 *
 * The browser's form validation (`checkValidity`) is a boolean parameter;
 * the checkbox state of a click is the boolean `checked`.
 */
module Submission {
  import opened SurveyData
  import SubmissionsList

  // ---------------------------------------------------------------------
  // Initial answers
  // ---------------------------------------------------------------------

  /** The open answer an open question starts with: empty text. */
  function OpenPart(q: QuestionView): seq<OpenAnswer>
  {
    if q.max == 0 then [OpenAnswer(q.questionID, "")] else []
  }

  /** The close answers any other question starts with: one unselected entry per choice. */
  function ClosePart(q: QuestionView): seq<CloseAnswer>
  {
    if q.max == 0 then []
    else seq(|q.content|, j requires 0 <= j < |q.content| => CloseAnswer(q.questionID, q.content[j].choiceID, 0))
  }

  /** The open answers of a list of questions, question by question. */
  function OpenAnswersOf(qs: seq<QuestionView>): seq<OpenAnswer>
  {
    if qs == [] then [] else OpenAnswersOf(qs[..|qs| - 1]) + OpenPart(qs[|qs| - 1])
  }

  /** The close answers of a list of questions, question by question. */
  function CloseAnswersOf(qs: seq<QuestionView>): seq<CloseAnswer>
  {
    if qs == [] then [] else CloseAnswersOf(qs[..|qs| - 1]) + ClosePart(qs[|qs| - 1])
  }

  /**
   * The effect that loads a survey for a respondent: orders the questions
   * by position and, walking them in that order, builds an empty open
   * answer per open question and an unselected close answer per choice of
   * every other question.
   */
  method InitAnswers(result: seq<QuestionView>)
    returns (questions: seq<QuestionView>, openAnswers: seq<OpenAnswer>, closeAnswers: seq<CloseAnswer>)
    ensures questions == SortByPosition(result)
    ensures openAnswers == OpenAnswersOf(questions)
    ensures closeAnswers == CloseAnswersOf(questions)
  {
    questions := SortByPosition(result);
    openAnswers, closeAnswers := [], [];
    for i := 0 to |questions|
      invariant openAnswers == OpenAnswersOf(questions[..i])
      invariant closeAnswers == CloseAnswersOf(questions[..i])
    {
      var question := questions[i];
      AnswersOfPrefix(questions, i);
      if question.max == 0 {
        openAnswers := openAnswers + [OpenAnswer(question.questionID, "")];
      } else {
        closeAnswers := PushChoices(closeAnswers, question);
      }
    }
    assert questions[..|questions|] == questions;
  }

  /** The inner loop of the effect: one unselected entry per choice of a question that is not open. */
  method PushChoices(closeAnswers: seq<CloseAnswer>, question: QuestionView) returns (r: seq<CloseAnswer>)
    requires question.max != 0
    ensures r == closeAnswers + ClosePart(question)
  {
    r := closeAnswers;
    for j := 0 to |question.content|
      invariant r == closeAnswers + ClosePart(question)[..j]
    {
      r := r + [CloseAnswer(question.questionID, question.content[j].choiceID, 0)];
      assert ClosePart(question)[..j + 1] == ClosePart(question)[..j] + [ClosePart(question)[j]];
    }
    assert ClosePart(question)[..|question.content|] == ClosePart(question);
  }

  lemma AnswersOfPrefix(qs: seq<QuestionView>, i: int)
    requires 0 <= i < |qs|
    ensures OpenAnswersOf(qs[..i + 1]) == OpenAnswersOf(qs[..i]) + OpenPart(qs[i])
    ensures CloseAnswersOf(qs[..i + 1]) == CloseAnswersOf(qs[..i]) + ClosePart(qs[i])
  {
    assert qs[..i + 1][..i] == qs[..i];
  }

  /** There is an open answer, with empty text, exactly for each open question. */
  lemma {:induction false} OpenAnswersOfMembers(qs: seq<QuestionView>)
    ensures forall a :: a in OpenAnswersOf(qs) <==> exists q :: q in qs && q.max == 0 && a == OpenAnswer(q.questionID, "")
  {
    if qs != [] {
      var init := qs[..|qs| - 1];
      OpenAnswersOfMembers(init);
      assert qs == init + [qs[|qs| - 1]];
      forall q | q in qs ensures q in init || q == qs[|qs| - 1] { }
    }
  }

  /**
   * There is a close answer exactly for each choice of each question that
   * is not open, and it starts unselected.
   */
  lemma {:induction false} CloseAnswersOfMembers(qs: seq<QuestionView>)
    ensures forall a :: a in CloseAnswersOf(qs) <==>
      exists q, c :: q in qs && q.max != 0 && c in q.content && a == CloseAnswer(q.questionID, c.choiceID, 0)
  {
    if qs != [] {
      var init := qs[..|qs| - 1];
      var last := qs[|qs| - 1];
      CloseAnswersOfMembers(init);
      assert qs == init + [last];
      forall a ensures a in ClosePart(last) <==> last.max != 0 && exists c :: c in last.content && a == CloseAnswer(last.questionID, c.choiceID, 0) {
        if a in ClosePart(last) {
          var j :| 0 <= j < |ClosePart(last)| && ClosePart(last)[j] == a;
          assert last.content[j] in last.content;
        }
        if last.max != 0 && exists c :: c in last.content && a == CloseAnswer(last.questionID, c.choiceID, 0) {
          var c :| c in last.content && a == CloseAnswer(last.questionID, c.choiceID, 0);
          var j :| 0 <= j < |last.content| && last.content[j] == c;
          assert ClosePart(last)[j] == a;
        }
      }
    }
  }

  // ---------------------------------------------------------------------
  // Counting selections and the cardinality check
  // ---------------------------------------------------------------------

  /** `closeAnswers.filter(o => o.questionID === questionID && o.value === 1).length`. */
  function SelectedCount(answers: seq<CloseAnswer>, questionID: int): (n: nat)
    ensures n <= |answers|
  {
    if answers == [] then 0
    else
      var here := if answers[0].questionID == questionID && answers[0].value == 1 then 1 else 0;
      here + SelectedCount(answers[1..], questionID)
  }

  lemma {:induction false} SelectedCountAppend(a: seq<CloseAnswer>, b: seq<CloseAnswer>, questionID: int)
    ensures SelectedCount(a + b, questionID) == SelectedCount(a, questionID) + SelectedCount(b, questionID)
  {
    if a != [] {
      assert (a + b)[0] == a[0] && (a + b)[1..] == a[1..] + b;
      SelectedCountAppend(a[1..], b, questionID);
    } else {
      assert a + b == b;
    }
  }

  /** No entry of the initial answers is selected, so every count starts at 0. */
  lemma {:induction false} InitialCountsAreZero(qs: seq<QuestionView>, questionID: int)
    ensures SelectedCount(CloseAnswersOf(qs), questionID) == 0
  {
    if qs != [] {
      InitialCountsAreZero(qs[..|qs| - 1], questionID);
      SelectedCountAppend(CloseAnswersOf(qs[..|qs| - 1]), ClosePart(qs[|qs| - 1]), questionID);
      NoneSelected(ClosePart(qs[|qs| - 1]), questionID);
    }
  }

  lemma {:induction false} NoneSelected(answers: seq<CloseAnswer>, questionID: int)
    requires forall k :: 0 <= k < |answers| ==> answers[k].value == 0
    ensures SelectedCount(answers, questionID) == 0
  {
    if answers != [] {
      NoneSelected(answers[1..], questionID);
    }
  }

  /** A choice question's selections lie within `[min, max]`; other questions always pass. */
  predicate CountOk(q: QuestionView, answers: seq<CloseAnswer>)
  {
    IsChoiceQuestion(q.max) ==> q.min <= SelectedCount(answers, q.questionID) <= q.max
  }

  /** Every question passes the cardinality check. */
  predicate CardinalityOk(qs: seq<QuestionView>, answers: seq<CloseAnswer>)
  {
    forall i :: 0 <= i < |qs| ==> CountOk(qs[i], answers)
  }

  /** The loop of `handleSubmit`: stops at the first choice question whose count is out of range. */
  method CheckCardinality(questions: seq<QuestionView>, closeAnswers: seq<CloseAnswer>) returns (ok: bool)
    ensures ok <==> CardinalityOk(questions, closeAnswers)
  {
    for i := 0 to |questions|
      invariant forall k :: 0 <= k < i ==> CountOk(questions[k], closeAnswers)
    {
      var question := questions[i];
      if question.max >= 1 {
        var tmp := SelectedCount(closeAnswers, question.questionID);
        if tmp < question.min || tmp > question.max {
          return false;
        }
      }
    }
    return true;
  }

  /**
   * An untouched form passes the cardinality check exactly when no choice
   * question demands a selection.
   */
  lemma UntouchedFormCheck(qs: seq<QuestionView>)
    ensures CardinalityOk(qs, CloseAnswersOf(qs)) <==>
      forall i :: 0 <= i < |qs| && IsChoiceQuestion(qs[i].max) ==> qs[i].min <= 0
  {
    forall i | 0 <= i < |qs| {
      InitialCountsAreZero(qs, qs[i].questionID);
    }
  }

  // ---------------------------------------------------------------------
  // Editing one answer
  // ---------------------------------------------------------------------

  /**
   * The first index of an open answer for `questionID`, or -1: the
   * `findIndex` over the open answers, as `CreationSurvey.IndexOf` is over
   * the draft questions.
   */
  function FindOpen(answers: seq<OpenAnswer>, questionID: int): (i: int)
    ensures -1 <= i < |answers|
    ensures i == -1 <==> forall k :: 0 <= k < |answers| ==> answers[k].questionID != questionID
    ensures i >= 0 ==> answers[i].questionID == questionID && forall k :: 0 <= k < i ==> answers[k].questionID != questionID
  {
    if answers == [] then -1
    else if answers[0].questionID == questionID then 0
    else
      var rest := FindOpen(answers[1..], questionID);
      if rest == -1 then -1 else rest + 1
  }

  /**
   * The first index of a close answer for `choiceID`, or -1: the
   * `findIndex` over the close answers, keyed by the choice.
   */
  function FindClose(answers: seq<CloseAnswer>, choiceID: int): (i: int)
    ensures -1 <= i < |answers|
    ensures i == -1 <==> forall k :: 0 <= k < |answers| ==> answers[k].choiceID != choiceID
    ensures i >= 0 ==> answers[i].choiceID == choiceID && forall k :: 0 <= k < i ==> answers[k].choiceID != choiceID
  {
    if answers == [] then -1
    else if answers[0].choiceID == choiceID then 0
    else
      var rest := FindClose(answers[1..], choiceID);
      if rest == -1 then -1 else rest + 1
  }

  /** A 0/1 value flipped the way `value ? 0 : 1` does. */
  function Flip(value: int): int
  {
    if value != 0 then 0 else 1
  }

  /**
   * The open answers after typing `text` into the answer of `questionID`:
   * only the first entry for that question takes the text; no entry, no change.
   */
  function WithText(answers: seq<OpenAnswer>, questionID: int, text: string): (r: seq<OpenAnswer>)
    ensures |r| == |answers|
    ensures FindOpen(answers, questionID) == -1 ==> r == answers
    ensures var i := FindOpen(answers, questionID);
      i >= 0 ==>
        && r[i] == OpenAnswer(questionID, text)
        && forall k :: 0 <= k < |answers| && k != i ==> r[k] == answers[k]
  {
    var index := FindOpen(answers, questionID);
    if index == -1 then answers else answers[index := answers[index].(text := text)]
  }

  /**
   * The close answers after clicking the checkbox of `choiceID`: only the
   * first entry for that choice flips between 0 and 1; no entry, no change.
   */
  function Toggled(answers: seq<CloseAnswer>, choiceID: int): (r: seq<CloseAnswer>)
    ensures |r| == |answers|
    ensures FindClose(answers, choiceID) == -1 ==> r == answers
    ensures var i := FindClose(answers, choiceID);
      i >= 0 ==>
        && r[i].questionID == answers[i].questionID && r[i].choiceID == choiceID
        && r[i].value == Flip(answers[i].value)
        && (r[i].value == 1 <==> answers[i].value == 0)
        && forall k :: 0 <= k < |answers| && k != i ==> r[k] == answers[k]
  {
    var index := FindClose(answers, choiceID);
    if index == -1 then answers else answers[index := answers[index].(value := Flip(answers[index].value))]
  }

  /** Every value of the close answers is 0 or 1. */
  predicate AllBits(answers: seq<CloseAnswer>)
  {
    forall k :: 0 <= k < |answers| ==> answers[k].value == 0 || answers[k].value == 1
  }

  /** The initial answers are 0/1, and clicking keeps them 0/1. */
  lemma {:induction false} AnswersStayBits(qs: seq<QuestionView>, answers: seq<CloseAnswer>, choiceID: int)
    ensures AllBits(CloseAnswersOf(qs))
    ensures AllBits(answers) ==> AllBits(Toggled(answers, choiceID))
  {
    if qs != [] {
      AnswersStayBits(qs[..|qs| - 1], answers, choiceID);
      var prev := CloseAnswersOf(qs[..|qs| - 1]);
      var part := ClosePart(qs[|qs| - 1]);
      assert forall k :: 0 <= k < |part| ==> part[k].value == 0;
      assert forall k :: 0 <= k < |prev + part| ==> (prev + part)[k] == if k < |prev| then prev[k] else part[k - |prev|];
    }
  }

  /** Clicking the same checkbox twice restores 0/1 answers. */
  lemma ToggleTwice(answers: seq<CloseAnswer>, choiceID: int)
    requires forall k :: 0 <= k < |answers| ==> answers[k].value == 0 || answers[k].value == 1
    ensures Toggled(Toggled(answers, choiceID), choiceID) == answers
  {
    var i := FindClose(answers, choiceID);
    if i >= 0 {
      var once := Toggled(answers, choiceID);
      FindCloseUnique(once, i, choiceID);
      assert Toggled(once, choiceID) == once[i := once[i].(value := Flip(once[i].value))];
    }
  }

  lemma {:induction false} FindCloseUnique(answers: seq<CloseAnswer>, k: int, choiceID: int)
    requires 0 <= k < |answers| && answers[k].choiceID == choiceID
    requires forall m :: 0 <= m < k ==> answers[m].choiceID != choiceID
    ensures FindClose(answers, choiceID) == k
  {
    if k > 0 {
      FindCloseUnique(answers[1..], k - 1, choiceID);
    }
  }

  /**
   * Checking a box raises its question's count of selections by one and
   * unchecking it lowers the count by one; other questions' counts stay.
   */
  lemma ToggleChangesCount(answers: seq<CloseAnswer>, choiceID: int, questionID: int)
    requires FindClose(answers, choiceID) >= 0
    requires var i := FindClose(answers, choiceID); answers[i].value == 0 || answers[i].value == 1
    ensures var i := FindClose(answers, choiceID);
      SelectedCount(Toggled(answers, choiceID), questionID) ==
        if answers[i].questionID != questionID then SelectedCount(answers, questionID)
        else if answers[i].value == 0 then SelectedCount(answers, questionID) + 1
        else SelectedCount(answers, questionID) - 1
  {
    var i := FindClose(answers, choiceID);
    var r := Toggled(answers, choiceID);
    assert answers == answers[..i] + [answers[i]] + answers[i + 1..];
    assert r == answers[..i] + [r[i]] + answers[i + 1..];
    SelectedCountAppend(answers[..i] + [answers[i]], answers[i + 1..], questionID);
    SelectedCountAppend(answers[..i], [answers[i]], questionID);
    SelectedCountAppend(answers[..i] + [r[i]], answers[i + 1..], questionID);
    SelectedCountAppend(answers[..i], [r[i]], questionID);
  }

  /** The state of the respondent's form. */
  class AnswerForm {
    var name: string
    var questions: seq<QuestionView>
    var openAnswers: seq<OpenAnswer>
    var closeAnswers: seq<CloseAnswer>
    var validated: bool

    /** The form once the survey's questions have arrived. */
    constructor (result: seq<QuestionView>)
      ensures name == "" && !validated
      ensures questions == SortByPosition(result)
      ensures openAnswers == OpenAnswersOf(questions) && closeAnswers == CloseAnswersOf(questions)
    {
      var qs, open, close := InitAnswers(result);
      name := "";
      questions := qs;
      openAnswers, closeAnswers := open, close;
      validated := false;
    }

    /** `updateOpenAnswer`: the typed text goes to the first answer of that question. */
    method UpdateOpenAnswer(questionID: int, text: string)
      modifies this
      ensures openAnswers == WithText(old(openAnswers), questionID, text)
      ensures closeAnswers == old(closeAnswers) && questions == old(questions) && name == old(name)
      ensures validated == old(validated)
    {
      var index := FindOpen(openAnswers, questionID);
      if index != -1 {
        var tmp := openAnswers;
        tmp := tmp[index := tmp[index].(text := text)];
        openAnswers := tmp;
      }
    }

    /** `updateCloseAnswer`: the first answer of that choice flips between selected and not. */
    method UpdateCloseAnswer(choiceID: int)
      modifies this
      ensures closeAnswers == Toggled(old(closeAnswers), choiceID)
      ensures openAnswers == old(openAnswers) && questions == old(questions) && name == old(name)
      ensures validated == old(validated)
    {
      var index := FindClose(closeAnswers, choiceID);
      if index != -1 {
        var tmp := closeAnswers;
        tmp := tmp[index := tmp[index].(value := if tmp[index].value != 0 then 0 else 1)];
        closeAnswers := tmp;
      }
    }

    /**
     * `handleSubmit`: the answers are sent only when every choice question's
     * selections lie within its bounds and the browser accepts the form;
     * otherwise the form shows its validation messages.
     */
    method HandleSubmit(formValid: bool) returns (send: bool)
      modifies this
      ensures send <==> CardinalityOk(questions, closeAnswers) && formValid
      ensures validated == (old(validated) || !send)
      ensures questions == old(questions) && openAnswers == old(openAnswers)
      ensures closeAnswers == old(closeAnswers) && name == old(name)
    {
      var ok := CheckCardinality(questions, closeAnswers);
      if !ok || !formValid {
        validated := true;
        return false;
      }
      return true;
    }
  }

  /** The counter of selected options one choice question displays. */
  class ChoiceCounter {
    var numberOptionsSelected: int

    constructor ()
      ensures numberOptionsSelected == 0
    {
      numberOptionsSelected := 0;
    }

    /**
     * `updateOption`: a click on a checkbox of the question counts one more
     * selection when the box became checked and one fewer otherwise, then
     * passes the click on to the form.
     */
    method UpdateOption(checked: bool, choiceID: int, form: AnswerForm)
      modifies this, form
      ensures numberOptionsSelected == old(numberOptionsSelected) + (if checked then 1 else -1)
      ensures form.closeAnswers == Toggled(old(form.closeAnswers), choiceID)
      ensures form.openAnswers == old(form.openAnswers) && form.questions == old(form.questions)
      ensures form.name == old(form.name) && form.validated == old(form.validated)
    {
      var tmp := numberOptionsSelected;
      if checked {
        numberOptionsSelected := tmp + 1;
      } else {
        numberOptionsSelected := tmp - 1;
      }
      form.UpdateCloseAnswer(choiceID);
    }
  }

  /**
   * When the counter agrees with the form's count before a click, and the
   * box's new checked state is the opposite of the entry's old value, the
   * counter still agrees after the click.
   */
  lemma CounterTracksSelection(answers: seq<CloseAnswer>, choiceID: int, questionID: int, counter: int, checked: bool)
    requires FindClose(answers, choiceID) >= 0
    requires answers[FindClose(answers, choiceID)].questionID == questionID
    requires answers[FindClose(answers, choiceID)].value == (if checked then 0 else 1)
    requires counter == SelectedCount(answers, questionID)
    ensures counter + (if checked then 1 else -1) == SelectedCount(Toggled(answers, choiceID), questionID)
  {
    ToggleChangesCount(answers, choiceID, questionID);
  }

  // ---------------------------------------------------------------------
  // The administrator's view of one sheet
  // ---------------------------------------------------------------------

  /** The `position` of an item of a sheet: its group's, or its open answer's. */
  function ItemPosition(it: SubmissionsList.Item): int
  {
    match it
    case GroupItem(g) => g.position
    case OpenItem(a) => a.position
  }

  predicate ItemsSortedByPosition(items: seq<SubmissionsList.Item>)
  {
    forall i, j :: 0 <= i < j < |items| ==> ItemPosition(items[i]) <= ItemPosition(items[j])
  }

  /** Inserts `it` before the first item whose position is not smaller. */
  function InsertItem(it: SubmissionsList.Item, sorted: seq<SubmissionsList.Item>): (r: seq<SubmissionsList.Item>)
    ensures multiset(r) == multiset(sorted) + multiset{it}
  {
    if sorted == [] then [it]
    else if ItemPosition(it) <= ItemPosition(sorted[0]) then [it] + sorted
    else
      assert sorted == [sorted[0]] + sorted[1..];
      [sorted[0]] + InsertItem(it, sorted[1..])
  }

  /** Inserting keeps a lower bound that both the items and the new item respect. */
  lemma {:induction false} InsertItemKeepsLowerBound(it: SubmissionsList.Item, s: seq<SubmissionsList.Item>, bound: int)
    requires forall x :: x in s ==> bound <= ItemPosition(x)
    requires bound <= ItemPosition(it)
    ensures forall x :: x in InsertItem(it, s) ==> bound <= ItemPosition(x)
  {
    if s != [] && ItemPosition(it) > ItemPosition(s[0]) {
      assert forall x :: x in s[1..] ==> x in s;
      InsertItemKeepsLowerBound(it, s[1..], bound);
    }
  }

  lemma ConsItemsSorted(a: SubmissionsList.Item, s: seq<SubmissionsList.Item>)
    requires ItemsSortedByPosition(s)
    requires forall x :: x in s ==> ItemPosition(a) <= ItemPosition(x)
    ensures ItemsSortedByPosition([a] + s)
  {
    forall i, j | 0 <= i < j < |[a] + s|
      ensures ItemPosition(([a] + s)[i]) <= ItemPosition(([a] + s)[j])
    {
      assert ([a] + s)[j] == s[j - 1] && s[j - 1] in s;
      if i > 0 {
        assert ([a] + s)[i] == s[i - 1];
      }
    }
  }

  /** Inserting into items ordered by position keeps them ordered. */
  lemma {:induction false} InsertItemKeepsSorted(it: SubmissionsList.Item, s: seq<SubmissionsList.Item>)
    requires ItemsSortedByPosition(s)
    ensures ItemsSortedByPosition(InsertItem(it, s))
  {
    if s == [] {
    } else if ItemPosition(it) <= ItemPosition(s[0]) {
      forall x | x in s ensures ItemPosition(it) <= ItemPosition(x) {
        var k :| 0 <= k < |s| && s[k] == x;
      }
      ConsItemsSorted(it, s);
    } else {
      assert ItemsSortedByPosition(s[1..]) by {
        forall i, j | 0 <= i < j < |s[1..]| ensures ItemPosition(s[1..][i]) <= ItemPosition(s[1..][j]) {
          assert s[1..][i] == s[i + 1] && s[1..][j] == s[j + 1];
        }
      }
      InsertItemKeepsSorted(it, s[1..]);
      forall x | x in s[1..] ensures ItemPosition(s[0]) <= ItemPosition(x) {
        var k :| 0 <= k < |s[1..]| && s[1..][k] == x;
        assert s[k + 1] == x;
      }
      InsertItemKeepsLowerBound(it, s[1..], ItemPosition(s[0]));
      ConsItemsSorted(s[0], InsertItem(it, s[1..]));
    }
  }

  /**
   * `submission.questions.sort(...)` when an administrator opens a sheet:
   * the grouped choice questions and the open answers together, ordered by
   * position.
   */
  function SortItemsByPosition(items: seq<SubmissionsList.Item>): (r: seq<SubmissionsList.Item>)
    ensures ItemsSortedByPosition(r)
    ensures multiset(r) == multiset(items)
  {
    if items == [] then []
    else
      assert items == [items[0]] + items[1..];
      InsertItemKeepsSorted(items[0], SortItemsByPosition(items[1..]));
      InsertItem(items[0], SortItemsByPosition(items[1..]))
  }

  /**
   * The sheet an administrator is shown: the respondent's name, and every
   * item of the sheet, choice groups and open answers alike, in ascending
   * order of position.
   */
  function ShownSheet(sheet: SubmissionsList.Sheet): (r: SubmissionsList.Sheet)
    ensures r.name == sheet.name
    ensures ItemsSortedByPosition(r.questions)
    ensures multiset(r.questions) == multiset(sheet.questions)
  {
    SubmissionsList.Sheet(sheet.name, SortItemsByPosition(sheet.questions))
  }

  /**
   * Whatever order the groups of a built sheet were left in, the sheet an
   * administrator is shown holds exactly the respondent's grouped close
   * answers and open answers, ordered by position.
   */
  lemma ShownSheetContents(sheet: SubmissionsList.Sheet, r: RespondentAnswers)
    requires SubmissionsList.SheetOf(sheet, r)
    ensures ShownSheet(sheet).name == r.nameUser
    ensures ItemsSortedByPosition(ShownSheet(sheet).questions)
    ensures multiset(ShownSheet(sheet).questions)
      == multiset(SubmissionsList.GroupItems(SubmissionsList.GroupRows(r.closeAnswers)))
         + multiset(SubmissionsList.OpenItems(r.openAnswers))
  {
    var n := |SubmissionsList.GroupRows(r.closeAnswers)|;
    assert sheet.questions == sheet.questions[..n] + sheet.questions[n..];
  }
}
