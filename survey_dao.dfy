/**
 * The server's data access layer over the relational store: the five
 * tables held in memory as sequences of rows, the statements that write
 * them (creating a survey, recording a submission) and the queries that
 * read them, each with its relational meaning.
 *
 * Row identifiers that the store assigns on insert are modelled by the
 * counters `nextSurveyID`, `nextQuestionID` and `nextChoiceID`.
 */
module SurveyDao {
  import opened SurveyData

  datatype SurveyRow = SurveyRow(id: int, title: string, description: string, admin: int, nSubmissions: int)
  datatype QuestionRow = QuestionRow(id: int, title: string, min: int, max: int, survey: int, position: int)
  datatype ChoiceRow = ChoiceRow(id: int, question: int, text: string)
  datatype CloseAnswerRow = CloseAnswerRow(userID: int, choice: int, value: int, nameUser: string)
  datatype OpenAnswerRow = OpenAnswerRow(userID: int, question: int, text: string, nameUser: string)

  /** The body of `POST /api/surveys` once it has passed validation. */
  datatype NewSurvey = NewSurvey(title: string, description: string, questions: seq<DraftQuestion>)

  /** The body of `POST /api/surveys/:id/submissions` once it has passed validation. */
  datatype NewSubmission = NewSubmission(
    surveyID: int,
    name: string,
    openAnswers: seq<OpenAnswer>,
    closeAnswers: seq<CloseAnswer>)

  /** The columns `listAdminSurveys` selects. */
  datatype AdminSurvey = AdminSurvey(id: int, title: string, description: string, nSubmissions: int)

  // ---------------------------------------------------------------------
  // Respondent identifiers
  // ---------------------------------------------------------------------

  function UserIDs(closeRows: seq<CloseAnswerRow>, openRows: seq<OpenAnswerRow>): (ids: seq<int>)
    ensures forall r :: r in closeRows ==> r.userID in ids
    ensures forall r :: r in openRows ==> r.userID in ids
    ensures |ids| == |closeRows| + |openRows|
  {
    var a := seq(|closeRows|, i requires 0 <= i < |closeRows| => closeRows[i].userID);
    var b := seq(|openRows|, i requires 0 <= i < |openRows| => openRows[i].userID);
    assert forall i :: 0 <= i < |closeRows| ==> a[i] == closeRows[i].userID;
    assert forall i :: 0 <= i < |openRows| ==> b[i] == openRows[i].userID;
    a + b
  }

  /** The largest identifier of the list, or 0 when the list is empty. */
  function MaxOrZero(ids: seq<int>): (m: int)
    ensures ids == [] ==> m == 0
    ensures ids != [] ==> m in ids
    ensures forall x :: x in ids ==> x <= m
  {
    if ids == [] then 0
    else if |ids| == 1 then ids[0]
    else
      var rest := MaxOrZero(ids[1..]);
      assert ids == [ids[0]] + ids[1..];
      if ids[0] >= rest then ids[0] else rest
  }

  // ---------------------------------------------------------------------
  // Rows written by a submission
  // ---------------------------------------------------------------------

  /** One `closeAnswers` row per presented choice, selected or not. */
  function CloseRowsOf(userID: int, s: NewSubmission): (rows: seq<CloseAnswerRow>)
  {
    seq(|s.closeAnswers|, i requires 0 <= i < |s.closeAnswers| =>
      CloseAnswerRow(userID, s.closeAnswers[i].choiceID, s.closeAnswers[i].value, s.name))
  }

  /** One `openAnswers` row per open answer. */
  function OpenRowsOf(userID: int, s: NewSubmission): (rows: seq<OpenAnswerRow>)
  {
    seq(|s.openAnswers|, i requires 0 <= i < |s.openAnswers| =>
      OpenAnswerRow(userID, s.openAnswers[i].questionID, s.openAnswers[i].text, s.name))
  }

  /** The survey table after `nSubmissions=nSubmissions+1 WHERE id=surveyID`. */
  function CountSubmission(surveys: seq<SurveyRow>, surveyID: int): (r: seq<SurveyRow>)
  {
    seq(|surveys|, i requires 0 <= i < |surveys| =>
      if surveys[i].id == surveyID then surveys[i].(nSubmissions := surveys[i].nSubmissions + 1)
      else surveys[i])
  }

  /** The close-answer rows of respondent `userID`, in table order. */
  function CloseRowsOfUser(rows: seq<CloseAnswerRow>, userID: int): (r: seq<CloseAnswerRow>)
  {
    if rows == [] then []
    else (if rows[0].userID == userID then [rows[0]] else []) + CloseRowsOfUser(rows[1..], userID)
  }

  /** The open-answer rows of respondent `userID`, in table order. */
  function OpenRowsOfUser(rows: seq<OpenAnswerRow>, userID: int): (r: seq<OpenAnswerRow>)
  {
    if rows == [] then []
    else (if rows[0].userID == userID then [rows[0]] else []) + OpenRowsOfUser(rows[1..], userID)
  }

  // ---------------------------------------------------------------------
  // Rows written by the creation of a survey
  // ---------------------------------------------------------------------

  /** Question `i` of the survey becomes the row with identifier `firstID + i`. */
  function QuestionRowsOf(qs: seq<DraftQuestion>, surveyID: int, firstID: int): (rows: seq<QuestionRow>)
  {
    seq(|qs|, i requires 0 <= i < |qs| =>
      QuestionRow(firstID + i, qs[i].titleQuestion, qs[i].min, qs[i].max, surveyID, qs[i].position))
  }

  /** The choice rows of one question: one per option text, and none for an open question. */
  function ChoiceBlock(q: DraftQuestion, questionID: int, firstID: int): (rows: seq<ChoiceRow>)
  {
    if IsChoiceQuestion(q.max) then
      seq(|q.content|, j requires 0 <= j < |q.content| => ChoiceRow(firstID + j, questionID, q.content[j]))
    else []
  }

  /** The choice rows of all questions, question by question, with consecutive identifiers. */
  function ChoiceRowsOf(qs: seq<DraftQuestion>, firstQuestionID: int, firstChoiceID: int): (rows: seq<ChoiceRow>)
  {
    if qs == [] then []
    else
      ChoiceRowsOf(qs[..|qs| - 1], firstQuestionID, firstChoiceID)
      + ChoiceBlock(qs[|qs| - 1], firstQuestionID + |qs| - 1, firstChoiceID + OptionCount(qs[..|qs| - 1]))
  }

  /** How many choice rows the questions get: the options of each choice question. */
  function OptionCount(qs: seq<DraftQuestion>): nat
  {
    if qs == [] then 0
    else OptionCount(qs[..|qs| - 1]) + (if IsChoiceQuestion(qs[|qs| - 1].max) then |qs[|qs| - 1].content| else 0)
  }

  // ---------------------------------------------------------------------
  // Queries
  // ---------------------------------------------------------------------

  function ViewOf(row: QuestionRow): QuestionView
  {
    QuestionView(row.id, row.title, row.min, row.max, row.position, [])
  }

  /** `SELECT ... FROM questions WHERE questions.survey = surveyID`, in table order. */
  function QuestionsOfSurvey(rows: seq<QuestionRow>, surveyID: int): (r: seq<QuestionView>)
    ensures forall v :: v in r <==> exists row :: row in rows && row.survey == surveyID && v == ViewOf(row)
    ensures |r| == CountWhere(rows, (row: QuestionRow) => row.survey == surveyID)
  {
    if rows == [] then []
    else
      assert rows == [rows[0]] + rows[1..];
      (if rows[0].survey == surveyID then [ViewOf(rows[0])] else []) + QuestionsOfSurvey(rows[1..], surveyID)
  }

  /** `SELECT id as choiceID, text, question FROM choices WHERE question = questionID`, in table order. */
  function ChoicesOf(rows: seq<ChoiceRow>, questionID: int): (r: seq<Choice>)
  {
    if rows == [] then []
    else (if rows[0].question == questionID then [Choice(rows[0].id, rows[0].text, rows[0].question)] else []) + ChoicesOf(rows[1..], questionID)
  }

  /** The choices selected for a question are exactly the rows that refer to it. */
  lemma {:induction false} ChoicesOfMembers(rows: seq<ChoiceRow>, questionID: int)
    ensures forall c :: c in ChoicesOf(rows, questionID) <==>
      exists row :: row in rows && row.question == questionID && c == Choice(row.id, row.text, row.question)
    ensures |ChoicesOf(rows, questionID)| == CountWhere(rows, (row: ChoiceRow) => row.question == questionID)
  {
    if rows != [] {
      ChoicesOfMembers(rows[1..], questionID);
      assert rows == [rows[0]] + rows[1..];
    }
  }

  /** `SELECT id, title, description, nSubmissions FROM surveys WHERE admin = id`, in table order. */
  function AdminSurveysOf(rows: seq<SurveyRow>, admin: int): (r: seq<AdminSurvey>)
    ensures forall s :: s in r <==>
      exists row :: row in rows && row.admin == admin && s == AdminSurvey(row.id, row.title, row.description, row.nSubmissions)
    ensures |r| == CountWhere(rows, (row: SurveyRow) => row.admin == admin)
  {
    if rows == [] then []
    else
      assert rows == [rows[0]] + rows[1..];
      var row := rows[0];
      (if row.admin == admin then [AdminSurvey(row.id, row.title, row.description, row.nSubmissions)] else [])
      + AdminSurveysOf(rows[1..], admin)
  }

  /** The store: the five tables and the next identifier each table will assign. */
  class Store {
    var surveys: seq<SurveyRow>
    var questions: seq<QuestionRow>
    var choices: seq<ChoiceRow>
    var closeAnswers: seq<CloseAnswerRow>
    var openAnswers: seq<OpenAnswerRow>
    var nextSurveyID: int
    var nextQuestionID: int
    var nextChoiceID: int

    /**
     * Survey, question and choice identifiers are positive, increase in
     * table order and lie below the next one to be assigned; question and
     * choice rows only refer to surveys and questions that were already
     * created.
     */
    ghost predicate Valid()
      reads this
    {
      && 1 <= nextSurveyID && 1 <= nextQuestionID && 1 <= nextChoiceID
      && (forall i :: 0 <= i < |surveys| ==> 1 <= surveys[i].id < nextSurveyID)
      && (forall i, j :: 0 <= i < j < |surveys| ==> surveys[i].id < surveys[j].id)
      && (forall i :: 0 <= i < |questions| ==> 1 <= questions[i].id < nextQuestionID && questions[i].survey < nextSurveyID)
      && (forall i, j :: 0 <= i < j < |questions| ==> questions[i].id < questions[j].id)
      && (forall i :: 0 <= i < |choices| ==> 1 <= choices[i].id < nextChoiceID && choices[i].question < nextQuestionID)
      && (forall i, j :: 0 <= i < j < |choices| ==> choices[i].id < choices[j].id)
    }

    constructor ()
      ensures Valid()
      ensures surveys == [] && questions == [] && choices == [] && closeAnswers == [] && openAnswers == []
    {
      surveys, questions, choices := [], [], [];
      closeAnswers, openAnswers := [], [];
      nextSurveyID, nextQuestionID, nextChoiceID := 1, 1, 1;
    }

    /**
     * `getMaxUserID`: the largest respondent identifier recorded in either
     * answer table, or 0 when both are empty.
     */
    function MaxUserID(): (m: int)
      reads this
      ensures closeAnswers == [] && openAnswers == [] ==> m == 0
      ensures closeAnswers != [] || openAnswers != [] ==> m in UserIDs(closeAnswers, openAnswers)
      ensures forall r :: r in closeAnswers ==> r.userID <= m
      ensures forall r :: r in openAnswers ==> r.userID <= m
    {
      MaxOrZero(UserIDs(closeAnswers, openAnswers))
    }

    /** `getQuestionsBySurveyID`: the questions of one survey, ordered by position. */
    function QuestionsBySurveyID(surveyID: int): (r: seq<QuestionView>)
      reads this
      ensures SortedByPosition(r)
      ensures forall v :: v in r <==> exists row :: row in questions && row.survey == surveyID && v == ViewOf(row)
      ensures |r| == CountWhere(questions, (row: QuestionRow) => row.survey == surveyID)
    {
      var unordered := QuestionsOfSurvey(questions, surveyID);
      var r := SortByPosition(unordered);
      assert forall v :: v in r <==> v in unordered by {
        forall v ensures v in r <==> v in unordered {
          assert v in r <==> v in multiset(r);
          assert v in unordered <==> v in multiset(unordered);
        }
      }
      r
    }

    /**
     * `getChoicesByQuestionID`: the question with its `content` replaced by
     * the choices recorded for it; every other field is left as it was.
     */
    function ChoicesByQuestionID(row: QuestionView): (r: QuestionView)
      reads this
      ensures r.(content := row.content) == row
      ensures forall c :: c in r.content <==>
        exists ch :: ch in choices && ch.question == row.questionID && c == Choice(ch.id, ch.text, ch.question)
      ensures |r.content| == CountWhere(choices, (ch: ChoiceRow) => ch.question == row.questionID)
    {
      ChoicesOfMembers(choices, row.questionID);
      row.(content := ChoicesOf(choices, row.questionID))
    }

    /** `listAdminSurveys`: the surveys owned by administrator `admin`. */
    function ListAdminSurveys(admin: int): (r: seq<AdminSurvey>)
      reads this
      ensures forall s :: s in r <==>
        exists row :: row in surveys && row.admin == admin && s == AdminSurvey(row.id, row.title, row.description, row.nSubmissions)
      ensures |r| == CountWhere(surveys, (row: SurveyRow) => row.admin == admin)
    {
      AdminSurveysOf(surveys, admin)
    }

    /**
     * `addSubmission`: records the submission under respondent identifier
     * `lastUserID + 1` (one row per presented choice, one per open answer)
     * and counts one more submission for survey `s.surveyID`.
     */
    method AddSubmission(lastUserID: int, s: NewSubmission)
      requires Valid()
      modifies this
      ensures Valid()
      ensures closeAnswers == old(closeAnswers) + CloseRowsOf(lastUserID + 1, s)
      ensures openAnswers == old(openAnswers) + OpenRowsOf(lastUserID + 1, s)
      ensures surveys == CountSubmission(old(surveys), s.surveyID)
      ensures questions == old(questions) && choices == old(choices)
      ensures nextSurveyID == old(nextSurveyID) && nextQuestionID == old(nextQuestionID)
      ensures nextChoiceID == old(nextChoiceID)
    {
      var userID := lastUserID + 1;
      var i := 0;
      while i < |s.closeAnswers|
        invariant 0 <= i <= |s.closeAnswers|
        invariant closeAnswers == old(closeAnswers) + CloseRowsOf(userID, s)[..i]
        invariant unchanged(`surveys) && unchanged(`questions) && unchanged(`choices) && unchanged(`openAnswers)
        invariant unchanged(`nextSurveyID) && unchanged(`nextQuestionID) && unchanged(`nextChoiceID)
      {
        var choice := s.closeAnswers[i];
        closeAnswers := closeAnswers + [CloseAnswerRow(userID, choice.choiceID, choice.value, s.name)];
        i := i + 1;
        assert CloseRowsOf(userID, s)[..i] == CloseRowsOf(userID, s)[..i - 1] + [CloseRowsOf(userID, s)[i - 1]];
      }
      i := 0;
      while i < |s.openAnswers|
        invariant 0 <= i <= |s.openAnswers|
        invariant closeAnswers == old(closeAnswers) + CloseRowsOf(userID, s)
        invariant openAnswers == old(openAnswers) + OpenRowsOf(userID, s)[..i]
        invariant unchanged(`surveys) && unchanged(`questions) && unchanged(`choices)
        invariant unchanged(`nextSurveyID) && unchanged(`nextQuestionID) && unchanged(`nextChoiceID)
      {
        var answer := s.openAnswers[i];
        openAnswers := openAnswers + [OpenAnswerRow(userID, answer.questionID, answer.text, s.name)];
        i := i + 1;
        assert OpenRowsOf(userID, s)[..i] == OpenRowsOf(userID, s)[..i - 1] + [OpenRowsOf(userID, s)[i - 1]];
      }
      IncrementSubmissions(s.surveyID);
    }

    /** The last statement of `addSubmission`: `nSubmissions + 1` on the survey `surveyID`. */
    method IncrementSubmissions(surveyID: int)
      requires Valid()
      modifies this`surveys
      ensures Valid()
      ensures surveys == CountSubmission(old(surveys), surveyID)
    {
      var i := 0;
      while i < |surveys|
        invariant 0 <= i <= |surveys| == |old(surveys)|
        invariant forall k :: 0 <= k < i ==> surveys[k] == CountSubmission(old(surveys), surveyID)[k]
        invariant forall k :: i <= k < |surveys| ==> surveys[k] == old(surveys)[k]
      {
        if surveys[i].id == surveyID {
          surveys := surveys[i := surveys[i].(nSubmissions := surveys[i].nSubmissions + 1)];
        }
        i := i + 1;
      }
    }

    /**
     * `createSurvey`: one survey row with no submissions yet, then for each
     * question one question row carrying its title, `min`, `max` and
     * `position`, and, for a choice question only, one choice row per
     * option. Returns the new survey's identifier.
     */
    method CreateSurvey(survey: NewSurvey, admin: int) returns (surveyID: int)
      requires Valid()
      modifies this
      ensures Valid()
      ensures surveyID == old(nextSurveyID)
      ensures surveys == old(surveys) + [SurveyRow(surveyID, survey.title, survey.description, admin, 0)]
      ensures questions == old(questions) + QuestionRowsOf(survey.questions, surveyID, old(nextQuestionID))
      ensures choices == old(choices) + ChoiceRowsOf(survey.questions, old(nextQuestionID), old(nextChoiceID))
      ensures nextSurveyID == old(nextSurveyID) + 1
      ensures nextQuestionID == old(nextQuestionID) + |survey.questions|
      ensures nextChoiceID == old(nextChoiceID) + OptionCount(survey.questions)
      ensures closeAnswers == old(closeAnswers) && openAnswers == old(openAnswers)
    {
      surveyID := InsertSurvey(survey.title, survey.description, admin);
      ghost var firstQuestion, firstChoice := nextQuestionID, nextChoiceID;
      var qs := survey.questions;
      var i := 0;
      while i < |qs|
        invariant 0 <= i <= |qs|
        invariant Valid() && nextSurveyID == surveyID + 1
        invariant surveys == old(surveys) + [SurveyRow(surveyID, survey.title, survey.description, admin, 0)]
        invariant unchanged(`closeAnswers) && unchanged(`openAnswers)
        invariant nextQuestionID == firstQuestion + i
        invariant questions == old(questions) + QuestionRowsOf(qs[..i], surveyID, firstQuestion)
        invariant choices == old(choices) + ChoiceRowsOf(qs[..i], firstQuestion, firstChoice)
        invariant nextChoiceID == firstChoice + OptionCount(qs[..i])
      {
        InsertQuestionAt(qs, i, surveyID, firstQuestion, firstChoice, old(questions), old(choices));
        i := i + 1;
      }
      assert qs[..i] == qs;
    }

    /**
     * Iteration `i` of `createSurvey`: the rows of `qs[..i]` already follow
     * `baseQuestions` and `baseChoices`; afterwards so do those of `qs[..i + 1]`.
     */
    method InsertQuestionAt(
      qs: seq<DraftQuestion>, i: int, surveyID: int, ghost firstQuestion: int, ghost firstChoice: int,
      ghost baseQuestions: seq<QuestionRow>, ghost baseChoices: seq<ChoiceRow>)
      requires Valid() && surveyID < nextSurveyID && 0 <= i < |qs|
      requires nextQuestionID == firstQuestion + i
      requires questions == baseQuestions + QuestionRowsOf(qs[..i], surveyID, firstQuestion)
      requires choices == baseChoices + ChoiceRowsOf(qs[..i], firstQuestion, firstChoice)
      requires nextChoiceID == firstChoice + OptionCount(qs[..i])
      modifies this`questions, this`nextQuestionID, this`choices, this`nextChoiceID
      ensures Valid()
      ensures nextQuestionID == firstQuestion + i + 1
      ensures questions == baseQuestions + QuestionRowsOf(qs[..i + 1], surveyID, firstQuestion)
      ensures choices == baseChoices + ChoiceRowsOf(qs[..i + 1], firstQuestion, firstChoice)
      ensures nextChoiceID == firstChoice + OptionCount(qs[..i + 1])
    {
      ghost var questionsBefore, choicesBefore := questions, choices;
      ghost var questionID, choiceID := nextQuestionID, nextChoiceID;
      InsertQuestion(qs[i], surveyID);
      StepTables(qs, i, surveyID, firstQuestion, firstChoice, baseQuestions, baseChoices,
        questionsBefore, choicesBefore, questionID, choiceID, questions, choices, nextChoiceID);
    }

    /** The first statement of `createSurvey`: the survey row, with no submissions yet. */
    method InsertSurvey(title: string, description: string, admin: int) returns (surveyID: int)
      requires Valid()
      modifies this`surveys, this`nextSurveyID
      ensures Valid() && surveyID == old(nextSurveyID) && nextSurveyID == surveyID + 1
      ensures surveys == old(surveys) + [SurveyRow(surveyID, title, description, admin, 0)]
    {
      surveyID := nextSurveyID;
      surveys := surveys + [SurveyRow(surveyID, title, description, admin, 0)];
      nextSurveyID := nextSurveyID + 1;
    }

    /** One iteration of `createSurvey`: the question row, then its choice rows. */
    method InsertQuestion(q: DraftQuestion, surveyID: int)
      requires Valid() && surveyID < nextSurveyID
      modifies this`questions, this`nextQuestionID, this`choices, this`nextChoiceID
      ensures Valid()
      ensures questions == old(questions) + [QuestionRow(old(nextQuestionID), q.titleQuestion, q.min, q.max, surveyID, q.position)]
      ensures nextQuestionID == old(nextQuestionID) + 1
      ensures choices == old(choices) + ChoiceBlock(q, old(nextQuestionID), old(nextChoiceID))
      ensures nextChoiceID == old(nextChoiceID) + |ChoiceBlock(q, old(nextQuestionID), old(nextChoiceID))|
    {
      var questionID := InsertQuestionRow(q, surveyID);
      if IsChoiceQuestion(q.max) {
        var j := 0;
        while j < |q.content|
          invariant 0 <= j <= |q.content|
          invariant nextChoiceID == old(nextChoiceID) + j
          invariant choices == old(choices) + ChoiceBlock(q, questionID, old(nextChoiceID))[..j]
          invariant questions == old(questions) + [QuestionRow(questionID, q.titleQuestion, q.min, q.max, surveyID, q.position)]
          invariant nextQuestionID == questionID + 1
          invariant Valid()
        {
          InsertChoice(questionID, q.content[j]);
          j := j + 1;
        }
        assert ChoiceBlock(q, questionID, old(nextChoiceID))[..j] == ChoiceBlock(q, questionID, old(nextChoiceID));
      }
    }

    /** The question row of one iteration of `createSurvey`, under the next question identifier. */
    method InsertQuestionRow(q: DraftQuestion, surveyID: int) returns (questionID: int)
      requires Valid() && surveyID < nextSurveyID
      modifies this`questions, this`nextQuestionID
      ensures Valid()
      ensures questionID == old(nextQuestionID) && nextQuestionID == questionID + 1
      ensures questions == old(questions) + [QuestionRow(questionID, q.titleQuestion, q.min, q.max, surveyID, q.position)]
    {
      questionID := nextQuestionID;
      questions := questions + [QuestionRow(questionID, q.titleQuestion, q.min, q.max, surveyID, q.position)];
      nextQuestionID := nextQuestionID + 1;
    }

    /** One choice row of a question, under the next choice identifier. */
    method InsertChoice(questionID: int, text: string)
      requires Valid() && questionID < nextQuestionID
      modifies this`choices, this`nextChoiceID
      ensures Valid()
      ensures choices == old(choices) + [ChoiceRow(old(nextChoiceID), questionID, text)]
      ensures nextChoiceID == old(nextChoiceID) + 1
    {
      choices := choices + [ChoiceRow(nextChoiceID, questionID, text)];
      nextChoiceID := nextChoiceID + 1;
    }
  }

  /**
   * The tables after iteration `i` of `createSurvey` hold the rows of
   * `qs[..i + 1]` when those before it held the rows of `qs[..i]`.
   */
  lemma StepTables(
    qs: seq<DraftQuestion>, i: int, surveyID: int, firstQuestionID: int, firstChoiceID: int,
    baseQuestions: seq<QuestionRow>, baseChoices: seq<ChoiceRow>,
    questionsBefore: seq<QuestionRow>, choicesBefore: seq<ChoiceRow>, questionID: int, choiceID: int,
    questionsAfter: seq<QuestionRow>, choicesAfter: seq<ChoiceRow>, choiceIDAfter: int)
    requires 0 <= i < |qs|
    requires questionID == firstQuestionID + i && choiceID == firstChoiceID + OptionCount(qs[..i])
    requires questionsBefore == baseQuestions + QuestionRowsOf(qs[..i], surveyID, firstQuestionID)
    requires choicesBefore == baseChoices + ChoiceRowsOf(qs[..i], firstQuestionID, firstChoiceID)
    requires questionsAfter
      == questionsBefore + [QuestionRow(questionID, qs[i].titleQuestion, qs[i].min, qs[i].max, surveyID, qs[i].position)]
    requires choicesAfter == choicesBefore + ChoiceBlock(qs[i], questionID, choiceID)
    requires choiceIDAfter == choiceID + |ChoiceBlock(qs[i], questionID, choiceID)|
    ensures questionsAfter == baseQuestions + QuestionRowsOf(qs[..i + 1], surveyID, firstQuestionID)
    ensures choicesAfter == baseChoices + ChoiceRowsOf(qs[..i + 1], firstQuestionID, firstChoiceID)
    ensures choiceIDAfter == firstChoiceID + OptionCount(qs[..i + 1])
  {
    StepRows(qs, i, surveyID, firstQuestionID, firstChoiceID, questionID, choiceID);
    var row := QuestionRow(questionID, qs[i].titleQuestion, qs[i].min, qs[i].max, surveyID, qs[i].position);
    var block := ChoiceBlock(qs[i], questionID, choiceID);
    AppendAfter(baseQuestions, QuestionRowsOf(qs[..i], surveyID, firstQuestionID), questionsBefore, [row],
      questionsAfter, QuestionRowsOf(qs[..i + 1], surveyID, firstQuestionID));
    AppendAfter(baseChoices, ChoiceRowsOf(qs[..i], firstQuestionID, firstChoiceID), choicesBefore, block,
      choicesAfter, ChoiceRowsOf(qs[..i + 1], firstQuestionID, firstChoiceID));
  }

  /**
   * The rows of the first `i + 1` questions extend those of the first `i`
   * by question `i`'s rows, which take the next identifiers.
   */
  lemma StepRows(
    qs: seq<DraftQuestion>, i: int, surveyID: int, firstQuestionID: int, firstChoiceID: int,
    questionID: int, choiceID: int)
    requires 0 <= i < |qs|
    requires questionID == firstQuestionID + i && choiceID == firstChoiceID + OptionCount(qs[..i])
    ensures QuestionRowsOf(qs[..i + 1], surveyID, firstQuestionID)
      == QuestionRowsOf(qs[..i], surveyID, firstQuestionID)
         + [QuestionRow(questionID, qs[i].titleQuestion, qs[i].min, qs[i].max, surveyID, qs[i].position)]
    ensures ChoiceRowsOf(qs[..i + 1], firstQuestionID, firstChoiceID)
      == ChoiceRowsOf(qs[..i], firstQuestionID, firstChoiceID) + ChoiceBlock(qs[i], questionID, choiceID)
    ensures OptionCount(qs[..i + 1]) == OptionCount(qs[..i]) + |ChoiceBlock(qs[i], questionID, choiceID)|
  {
    QuestionRowsOfPrefix(qs, i, surveyID, firstQuestionID);
    ChoiceRowsOfPrefix(qs, i, firstQuestionID, firstChoiceID, questionID, choiceID);
    OptionCountOfPrefix(qs, i, questionID, choiceID);
  }

  lemma ChoiceRowsOfPrefix(qs: seq<DraftQuestion>, i: int, firstQuestionID: int, firstChoiceID: int, questionID: int, choiceID: int)
    requires 0 <= i < |qs|
    requires questionID == firstQuestionID + i && choiceID == firstChoiceID + OptionCount(qs[..i])
    ensures ChoiceRowsOf(qs[..i + 1], firstQuestionID, firstChoiceID)
      == ChoiceRowsOf(qs[..i], firstQuestionID, firstChoiceID) + ChoiceBlock(qs[i], questionID, choiceID)
  {
    var upTo := qs[..i + 1];
    assert |upTo| == i + 1 && upTo[..i] == qs[..i] && upTo[i] == qs[i];
    ChoiceRowsOfLast(upTo, firstQuestionID, firstChoiceID, questionID, choiceID);
  }

  lemma OptionCountOfPrefix(qs: seq<DraftQuestion>, i: int, questionID: int, choiceID: int)
    requires 0 <= i < |qs|
    ensures OptionCount(qs[..i + 1]) == OptionCount(qs[..i]) + |ChoiceBlock(qs[i], questionID, choiceID)|
  {
    var upTo := qs[..i + 1];
    assert upTo[..i] == qs[..i] && upTo[i] == qs[i];
    OptionCountOfLast(upTo);
  }

  lemma QuestionRowsOfPrefix(qs: seq<DraftQuestion>, i: int, surveyID: int, firstQuestionID: int)
    requires 0 <= i < |qs|
    ensures QuestionRowsOf(qs[..i + 1], surveyID, firstQuestionID)
      == QuestionRowsOf(qs[..i], surveyID, firstQuestionID)
         + [QuestionRow(firstQuestionID + i, qs[i].titleQuestion, qs[i].min, qs[i].max, surveyID, qs[i].position)]
  {
  }

  lemma OptionCountOfLast(qs: seq<DraftQuestion>)
    requires qs != []
    ensures OptionCount(qs)
      == OptionCount(qs[..|qs| - 1]) + (if IsChoiceQuestion(qs[|qs| - 1].max) then |qs[|qs| - 1].content| else 0)
  {
  }

  /** A table that was `base + prev` and then got `added` is `base + whole` when `whole` is `prev + added`. */
  lemma AppendAfter<T>(base: seq<T>, prev: seq<T>, before: seq<T>, added: seq<T>, after: seq<T>, whole: seq<T>)
    requires before == base + prev
    requires after == before + added
    requires whole == prev + added
    ensures after == base + whole
  {
  }

  // ---------------------------------------------------------------------
  // Respondent identifiers are fresh
  // ---------------------------------------------------------------------

  /**
   * `addSubmission` uses `getMaxUserID() + 1`: larger than every identifier
   * in either answer table.
   */
  lemma NextUserIDIsFresh(closeRows: seq<CloseAnswerRow>, openRows: seq<OpenAnswerRow>)
    ensures forall r :: r in closeRows ==> r.userID < MaxOrZero(UserIDs(closeRows, openRows)) + 1
    ensures forall r :: r in openRows ==> r.userID < MaxOrZero(UserIDs(closeRows, openRows)) + 1
  {
  }

  lemma {:induction false} CloseRowsOfUserAppend(a: seq<CloseAnswerRow>, b: seq<CloseAnswerRow>, u: int)
    ensures CloseRowsOfUser(a + b, u) == CloseRowsOfUser(a, u) + CloseRowsOfUser(b, u)
  {
    if a != [] {
      assert (a + b)[0] == a[0] && (a + b)[1..] == a[1..] + b;
      CloseRowsOfUserAppend(a[1..], b, u);
    } else {
      assert a + b == b;
    }
  }

  lemma {:induction false} OpenRowsOfUserAppend(a: seq<OpenAnswerRow>, b: seq<OpenAnswerRow>, u: int)
    ensures OpenRowsOfUser(a + b, u) == OpenRowsOfUser(a, u) + OpenRowsOfUser(b, u)
  {
    if a != [] {
      assert (a + b)[0] == a[0] && (a + b)[1..] == a[1..] + b;
      OpenRowsOfUserAppend(a[1..], b, u);
    } else {
      assert a + b == b;
    }
  }

  /** Rows that all carry identifier `u` are all selected for `u` and none for another respondent. */
  lemma {:induction false} CloseRowsOfOneUser(rows: seq<CloseAnswerRow>, u: int, v: int)
    requires forall r :: r in rows ==> r.userID == u
    ensures CloseRowsOfUser(rows, u) == rows
    ensures v != u ==> CloseRowsOfUser(rows, v) == []
  {
    if rows != [] {
      assert rows[0] in rows;
      CloseRowsOfOneUser(rows[1..], u, v);
      assert rows == [rows[0]] + rows[1..];
    }
  }

  lemma {:induction false} OpenRowsOfOneUser(rows: seq<OpenAnswerRow>, u: int, v: int)
    requires forall r :: r in rows ==> r.userID == u
    ensures OpenRowsOfUser(rows, u) == rows
    ensures v != u ==> OpenRowsOfUser(rows, v) == []
  {
    if rows != [] {
      assert rows[0] in rows;
      OpenRowsOfOneUser(rows[1..], u, v);
      assert rows == [rows[0]] + rows[1..];
    }
  }

  lemma {:induction false} NoCloseRowsOfUser(rows: seq<CloseAnswerRow>, u: int)
    requires forall r :: r in rows ==> r.userID < u
    ensures CloseRowsOfUser(rows, u) == []
  {
    if rows != [] {
      assert rows[0] in rows;
      NoCloseRowsOfUser(rows[1..], u);
    }
  }

  lemma {:induction false} NoOpenRowsOfUser(rows: seq<OpenAnswerRow>, u: int)
    requires forall r :: r in rows ==> r.userID < u
    ensures OpenRowsOfUser(rows, u) == []
  {
    if rows != [] {
      assert rows[0] in rows;
      NoOpenRowsOfUser(rows[1..], u);
    }
  }

  /**
   * Recorded under a fresh identifier `u`, a submission's rows are exactly
   * the rows of respondent `u` afterwards, and every other respondent's
   * rows are as they were: two sequential submissions never merge.
   */
  lemma SubmissionRowsBelongToOneRespondent(
    closeRows: seq<CloseAnswerRow>, openRows: seq<OpenAnswerRow>, s: NewSubmission, v: int)
    ensures var u := MaxOrZero(UserIDs(closeRows, openRows)) + 1;
      && CloseRowsOfUser(closeRows + CloseRowsOf(u, s), u) == CloseRowsOf(u, s)
      && OpenRowsOfUser(openRows + OpenRowsOf(u, s), u) == OpenRowsOf(u, s)
      && (v != u ==> CloseRowsOfUser(closeRows + CloseRowsOf(u, s), v) == CloseRowsOfUser(closeRows, v))
      && (v != u ==> OpenRowsOfUser(openRows + OpenRowsOf(u, s), v) == OpenRowsOfUser(openRows, v))
  {
    var ids := UserIDs(closeRows, openRows);
    NextUserIDIsFresh(closeRows, openRows);
    FreshUserRows(closeRows, openRows, s, MaxOrZero(ids) + 1, v);
  }

  lemma FreshUserRows(closeRows: seq<CloseAnswerRow>, openRows: seq<OpenAnswerRow>, s: NewSubmission, u: int, v: int)
    requires forall r :: r in closeRows ==> r.userID < u
    requires forall r :: r in openRows ==> r.userID < u
    ensures CloseRowsOfUser(closeRows + CloseRowsOf(u, s), u) == CloseRowsOf(u, s)
    ensures OpenRowsOfUser(openRows + OpenRowsOf(u, s), u) == OpenRowsOf(u, s)
    ensures v != u ==> CloseRowsOfUser(closeRows + CloseRowsOf(u, s), v) == CloseRowsOfUser(closeRows, v)
    ensures v != u ==> OpenRowsOfUser(openRows + OpenRowsOf(u, s), v) == OpenRowsOfUser(openRows, v)
  {
    RowsCarryUser(u, s);
    CloseRowsOfFreshUser(closeRows, CloseRowsOf(u, s), u, v);
    OpenRowsOfFreshUser(openRows, OpenRowsOf(u, s), u, v);
  }

  /** Every row a submission writes carries the respondent identifier it was given. */
  lemma RowsCarryUser(u: int, s: NewSubmission)
    ensures forall r :: r in CloseRowsOf(u, s) ==> r.userID == u
    ensures forall r :: r in OpenRowsOf(u, s) ==> r.userID == u
  {
    var closeAdded, openAdded := CloseRowsOf(u, s), OpenRowsOf(u, s);
    forall r | r in closeAdded ensures r.userID == u {
      var i :| 0 <= i < |closeAdded| && closeAdded[i] == r;
    }
    forall r | r in openAdded ensures r.userID == u {
      var i :| 0 <= i < |openAdded| && openAdded[i] == r;
    }
  }

  lemma CloseRowsOfFreshUser(prior: seq<CloseAnswerRow>, added: seq<CloseAnswerRow>, u: int, v: int)
    requires forall r :: r in prior ==> r.userID < u
    requires forall r :: r in added ==> r.userID == u
    ensures CloseRowsOfUser(prior + added, u) == added
    ensures v != u ==> CloseRowsOfUser(prior + added, v) == CloseRowsOfUser(prior, v)
  {
    CloseRowsOfUserAppend(prior, added, u);
    CloseRowsOfUserAppend(prior, added, v);
    NoCloseRowsOfUser(prior, u);
    CloseRowsOfOneUser(added, u, v);
  }

  lemma OpenRowsOfFreshUser(prior: seq<OpenAnswerRow>, added: seq<OpenAnswerRow>, u: int, v: int)
    requires forall r :: r in prior ==> r.userID < u
    requires forall r :: r in added ==> r.userID == u
    ensures OpenRowsOfUser(prior + added, u) == added
    ensures v != u ==> OpenRowsOfUser(prior + added, v) == OpenRowsOfUser(prior, v)
  {
    OpenRowsOfUserAppend(prior, added, u);
    OpenRowsOfUserAppend(prior, added, v);
    NoOpenRowsOfUser(prior, u);
    OpenRowsOfOneUser(added, u, v);
  }

  // ---------------------------------------------------------------------
  // The submission counter
  // ---------------------------------------------------------------------

  function TotalSubmissions(surveys: seq<SurveyRow>): int
  {
    if surveys == [] then 0 else surveys[0].nSubmissions + TotalSubmissions(surveys[1..])
  }

  predicate HasSurvey(surveys: seq<SurveyRow>, id: int)
  {
    exists i :: 0 <= i < |surveys| && surveys[i].id == id
  }

  /**
   * With distinct survey identifiers, recording a submission raises the
   * total count by exactly one when the survey exists and leaves it alone
   * otherwise; every other survey keeps its row.
   */
  lemma {:induction false} CountSubmissionAddsOne(surveys: seq<SurveyRow>, id: int)
    requires forall i, j :: 0 <= i < j < |surveys| ==> surveys[i].id != surveys[j].id
    ensures TotalSubmissions(CountSubmission(surveys, id)) == TotalSubmissions(surveys) + (if HasSurvey(surveys, id) then 1 else 0)
    ensures forall i :: 0 <= i < |surveys| && surveys[i].id != id ==> CountSubmission(surveys, id)[i] == surveys[i]
  {
    if surveys != [] {
      var tail := surveys[1..];
      CountSubmissionAddsOne(tail, id);
      assert CountSubmission(surveys, id)[1..] == CountSubmission(tail, id);
      if surveys[0].id == id {
        assert !HasSurvey(tail, id);
      } else {
        assert HasSurvey(surveys, id) <==> HasSurvey(tail, id) by {
          if HasSurvey(surveys, id) {
            var i :| 0 <= i < |surveys| && surveys[i].id == id;
            assert tail[i - 1].id == id;
          }
          if HasSurvey(tail, id) {
            var i :| 0 <= i < |tail| && tail[i].id == id;
            assert surveys[i + 1].id == id;
          }
        }
      }
    }
  }

  // ---------------------------------------------------------------------
  // A created survey reads back as it was authored
  // ---------------------------------------------------------------------

  /** The option texts `createSurvey` stores for a question: none for an open question. */
  function StoredOptions(q: DraftQuestion): seq<string>
  {
    if IsChoiceQuestion(q.max) then q.content else []
  }

  /** The option texts of a list of choices. */
  function Texts(cs: seq<Choice>): (ts: seq<string>)
    ensures |ts| == |cs|
  {
    if cs == [] then [] else [cs[0].text] + Texts(cs[1..])
  }

  /**
   * When the authored questions carry positions 0, 1, 2, ... (as publishing
   * sets them) and no earlier question row belongs to the new survey,
   * `getQuestionsBySurveyID` returns the questions in authored order with
   * their titles, `min` and `max`, under the identifiers `createSurvey` gave them.
   */
  lemma CreatedQuestionsReadBack(rows: seq<QuestionRow>, qs: seq<DraftQuestion>, surveyID: int, firstID: int)
    requires forall r :: r in rows ==> r.survey != surveyID
    requires forall i :: 0 <= i < |qs| ==> qs[i].position == i
    ensures SortByPosition(QuestionsOfSurvey(rows + QuestionRowsOf(qs, surveyID, firstID), surveyID))
      == seq(|qs|, i requires 0 <= i < |qs| =>
           QuestionView(firstID + i, qs[i].titleQuestion, qs[i].min, qs[i].max, i, []))
  {
    var target := seq(|qs|, i requires 0 <= i < |qs| =>
      QuestionView(firstID + i, qs[i].titleQuestion, qs[i].min, qs[i].max, i, []));
    CreatedQuestionsSelected(rows, qs, surveyID, firstID);
    assert SortedByPosition(target) by {
      forall i, j | 0 <= i < j < |target| ensures target[i].position <= target[j].position { }
    }
    SortSortedIsIdentity(target);
  }

  /** The first half of the read-back: the `WHERE` clause selects exactly the new rows, in order. */
  lemma CreatedQuestionsSelected(rows: seq<QuestionRow>, qs: seq<DraftQuestion>, surveyID: int, firstID: int)
    requires forall r :: r in rows ==> r.survey != surveyID
    requires forall i :: 0 <= i < |qs| ==> qs[i].position == i
    ensures QuestionsOfSurvey(rows + QuestionRowsOf(qs, surveyID, firstID), surveyID)
      == seq(|qs|, i requires 0 <= i < |qs| =>
           QuestionView(firstID + i, qs[i].titleQuestion, qs[i].min, qs[i].max, i, []))
  {
    var created := QuestionRowsOf(qs, surveyID, firstID);
    QuestionsOfSurveyAppend(rows, created, surveyID);
    NoQuestionsOfSurvey(rows, surveyID);
    CreatedViews(qs, surveyID, firstID);
  }

  /** The new question rows, all of one survey, are selected in order, as views numbered by position. */
  lemma CreatedViews(qs: seq<DraftQuestion>, surveyID: int, firstID: int)
    requires forall i :: 0 <= i < |qs| ==> qs[i].position == i
    ensures QuestionsOfSurvey(QuestionRowsOf(qs, surveyID, firstID), surveyID)
      == seq(|qs|, i requires 0 <= i < |qs| =>
           QuestionView(firstID + i, qs[i].titleQuestion, qs[i].min, qs[i].max, i, []))
  {
    var created := QuestionRowsOf(qs, surveyID, firstID);
    assert forall i :: 0 <= i < |created| ==> created[i].survey == surveyID;
    QuestionsOfOneSurvey(created, surveyID);
    assert |created| == |qs|;
  }

  lemma {:induction false} QuestionsOfSurveyAppend(a: seq<QuestionRow>, b: seq<QuestionRow>, surveyID: int)
    ensures QuestionsOfSurvey(a + b, surveyID) == QuestionsOfSurvey(a, surveyID) + QuestionsOfSurvey(b, surveyID)
  {
    if a != [] {
      assert (a + b)[0] == a[0] && (a + b)[1..] == a[1..] + b;
      QuestionsOfSurveyAppend(a[1..], b, surveyID);
    } else {
      assert a + b == b;
    }
  }

  lemma {:induction false} NoQuestionsOfSurvey(rows: seq<QuestionRow>, surveyID: int)
    requires forall r :: r in rows ==> r.survey != surveyID
    ensures QuestionsOfSurvey(rows, surveyID) == []
  {
    if rows != [] {
      assert rows[0] in rows;
      NoQuestionsOfSurvey(rows[1..], surveyID);
    }
  }

  lemma {:induction false} QuestionsOfOneSurvey(rows: seq<QuestionRow>, surveyID: int)
    requires forall i :: 0 <= i < |rows| ==> rows[i].survey == surveyID
    ensures QuestionsOfSurvey(rows, surveyID) == seq(|rows|, i requires 0 <= i < |rows| => ViewOf(rows[i]))
  {
    if rows != [] {
      QuestionsOfOneSurvey(rows[1..], surveyID);
    }
  }

  /**
   * Every question `k` created by `createSurvey` reads back, through
   * `getChoicesByQuestionID`, exactly its authored option texts when it is
   * a choice question and no choices at all when it is open, provided no
   * earlier choice row refers to the new question identifiers.
   */
  lemma {:induction false} CreatedChoicesReadBack(
    rows: seq<ChoiceRow>, qs: seq<DraftQuestion>, firstQuestionID: int, firstChoiceID: int, k: int)
    requires forall r :: r in rows ==> r.question < firstQuestionID
    requires 0 <= k < |qs|
    ensures Texts(ChoicesOf(rows + ChoiceRowsOf(qs, firstQuestionID, firstChoiceID), firstQuestionID + k))
      == StoredOptions(qs[k])
  {
    var qid := firstQuestionID + k;
    var created := ChoiceRowsOf(qs, firstQuestionID, firstChoiceID);
    OlderRowsSkipped(rows, created, firstQuestionID, qid);
    ChoicesOfCreated(qs, firstQuestionID, firstChoiceID, k);
    var mine, own := ChoicesOf(rows + created, qid), ChoicesOf(created, qid);
    assert mine == own;
  }

  /** Rows that refer to older questions add no choice to a new question. */
  lemma OlderRowsSkipped(rows: seq<ChoiceRow>, created: seq<ChoiceRow>, firstQuestionID: int, qid: int)
    requires forall r :: r in rows ==> r.question < firstQuestionID
    requires firstQuestionID <= qid
    ensures ChoicesOf(rows + created, qid) == ChoicesOf(created, qid)
  {
    assert RefersBelow(rows, qid);
    NoChoicesOf(rows, qid);
    ChoicesOfDropPrefix(rows + created, rows, created, qid);
  }

  lemma {:induction false} ChoicesOfCreated(qs: seq<DraftQuestion>, firstQuestionID: int, firstChoiceID: int, k: int)
    requires 0 <= k < |qs|
    ensures Texts(ChoicesOf(ChoiceRowsOf(qs, firstQuestionID, firstChoiceID), firstQuestionID + k))
      == StoredOptions(qs[k])
  {
    var n, qid := |qs| - 1, firstQuestionID + k;
    var lastID, offset := firstQuestionID + n, firstChoiceID + OptionCount(qs[..n]);
    if k < n {
      var allRows := ChoiceRowsOf(qs, firstQuestionID, firstChoiceID);
      var prevRows := ChoiceRowsOf(qs[..n], firstQuestionID, firstChoiceID);
      ChoicesOfCreated(qs[..n], firstQuestionID, firstChoiceID, k);
      EarlierQuestionChoices(qs, firstQuestionID, firstChoiceID, lastID, offset, qid);
      var mine, before := ChoicesOf(allRows, qid), ChoicesOf(prevRows, qid);
      assert mine == before;
      assert qs[..n][k] == qs[k];
      assert Texts(before) == StoredOptions(qs[k]);
    } else {
      assert qid == lastID;
      LastQuestionChoices(qs, firstQuestionID, firstChoiceID, lastID, offset);
      assert qs[n] == qs[k];
    }
  }

  /** A question before the last one has the same choices with or without the last question's rows. */
  lemma EarlierQuestionChoices(
    qs: seq<DraftQuestion>, firstQuestionID: int, firstChoiceID: int, lastID: int, offset: int, qid: int)
    requires qs != []
    requires lastID == firstQuestionID + |qs| - 1 && offset == firstChoiceID + OptionCount(qs[..|qs| - 1])
    requires qid < lastID
    ensures ChoicesOf(ChoiceRowsOf(qs, firstQuestionID, firstChoiceID), qid)
      == ChoicesOf(ChoiceRowsOf(qs[..|qs| - 1], firstQuestionID, firstChoiceID), qid)
  {
    var all := ChoiceRowsOf(qs, firstQuestionID, firstChoiceID);
    var prev := ChoiceRowsOf(qs[..|qs| - 1], firstQuestionID, firstChoiceID);
    var block := ChoiceBlock(qs[|qs| - 1], lastID, offset);
    ChoiceRowsOfLast(qs, firstQuestionID, firstChoiceID, lastID, offset);
    EarlierQuestionSkipsBlock(qs[|qs| - 1], lastID, offset, qid);
    ChoicesOfDropEmpty(all, prev, block, qid);
  }

  /** The last question's choices are its own options. */
  lemma LastQuestionChoices(qs: seq<DraftQuestion>, firstQuestionID: int, firstChoiceID: int, lastID: int, offset: int)
    requires qs != []
    requires lastID == firstQuestionID + |qs| - 1 && offset == firstChoiceID + OptionCount(qs[..|qs| - 1])
    ensures Texts(ChoicesOf(ChoiceRowsOf(qs, firstQuestionID, firstChoiceID), lastID)) == StoredOptions(qs[|qs| - 1])
  {
    var all := ChoiceRowsOf(qs, firstQuestionID, firstChoiceID);
    var prev := ChoiceRowsOf(qs[..|qs| - 1], firstQuestionID, firstChoiceID);
    var block := ChoiceBlock(qs[|qs| - 1], lastID, offset);
    ChoiceRowsOfLast(qs, firstQuestionID, firstChoiceID, lastID, offset);
    LastQuestionSkipsPrefix(qs[..|qs| - 1], firstQuestionID, firstChoiceID, lastID);
    ChoicesOfDropPrefix(all, prev, block, lastID);
    BlockTexts(qs[|qs| - 1], lastID, offset);
  }

  /** The choice rows of a non-empty list of questions: those of all but the last, then the last one's block. */
  lemma ChoiceRowsOfLast(qs: seq<DraftQuestion>, firstQuestionID: int, firstChoiceID: int, lastID: int, offset: int)
    requires qs != []
    requires lastID == firstQuestionID + |qs| - 1 && offset == firstChoiceID + OptionCount(qs[..|qs| - 1])
    ensures ChoiceRowsOf(qs, firstQuestionID, firstChoiceID)
      == ChoiceRowsOf(qs[..|qs| - 1], firstQuestionID, firstChoiceID) + ChoiceBlock(qs[|qs| - 1], lastID, offset)
  {
  }

  /** Rows `all` made of `a` then `b`, where `b` has no choice of the question: its choices are those of `a`. */
  lemma ChoicesOfDropEmpty(all: seq<ChoiceRow>, a: seq<ChoiceRow>, b: seq<ChoiceRow>, questionID: int)
    requires all == a + b
    requires ChoicesOf(b, questionID) == []
    ensures ChoicesOf(all, questionID) == ChoicesOf(a, questionID)
  {
    ChoicesOfAppend(a, b, questionID);
    assert ChoicesOf(a, questionID) + [] == ChoicesOf(a, questionID);
  }

  /** Rows `all` made of `a` then `b`, where `a` has no choice of the question: its choices are those of `b`. */
  lemma ChoicesOfDropPrefix(all: seq<ChoiceRow>, a: seq<ChoiceRow>, b: seq<ChoiceRow>, questionID: int)
    requires all == a + b
    requires ChoicesOf(a, questionID) == []
    ensures ChoicesOf(all, questionID) == ChoicesOf(b, questionID)
  {
    ChoicesOfAppend(a, b, questionID);
    assert [] + ChoicesOf(b, questionID) == ChoicesOf(b, questionID);
  }

  lemma EarlierQuestionSkipsBlock(q: DraftQuestion, questionID: int, firstID: int, other: int)
    requires other != questionID
    ensures ChoicesOf(ChoiceBlock(q, questionID, firstID), other) == []
  {
    ChoiceBlockQuestions(q, questionID, firstID);
    NoChoicesOfBlock(ChoiceBlock(q, questionID, firstID), questionID, other);
  }

  lemma LastQuestionSkipsPrefix(qs: seq<DraftQuestion>, firstQuestionID: int, firstChoiceID: int, qid: int)
    requires qid == firstQuestionID + |qs|
    ensures ChoicesOf(ChoiceRowsOf(qs, firstQuestionID, firstChoiceID), qid) == []
  {
    var rows := ChoiceRowsOf(qs, firstQuestionID, firstChoiceID);
    ChoiceRowsQuestions(qs, firstQuestionID, firstChoiceID);
    NoChoicesOf(rows, qid);
  }

  /** Every choice row created for the first `|qs|` questions refers to one of them. */
  lemma {:induction false} ChoiceRowsQuestions(qs: seq<DraftQuestion>, firstQuestionID: int, firstChoiceID: int)
    ensures RefersBelow(ChoiceRowsOf(qs, firstQuestionID, firstChoiceID), firstQuestionID + |qs|)
  {
    if qs != [] {
      var n := |qs| - 1;
      ChoiceRowsQuestions(qs[..n], firstQuestionID, firstChoiceID);
      var prev := ChoiceRowsOf(qs[..n], firstQuestionID, firstChoiceID);
      var lastID, offset := firstQuestionID + n, firstChoiceID + OptionCount(qs[..n]);
      var block := ChoiceBlock(qs[n], lastID, offset);
      ChoiceBlockQuestions(qs[n], lastID, offset);
      ChoiceRowsOfLast(qs, firstQuestionID, firstChoiceID, lastID, offset);
      RefersBelowAppend(prev, block, lastID);
    }
  }

  /** Every row refers to a question below `bound`. */
  ghost predicate RefersBelow(rows: seq<ChoiceRow>, bound: int)
  {
    forall r :: r in rows ==> r.question < bound
  }

  /** Every row refers to question `questionID`. */
  ghost predicate RefersTo(rows: seq<ChoiceRow>, questionID: int)
  {
    forall r :: r in rows ==> r.question == questionID
  }

  lemma RefersBelowAppend(prev: seq<ChoiceRow>, block: seq<ChoiceRow>, questionID: int)
    requires RefersBelow(prev, questionID) && RefersTo(block, questionID)
    ensures RefersBelow(prev + block, questionID + 1)
  {
    forall r | r in prev + block
      ensures r.question < questionID + 1
    {
      if r in prev {
        assert r.question < questionID;
      } else {
        assert r in block;
      }
    }
  }

  lemma ChoiceBlockQuestions(q: DraftQuestion, questionID: int, firstID: int)
    ensures RefersTo(ChoiceBlock(q, questionID, firstID), questionID)
  {
  }

  lemma {:induction false} NoChoicesOfBlock(rows: seq<ChoiceRow>, questionID: int, other: int)
    requires RefersTo(rows, questionID)
    requires other != questionID
    ensures ChoicesOf(rows, other) == []
  {
    if rows != [] {
      assert rows[0] in rows;
      NoChoicesOfBlock(rows[1..], questionID, other);
    }
  }

  lemma {:induction false} BlockTexts(q: DraftQuestion, questionID: int, firstID: int)
    ensures Texts(ChoicesOf(ChoiceBlock(q, questionID, firstID), questionID))
      == StoredOptions(q)
  {
    var block := ChoiceBlock(q, questionID, firstID);
    OwnChoicesTexts(block, questionID);
    if IsChoiceQuestion(q.max) {
      assert block == seq(|q.content|, j requires 0 <= j < |q.content| => ChoiceRow(firstID + j, questionID, q.content[j]));
      assert seq(|block|, i requires 0 <= i < |block| => block[i].text) == q.content;
    } else {
      assert block == [];
    }
  }

  lemma {:induction false} OwnChoicesTexts(rows: seq<ChoiceRow>, questionID: int)
    requires forall i :: 0 <= i < |rows| ==> rows[i].question == questionID
    ensures Texts(ChoicesOf(rows, questionID)) == seq(|rows|, i requires 0 <= i < |rows| => rows[i].text)
  {
    if rows != [] {
      OwnChoicesTexts(rows[1..], questionID);
    }
  }

  lemma {:induction false} ChoicesOfAppend(a: seq<ChoiceRow>, b: seq<ChoiceRow>, questionID: int)
    ensures ChoicesOf(a + b, questionID) == ChoicesOf(a, questionID) + ChoicesOf(b, questionID)
  {
    if a != [] {
      assert (a + b)[0] == a[0] && (a + b)[1..] == a[1..] + b;
      ChoicesOfAppend(a[1..], b, questionID);
    } else {
      assert a + b == b;
    }
  }

  lemma {:induction false} NoChoicesOf(rows: seq<ChoiceRow>, questionID: int)
    requires RefersBelow(rows, questionID)
    ensures ChoicesOf(rows, questionID) == []
  {
    if rows != [] {
      assert rows[0] in rows;
      NoChoicesOf(rows[1..], questionID);
    }
  }
}
