/**
 * How the client's requests meet the server: the bodies the respondent's
 * form and the authoring form send pass the server's validation and are
 * recorded as they were built, and a published survey reads back from the
 * store in the order it was authored.
 *
 * JSON numbers the client sends are integer numbers on the server side.
 */
module EndToEnd {
  import opened SurveyData
  import Server
  import SurveyDao
  import Submission
  import CreationSurvey

  /** The body `addSubmission` sends for the form's state. */
  function SubmissionBodyOf(surveyID: int, name: string, openAnswers: seq<OpenAnswer>, closeAnswers: seq<CloseAnswer>)
    : Server.SubmissionBody
  {
    Server.SubmissionBody(
      Server.IntNumber(surveyID), name, openAnswers,
      seq(|closeAnswers|, i requires 0 <= i < |closeAnswers| =>
        Server.CloseAnswerBody(
          Server.IntNumber(closeAnswers[i].questionID),
          Server.IntNumber(closeAnswers[i].choiceID),
          Server.IntNumber(closeAnswers[i].value))))
  }

  /**
   * A respondent's answers, with a name of 1 to 100 characters and open
   * texts of at most 200, pass the server's checks and are recorded
   * exactly as the form held them.
   */
  lemma FormSubmissionAccepted(
    surveyID: int, name: string, openAnswers: seq<OpenAnswer>, closeAnswers: seq<CloseAnswer>)
    requires 1 <= |name| <= 100
    requires forall i :: 0 <= i < |openAnswers| ==> |openAnswers[i].text| <= 200
    requires Submission.AllBits(closeAnswers)
    ensures Server.ValidSubmission(SubmissionBodyOf(surveyID, name, openAnswers, closeAnswers))
    ensures Server.DecodeSubmission(SubmissionBodyOf(surveyID, name, openAnswers, closeAnswers))
      == SurveyDao.NewSubmission(surveyID, name, openAnswers, closeAnswers)
  {
    var body := SubmissionBodyOf(surveyID, name, openAnswers, closeAnswers);
    assert Server.ValidSubmission(body);
    var s := Server.DecodeSubmission(body);
    assert s.closeAnswers == closeAnswers;
  }

  /** A name longer than 100 characters, which the form does not prevent, is refused. */
  lemma LongNameRefused(surveyID: int, name: string, openAnswers: seq<OpenAnswer>, closeAnswers: seq<CloseAnswer>)
    requires |name| > 100
    ensures !Server.ValidSubmission(SubmissionBodyOf(surveyID, name, openAnswers, closeAnswers))
  {
  }

  /** The body `addSurvey` sends for the authoring form's state. */
  function SurveyBodyOf(title: string, description: string, qs: seq<DraftQuestion>): Server.SurveyBody
  {
    Server.SurveyBody(title, description,
      seq(|qs|, i requires 0 <= i < |qs| =>
        Server.QuestionBody(Server.IntNumber(qs[i].id), qs[i].titleQuestion, qs[i].content, qs[i].min, qs[i].max, qs[i].position)))
  }

  /**
   * A published survey with a title, titled questions, `min >= 0` and
   * `0 <= max <= 10` passes the server's checks and is created exactly as
   * the authoring form held it.
   */
  lemma PublishedSurveyAccepted(title: string, description: string, qs: seq<DraftQuestion>)
    requires |title| >= 1
    requires forall i :: 0 <= i < |qs| ==>
      |qs[i].titleQuestion| != 0 && qs[i].min >= 0 && 0 <= qs[i].max <= 10
    ensures Server.ValidSurvey(SurveyBodyOf(title, description, CreationSurvey.WithPositions(qs)))
    ensures Server.DecodeSurvey(SurveyBodyOf(title, description, CreationSurvey.WithPositions(qs)))
      == SurveyDao.NewSurvey(title, description, CreationSurvey.WithPositions(qs))
  {
    var p := CreationSurvey.WithPositions(qs);
    var body := SurveyBodyOf(title, description, p);
    assert forall i :: 0 <= i < |p| ==> p[i].(position := qs[i].position) == qs[i];
    assert Server.ValidSurvey(body);
    assert Server.DecodeSurvey(body).questions == p;
  }

  /**
   * After publication and creation, the new survey's questions read back
   * through `getQuestionsBySurveyID` in the authored order, numbered
   * 0, 1, 2, ..., with their titles, `min` and `max`.
   */
  lemma PublishedSurveyReadsBack(rows: seq<SurveyDao.QuestionRow>, qs: seq<DraftQuestion>, surveyID: int, firstID: int)
    requires forall r :: r in rows ==> r.survey != surveyID
    ensures var p := CreationSurvey.WithPositions(qs);
      SortByPosition(SurveyDao.QuestionsOfSurvey(rows + SurveyDao.QuestionRowsOf(p, surveyID, firstID), surveyID))
        == seq(|qs|, i requires 0 <= i < |qs| =>
             QuestionView(firstID + i, qs[i].titleQuestion, qs[i].min, qs[i].max, i, []))
  {
    var p := CreationSurvey.WithPositions(qs);
    SurveyDao.CreatedQuestionsReadBack(rows, p, surveyID, firstID);
  }
}
