/**
 * The survey server's route handlers for surveys and submissions: the
 * validators that decide whether a request body is acceptable (422
 * otherwise), the login gate of the protected routes (401), and the
 * loops that assemble the answers of `GET /api/surveys/:id` and
 * `GET /api/surveys/:id/submissions`.
 *
 * HTTP status codes are returned as plain integers. Whether the session
 * is authenticated, and the logged-in administrator's identifier, are
 * parameters of the handlers.
 */
module Server {
  import opened SurveyData
  import opened SurveyDao

  /**
   * A JSON scalar as the validators see it. `IntNumber` is a JSON number
   * with an integral value, `IntText` a string of decimal digits (which
   * `isInt` accepts but `Number.isInteger` does not), and `NotInteger`
   * anything else (a fraction, other text, a missing field).
   */
  datatype Scalar = IntNumber(n: int) | IntText(n: int) | NotInteger

  /** The `isInt()` check of express-validator: an integer number or integer text. */
  predicate IsInt(s: Scalar) { s.IntNumber? || s.IntText? }

  /** JavaScript's `Number.isInteger`: only a number with an integral value. */
  predicate NumberIsInteger(s: Scalar) { s.IntNumber? }

  /** One element of `closeAnswers` in a submission body. */
  datatype CloseAnswerBody = CloseAnswerBody(questionID: Scalar, choiceID: Scalar, value: Scalar)

  /** The body of `POST /api/surveys/:id/submissions`. */
  datatype SubmissionBody = SubmissionBody(
    surveyID: Scalar,
    name: string,
    openAnswers: seq<OpenAnswer>,
    closeAnswers: seq<CloseAnswerBody>)

  /** One element of `questions` in a survey body. */
  datatype QuestionBody = QuestionBody(
    id: Scalar,
    titleQuestion: string,
    content: seq<string>,
    min: int,
    max: int,
    position: int)

  /** The body of `POST /api/surveys`. */
  datatype SurveyBody = SurveyBody(title: string, description: string, questions: seq<QuestionBody>)

  const Ok := 200
  const Created := 201
  const Unauthorized := 401
  const Unprocessable := 422

  // ---------------------------------------------------------------------
  // Validation of a submission body
  // ---------------------------------------------------------------------

  /** A close answer is acceptable when its three fields are integer numbers and `value` is 0 or 1. */
  predicate CloseAnswerOk(a: CloseAnswerBody)
  {
    && NumberIsInteger(a.questionID) && NumberIsInteger(a.choiceID) && NumberIsInteger(a.value)
    && 0 <= a.value.n <= 1
  }

  /** An open answer is acceptable when its text has at most 200 characters. */
  predicate OpenAnswerOk(a: OpenAnswer)
  {
    |a.text| <= 200
  }

  /** Every check of `POST /api/surveys/:id/submissions` passes. */
  predicate ValidSubmission(b: SubmissionBody)
  {
    && IsInt(b.surveyID)
    && 1 <= |b.name| <= 100
    && (forall i :: 0 <= i < |b.closeAnswers| ==> CloseAnswerOk(b.closeAnswers[i]))
    && (forall i :: 0 <= i < |b.openAnswers| ==> OpenAnswerOk(b.openAnswers[i]))
  }

  /** The custom validator of `closeAnswers`: stops at the first unacceptable answer. */
  method CheckCloseAnswers(value: seq<CloseAnswerBody>) returns (ok: bool)
    ensures ok <==> forall i :: 0 <= i < |value| ==> CloseAnswerOk(value[i])
  {
    for i := 0 to |value|
      invariant forall k :: 0 <= k < i ==> CloseAnswerOk(value[k])
    {
      var question := value[i];
      if !question.questionID.IntNumber? || !question.choiceID.IntNumber? || !question.value.IntNumber?
        || question.value.n < 0 || question.value.n > 1
      {
        return false;
      }
    }
    return true;
  }

  /** The custom validator of `openAnswers`: stops at the first text longer than 200. */
  method CheckOpenAnswers(value: seq<OpenAnswer>) returns (ok: bool)
    ensures ok <==> forall i :: 0 <= i < |value| ==> OpenAnswerOk(value[i])
  {
    for i := 0 to |value|
      invariant forall k :: 0 <= k < i ==> OpenAnswerOk(value[k])
    {
      if |value[i].text| > 200 {
        return false;
      }
    }
    return true;
  }

  /** All four checks of the submission route; the request is rejected when any fails. */
  method ValidateSubmission(b: SubmissionBody) returns (ok: bool)
    ensures ok <==> ValidSubmission(b)
  {
    var closeOk := CheckCloseAnswers(b.closeAnswers);
    var openOk := CheckOpenAnswers(b.openAnswers);
    ok := IsInt(b.surveyID) && 1 <= |b.name| <= 100 && closeOk && openOk;
  }

  /** The submission the store records for an accepted body. */
  function DecodeSubmission(b: SubmissionBody): (s: NewSubmission)
    requires ValidSubmission(b)
    ensures s.surveyID == b.surveyID.n && s.name == b.name && s.openAnswers == b.openAnswers
    ensures |s.closeAnswers| == |b.closeAnswers|
    ensures forall i :: 0 <= i < |s.closeAnswers| ==>
      && s.closeAnswers[i].questionID == b.closeAnswers[i].questionID.n
      && s.closeAnswers[i].choiceID == b.closeAnswers[i].choiceID.n
      && s.closeAnswers[i].value == b.closeAnswers[i].value.n
      && s.closeAnswers[i].value in {0, 1}
  {
    NewSubmission(
      b.surveyID.n, b.name, b.openAnswers,
      seq(|b.closeAnswers|, i requires 0 <= i < |b.closeAnswers| =>
        CloseAnswer(b.closeAnswers[i].questionID.n, b.closeAnswers[i].choiceID.n, b.closeAnswers[i].value.n)))
  }

  // ---------------------------------------------------------------------
  // Validation of a survey body
  // ---------------------------------------------------------------------

  /**
   * A question is acceptable when `max <= 10`, `min >= 0`, `max >= 0`,
   * its `id` is an integer number and its title is not empty. Nothing
   * relates `min` to `max`.
   */
  predicate QuestionOk(q: QuestionBody)
  {
    q.max <= 10 && q.min >= 0 && q.max >= 0 && NumberIsInteger(q.id) && |q.titleQuestion| != 0
  }

  /** Every check of `POST /api/surveys` passes. */
  predicate ValidSurvey(b: SurveyBody)
  {
    |b.title| >= 1 && forall i :: 0 <= i < |b.questions| ==> QuestionOk(b.questions[i])
  }

  /** The custom validator of `questions`: stops at the first unacceptable question. */
  method CheckQuestions(value: seq<QuestionBody>) returns (ok: bool)
    ensures ok <==> forall i :: 0 <= i < |value| ==> QuestionOk(value[i])
  {
    for i := 0 to |value|
      invariant forall k :: 0 <= k < i ==> QuestionOk(value[k])
    {
      var question := value[i];
      if question.max > 10 || question.min < 0 || question.max < 0 || !question.id.IntNumber?
        || |question.titleQuestion| == 0
      {
        return false;
      }
    }
    return true;
  }

  /** Both checks of the survey route. */
  method ValidateSurvey(b: SurveyBody) returns (ok: bool)
    ensures ok <==> ValidSurvey(b)
  {
    var questionsOk := CheckQuestions(b.questions);
    ok := |b.title| >= 1 && questionsOk;
  }

  /** The survey the store creates for an accepted body. */
  function DecodeSurvey(b: SurveyBody): (s: NewSurvey)
    requires ValidSurvey(b)
    ensures s.title == b.title && s.description == b.description
    ensures |s.questions| == |b.questions|
    ensures forall i :: 0 <= i < |s.questions| ==>
      && s.questions[i].titleQuestion == b.questions[i].titleQuestion != []
      && s.questions[i].content == b.questions[i].content
      && s.questions[i].position == b.questions[i].position
      && s.questions[i].id == b.questions[i].id.n
      && s.questions[i].min == b.questions[i].min && s.questions[i].max == b.questions[i].max
      && 0 <= s.questions[i].min && 0 <= s.questions[i].max <= 10
  {
    NewSurvey(b.title, b.description,
      seq(|b.questions|, i requires 0 <= i < |b.questions| =>
        var q := b.questions[i];
        DraftQuestion(q.id.n, q.titleQuestion, q.content, q.min, q.max, q.position)))
  }

  // ---------------------------------------------------------------------
  // Handlers that write
  // ---------------------------------------------------------------------

  /**
   * `POST /api/surveys/:id/submissions` (no login needed): 422 and no
   * store access when validation fails; otherwise the submission is
   * recorded under `getMaxUserID() + 1` and the answer is 201.
   */
  method PostSubmission(store: Store, body: SubmissionBody) returns (status: int)
    requires store.Valid()
    modifies store
    ensures store.Valid()
    ensures status == Unprocessable <==> !ValidSubmission(body)
    ensures status == Created <==> ValidSubmission(body)
    ensures !ValidSubmission(body) ==> unchanged(store)
    ensures ValidSubmission(body) ==>
      var s := DecodeSubmission(body);
      var u := old(store.MaxUserID()) + 1;
      && store.closeAnswers == old(store.closeAnswers) + CloseRowsOf(u, s)
      && store.openAnswers == old(store.openAnswers) + OpenRowsOf(u, s)
      && store.surveys == CountSubmission(old(store.surveys), s.surveyID)
      && store.questions == old(store.questions) && store.choices == old(store.choices)
  {
    var ok := ValidateSubmission(body);
    if !ok {
      return Unprocessable;
    }
    var lastUserID := store.MaxUserID();
    store.AddSubmission(lastUserID, DecodeSubmission(body));
    return Created;
  }

  /**
   * `POST /api/surveys`: 401 without a session; 422 and no store access
   * when validation fails; otherwise the survey is created for the
   * logged-in administrator and its new identifier is returned with 201.
   */
  method PostSurvey(store: Store, body: SurveyBody, authenticated: bool, userID: int)
    returns (status: int, surveyID: int)
    requires store.Valid()
    modifies store
    ensures store.Valid()
    ensures status == Unauthorized <==> !authenticated
    ensures status == Unprocessable <==> authenticated && !ValidSurvey(body)
    ensures status == Created <==> authenticated && ValidSurvey(body)
    ensures status != Created ==> unchanged(store)
    ensures status == Created ==>
      var s := DecodeSurvey(body);
      && surveyID == old(store.nextSurveyID)
      && store.surveys == old(store.surveys) + [SurveyRow(surveyID, s.title, s.description, userID, 0)]
      && store.questions == old(store.questions) + QuestionRowsOf(s.questions, surveyID, old(store.nextQuestionID))
      && store.choices == old(store.choices) + ChoiceRowsOf(s.questions, old(store.nextQuestionID), old(store.nextChoiceID))
      && store.closeAnswers == old(store.closeAnswers) && store.openAnswers == old(store.openAnswers)
  {
    surveyID := 0;
    if !authenticated {
      return Unauthorized, surveyID;
    }
    var ok := ValidateSurvey(body);
    if !ok {
      return Unprocessable, surveyID;
    }
    surveyID := store.CreateSurvey(DecodeSurvey(body), userID);
    status := Created;
  }

  // ---------------------------------------------------------------------
  // Handlers that read
  // ---------------------------------------------------------------------

  /** A question as `GET /api/surveys/:id` sends it: choices attached only to a choice question. */
  function Attach(store: Store, q: QuestionView): (r: QuestionView)
    reads store
    ensures r.(content := q.content) == q
    ensures !IsChoiceQuestion(q.max) ==> r == q
    ensures IsChoiceQuestion(q.max) ==> forall c :: c in r.content <==>
      exists ch :: ch in store.choices && ch.question == q.questionID && c == Choice(ch.id, ch.text, ch.question)
    ensures IsChoiceQuestion(q.max) ==>
      |r.content| == CountWhere(store.choices, (ch: ChoiceRow) => ch.question == q.questionID)
  {
    if IsChoiceQuestion(q.max) then store.ChoicesByQuestionID(q) else q
  }

  /** Every question of the list, each with its choices attached when it is a choice question. */
  function AttachAll(store: Store, qs: seq<QuestionView>): (r: seq<QuestionView>)
    reads store
  {
    seq(|qs|, i requires 0 <= i < |qs| reads store => Attach(store, qs[i]))
  }

  /**
   * `GET /api/surveys/:id`: 422 when `id` is not an integer; otherwise the
   * survey's questions, each exactly once, choice questions with their
   * choices attached. The server sends the questions in the order in which
   * the choice queries complete, so only the collection is stated.
   */
  method GetSurvey(store: Store, id: Scalar) returns (status: int, result: seq<QuestionView>)
    ensures status == Unprocessable <==> !IsInt(id)
    ensures status == Ok <==> IsInt(id)
    ensures !IsInt(id) ==> result == []
    ensures IsInt(id) ==> multiset(result) == multiset(AttachAll(store, store.QuestionsBySurveyID(id.n)))
  {
    result := [];
    if !IsInt(id) {
      return Unprocessable, result;
    }
    var questions := store.QuestionsBySurveyID(id.n);
    for i := 0 to |questions|
      invariant |result| == i
      invariant forall k :: 0 <= k < i ==> result[k] == Attach(store, questions[k])
    {
      if questions[i].max >= 1 {
        var question := store.ChoicesByQuestionID(questions[i]);
        result := result + [question];
      } else {
        result := result + [questions[i]];
      }
    }
    assert result == AttachAll(store, questions);
    status := Ok;
  }

  /**
   * `GET /api/surveys/:id/submissions`: 401 without a session, 422 when
   * `id` is not an integer; otherwise one entry per respondent of `users`
   * (the list of respondents of the survey), entry `i` carrying the close
   * and open answers fetched for `users[i].userID`. The two fetches are
   * `closeOf(userID, surveyID)` and `openOf(userID, surveyID)`.
   */
  method GetSubmissions(
    id: Scalar, authenticated: bool, users: seq<Respondent>,
    closeOf: (int, int) -> seq<CloseAnswerView>, openOf: (int, int) -> seq<OpenAnswerView>)
    returns (status: int, result: seq<RespondentAnswers>)
    ensures status == Unauthorized <==> !authenticated
    ensures status == Unprocessable <==> authenticated && !IsInt(id)
    ensures status == Ok <==> authenticated && IsInt(id)
    ensures status != Ok ==> result == []
    ensures status == Ok ==> |result| == |users|
    ensures status == Ok ==> forall i :: 0 <= i < |users| ==>
      && result[i].userID == users[i].userID && result[i].nameUser == users[i].nameUser
      && result[i].closeAnswers == closeOf(users[i].userID, id.n)
      && result[i].openAnswers == openOf(users[i].userID, id.n)
  {
    result := [];
    if !authenticated {
      return Unauthorized, result;
    }
    if !IsInt(id) {
      return Unprocessable, result;
    }
    for i := 0 to |users|
      invariant |result| == i
      invariant forall k :: 0 <= k < i ==>
        && result[k].userID == users[k].userID && result[k].nameUser == users[k].nameUser
        && result[k].closeAnswers == [] && result[k].openAnswers == []
    {
      result := result + [RespondentAnswers(users[i].userID, users[i].nameUser, [], [])];
    }
    for i := 0 to |users|
      invariant |result| == |users|
      invariant forall k :: 0 <= k < |users| ==>
        result[k].userID == users[k].userID && result[k].nameUser == users[k].nameUser
      invariant forall k :: 0 <= k < i ==>
        result[k].closeAnswers == closeOf(users[k].userID, id.n) && result[k].openAnswers == openOf(users[k].userID, id.n)
    {
      var closeAnswers := closeOf(result[i].userID, id.n);
      result := result[i := result[i].(closeAnswers := closeAnswers)];
      var openAnswers := openOf(result[i].userID, id.n);
      result := result[i := result[i].(openAnswers := openAnswers)];
    }
    status := Ok;
  }

  /** `GET /api/admins/:id/surveys`: 401 without a session, otherwise the surveys of administrator `admin`. */
  method GetAdminSurveys(store: Store, admin: int, authenticated: bool) returns (status: int, result: seq<AdminSurvey>)
    ensures status == Unauthorized <==> !authenticated
    ensures status == Ok <==> authenticated
    ensures !authenticated ==> result == []
    ensures authenticated ==> forall s :: s in result <==>
      exists row :: row in store.surveys && row.admin == admin && s == AdminSurvey(row.id, row.title, row.description, row.nSubmissions)
    ensures authenticated ==> |result| == CountWhere(store.surveys, (row: SurveyRow) => row.admin == admin)
  {
    if !authenticated {
      return Unauthorized, [];
    }
    return Ok, store.ListAdminSurveys(admin);
  }

  // ---------------------------------------------------------------------
  // Properties of the assembled survey
  // ---------------------------------------------------------------------

  /**
   * The survey `GET /api/surveys/:id` assembles holds every question of the
   * survey exactly as stored apart from `content`: an open question as it
   * is, a choice question with exactly the choices recorded for it.
   */
  lemma {:induction false} AssembledSurvey(store: Store, qs: seq<QuestionView>, result: seq<QuestionView>)
    requires multiset(result) == multiset(AttachAll(store, qs))
    ensures |result| == |qs|
    ensures forall q :: q in qs && !IsChoiceQuestion(q.max) ==> q in result
    ensures forall q :: q in qs && IsChoiceQuestion(q.max) ==> Attach(store, q) in result
    ensures forall r :: r in result ==> exists q :: q in qs && r == Attach(store, q)
  {
    var all := AttachAll(store, qs);
    assert |result| == |multiset(result)| == |multiset(all)| == |all|;
    forall q | q in qs ensures Attach(store, q) in result {
      var i :| 0 <= i < |qs| && qs[i] == q;
      assert all[i] in multiset(all);
    }
    forall r | r in result ensures exists q :: q in qs && r == Attach(store, q) {
      assert r in multiset(all);
      var i :| 0 <= i < |all| && all[i] == r;
      assert qs[i] in qs;
    }
  }

}
