/**
 * Shapes shared by the survey server and its client: the question and
 * answer records that travel between them, and the ordering of questions
 * by their `position` field (the server's `ORDER BY questions.position`
 * and the client's sort before rendering).
 *
 * A question's kind is the integer `max`: 0 for an open (free-text)
 * question, 1 or more for a choice question whose respondent selects
 * between `min` and `max` of its choices.
 */
module SurveyData {

  /** One choice of a choice question, as the server returns it, with the question it belongs to. */
  datatype Choice = Choice(choiceID: int, text: string, question: int)

  /** How many elements of `s` satisfy `p`: the size of `WHERE p` over a table. */
  function CountWhere<T>(s: seq<T>, p: T -> bool): nat
  {
    if s == [] then 0 else (if p(s[0]) then 1 else 0) + CountWhere(s[1..], p)
  }

  /**
   * A question as `GET /api/surveys/:id` returns it. For an open question
   * (`max == 0`) the server attaches no choices and `content` stays empty.
   */
  datatype QuestionView = QuestionView(
    questionID: int,
    title: string,
    min: int,
    max: int,
    position: int,
    content: seq<Choice>)

  /** The answer to an open question: its text. */
  datatype OpenAnswer = OpenAnswer(questionID: int, text: string)

  /** One presented choice of a choice question: `value` is 1 when selected, 0 otherwise. */
  datatype CloseAnswer = CloseAnswer(questionID: int, choiceID: int, value: int)

  /**
   * A question as the survey author drafts it and as `POST /api/surveys`
   * carries it: `id` is a temporary client-side identifier and `content`
   * the texts of the options (empty for an open question).
   */
  datatype DraftQuestion = DraftQuestion(
    id: int,
    titleQuestion: string,
    content: seq<string>,
    min: int,
    max: int,
    position: int)

  /** A respondent of a survey, as the list of submitters gives it. */
  datatype Respondent = Respondent(userID: int, nameUser: string)

  /** One recorded choice of a respondent, joined with its question and choice. */
  datatype CloseAnswerView = CloseAnswerView(
    questionID: int,
    title: string,
    position: int,
    choiceID: int,
    value: int,
    text: string)

  /** One recorded open answer of a respondent, joined with its question. */
  datatype OpenAnswerView = OpenAnswerView(questionID: int, title: string, text: string, position: int)

  /** One entry of `GET /api/surveys/:id/submissions`: a respondent with all their answers. */
  datatype RespondentAnswers = RespondentAnswers(
    userID: int,
    nameUser: string,
    closeAnswers: seq<CloseAnswerView>,
    openAnswers: seq<OpenAnswerView>)

  /** The encoding of question kinds: `max >= 1` marks a choice question. */
  predicate IsChoiceQuestion(max: int) { max >= 1 }

  // ---------------------------------------------------------------------
  // Ordering by position
  // ---------------------------------------------------------------------

  predicate SortedByPosition(qs: seq<QuestionView>)
  {
    forall i, j :: 0 <= i < j < |qs| ==> qs[i].position <= qs[j].position
  }

  /** No two different questions of the list share a position. */
  predicate DistinctPositions(qs: seq<QuestionView>)
  {
    forall x, y :: x in qs && y in qs && x.position == y.position ==> x == y
  }

  /** Inserts `q` before the first element whose position is not smaller. */
  function InsertByPosition(q: QuestionView, sorted: seq<QuestionView>): (r: seq<QuestionView>)
    ensures multiset(r) == multiset(sorted) + multiset{q}
  {
    if sorted == [] then [q]
    else if q.position <= sorted[0].position then [q] + sorted
    else
      assert sorted == [sorted[0]] + sorted[1..];
      [sorted[0]] + InsertByPosition(q, sorted[1..])
  }

  /** Inserting keeps a lower bound that both the list and the new question respect. */
  lemma {:induction false} InsertKeepsLowerBound(q: QuestionView, s: seq<QuestionView>, bound: int)
    requires forall x :: x in s ==> bound <= x.position
    requires bound <= q.position
    ensures forall x :: x in InsertByPosition(q, s) ==> bound <= x.position
  {
    if s != [] && q.position > s[0].position {
      assert forall x :: x in s[1..] ==> x in s;
      InsertKeepsLowerBound(q, s[1..], bound);
    }
  }

  /** Inserting into a list ordered by position keeps it ordered. */
  lemma {:induction false} InsertKeepsSorted(q: QuestionView, s: seq<QuestionView>)
    requires SortedByPosition(s)
    ensures SortedByPosition(InsertByPosition(q, s))
  {
    if s == [] {
    } else if q.position <= s[0].position {
      forall x | x in s ensures q.position <= x.position {
        var k :| 0 <= k < |s| && s[k] == x;
      }
      ConsSorted(q, s);
    } else {
      TailOf(s);
      InsertKeepsSorted(q, s[1..]);
      forall x | x in s[1..] ensures s[0].position <= x.position {
        var k :| 0 <= k < |s[1..]| && s[1..][k] == x;
        assert s[k + 1] == x;
      }
      InsertKeepsLowerBound(q, s[1..], s[0].position);
      ConsSorted(s[0], InsertByPosition(q, s[1..]));
    }
  }

  lemma ConsSorted(a: QuestionView, s: seq<QuestionView>)
    requires SortedByPosition(s)
    requires forall x :: x in s ==> a.position <= x.position
    ensures SortedByPosition([a] + s)
  {
    forall i, j | 0 <= i < j < |[a] + s|
      ensures ([a] + s)[i].position <= ([a] + s)[j].position
    {
      if i > 0 {
        assert ([a] + s)[i] == s[i - 1] && ([a] + s)[j] == s[j - 1];
      } else {
        assert ([a] + s)[j] == s[j - 1] && s[j - 1] in s;
      }
    }
  }

  /**
   * The questions ordered by ascending position. Both the client's sort
   * and `ORDER BY` leave the order of questions that share a position to
   * the engine; this insertion sort is one such order, and what is claimed
   * about the order of the result holds for every sort only when positions
   * are distinct (`SortIsDeterminedByPositions`).
   */
  function SortByPosition(qs: seq<QuestionView>): (r: seq<QuestionView>)
    ensures SortedByPosition(r)
    ensures multiset(r) == multiset(qs)
    ensures |r| == |qs|
  {
    if qs == [] then []
    else
      assert qs == [qs[0]] + qs[1..];
      InsertKeepsSorted(qs[0], SortByPosition(qs[1..]));
      var r := InsertByPosition(qs[0], SortByPosition(qs[1..]));
      assert |r| == |multiset(r)|;
      r
  }

  /** A list already ordered by distinct positions is left as it is. */
  lemma {:induction false} SortSortedIsIdentity(qs: seq<QuestionView>)
    requires SortedByPosition(qs)
    requires DistinctPositions(qs)
    ensures SortByPosition(qs) == qs
  {
    if qs != [] {
      TailOf(qs);
      SortSortedIsIdentity(qs[1..]);
      assert SortByPosition(qs[1..]) == qs[1..];
      if |qs| > 1 {
        assert qs[0].position <= qs[1].position;
      }
    }
  }

  /**
   * When no two questions share a position, there is exactly one ordering
   * of them by position: every sorted permutation is the same list. A sort
   * whose comparator answers "greater" or "less" for every pair therefore
   * produces SortByPosition's result on such input.
   */
  lemma {:induction false} SortedPermutationUnique(a: seq<QuestionView>, b: seq<QuestionView>)
    requires SortedByPosition(a) && SortedByPosition(b)
    requires multiset(a) == multiset(b)
    requires DistinctPositions(a)
    ensures a == b
  {
    assert |b| == |multiset(b)| == |multiset(a)| == |a|;
    if a != [] {
      SameFirst(a, b);
      TailOf(a);
      TailOf(b);
      SortedPermutationUnique(a[1..], b[1..]);
    }
  }

  lemma TailOf(a: seq<QuestionView>)
    requires a != [] && SortedByPosition(a)
    ensures SortedByPosition(a[1..])
    ensures DistinctPositions(a) ==> DistinctPositions(a[1..])
    ensures multiset(a[1..]) == multiset(a) - multiset{a[0]}
  {
    assert a == [a[0]] + a[1..];
    if DistinctPositions(a) {
      forall x, y | x in a[1..] && y in a[1..] && x.position == y.position ensures x == y {
        assert x in a && y in a;
      }
    }
  }

  /** The first element of two sorted permutations with distinct positions is the same. */
  lemma SameFirst(a: seq<QuestionView>, b: seq<QuestionView>)
    requires SortedByPosition(a) && SortedByPosition(b)
    requires multiset(a) == multiset(b)
    requires DistinctPositions(a)
    requires a != [] && b != []
    ensures a[0] == b[0]
  {
    assert a[0] in multiset(b);
    var k :| 0 <= k < |b| && b[k] == a[0];
    assert b[0] in multiset(a);
    var m :| 0 <= m < |a| && a[m] == b[0];
    assert a[0].position <= a[m].position == b[0].position <= b[k].position;
  }

  /** Any sorted permutation of questions with distinct positions is SortByPosition's result. */
  lemma SortIsDeterminedByPositions(qs: seq<QuestionView>, r: seq<QuestionView>)
    requires DistinctPositions(qs)
    requires SortedByPosition(r) && multiset(r) == multiset(qs)
    ensures r == SortByPosition(qs)
  {
    var s := SortByPosition(qs);
    forall x, y | x in s && y in s && x.position == y.position ensures x == y {
      assert x in multiset(s) && y in multiset(s);
      assert x in qs && y in qs;
    }
    SortedPermutationUnique(s, r);
  }
}
