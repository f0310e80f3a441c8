/**
 * The administrator's view of the submissions of a survey: each
 * respondent's flat close-answer rows (one per presented choice) are
 * regrouped into one entry per question, the open answers are appended,
 * and a cursor steps through the respondents one at a time.
 */
module SubmissionsList {
  import opened SurveyData

  /** One choice of a grouped question as the view shows it. */
  datatype Entry = Entry(choiceID: int, text: string, value: int)

  /** One choice question of a respondent with all its presented choices. */
  datatype Group = Group(questionID: int, title: string, content: seq<Entry>, position: int)

  /** An item of a displayed submission: a grouped choice question or an open answer. */
  datatype Item = GroupItem(group: Group) | OpenItem(answer: OpenAnswerView)

  /** One respondent's submission as the view holds it. */
  datatype Sheet = Sheet(name: string, questions: seq<Item>)

  function EntryOf(r: CloseAnswerView): Entry
  {
    Entry(r.choiceID, r.text, r.value)
  }

  // ---------------------------------------------------------------------
  // Grouping the close answers of one respondent
  // ---------------------------------------------------------------------

  /** `acc.find(a => a.questionID === questionID)`, as an index, or -1. */
  function FindGroup(acc: seq<Group>, questionID: int): (i: int)
    ensures -1 <= i < |acc|
    ensures i == -1 <==> forall k :: 0 <= k < |acc| ==> acc[k].questionID != questionID
    ensures i >= 0 ==> acc[i].questionID == questionID
  {
    if acc == [] then -1
    else if acc[0].questionID == questionID then 0
    else
      var rest := FindGroup(acc[1..], questionID);
      if rest == -1 then -1 else rest + 1
  }

  /**
   * One step of the reduce: the row's choice joins the group of its
   * question, or starts a new group that takes the row's title and position.
   */
  function Step(acc: seq<Group>, r: CloseAnswerView): seq<Group>
  {
    var found := FindGroup(acc, r.questionID);
    if found == -1 then acc + [Group(r.questionID, r.title, [EntryOf(r)], r.position)]
    else acc[found := acc[found].(content := acc[found].content + [EntryOf(r)])]
  }

  /** The reduce over all rows, from an empty accumulator. */
  function GroupRows(rows: seq<CloseAnswerView>): seq<Group>
  {
    if rows == [] then [] else Step(GroupRows(rows[..|rows| - 1]), rows[|rows| - 1])
  }

  /**
   * `acc.sort((a, b) => (a.choiceID > b.choiceID) ? 1 : -1)`. Groups have
   * no `choiceID`, so the comparator answers -1 to every pair and the order
   * it leaves is the engine's choice. The body gives the reversal V8
   * produces for such a run; the contract promises only that the groups
   * are rearranged.
   */
  function SortGroups(acc: seq<Group>): (r: seq<Group>)
    ensures multiset(r) == multiset(acc)
  {
    if acc == [] then []
    else
      assert acc == [acc[0]] + acc[1..];
      SortGroups(acc[1..]) + [acc[0]]
  }

  /**
   * The reduce of `submission.closeAnswers`, pushing into the accumulator
   * row by row and sorting it after each row: the groups of `GroupRows`,
   * in an order that is not specified.
   */
  method GroupCloseAnswers(rows: seq<CloseAnswerView>) returns (acc: seq<Group>)
    ensures multiset(acc) == multiset(GroupRows(rows))
    ensures GroupedBy(acc, rows)
  {
    acc := [];
    for i := 0 to |rows|
      invariant multiset(acc) == multiset(GroupRows(rows[..i]))
    {
      ghost var before := acc;
      var q := rows[i];
      var found := FindGroup(acc, q.questionID);
      var value := Entry(q.choiceID, q.text, q.value);
      if found == -1 {
        acc := acc + [Group(q.questionID, q.title, [value], q.position)];
      } else {
        acc := acc[found := acc[found].(content := acc[found].content + [value])];
      }
      assert acc == Step(before, q);
      StepOnPrefix(before, rows, i);
      acc := SortGroups(acc);
    }
    assert rows[..|rows|] == rows;
    GroupRowsGroups(rows);
    PermutedGroupedBy(acc, GroupRows(rows), rows);
  }

  /** One more row, taken on any rearrangement of the groups so far, gives a rearrangement of the groups so far. */
  lemma StepOnPrefix(acc: seq<Group>, rows: seq<CloseAnswerView>, i: int)
    requires 0 <= i < |rows|
    requires multiset(acc) == multiset(GroupRows(rows[..i]))
    ensures multiset(Step(acc, rows[i])) == multiset(GroupRows(rows[..i + 1]))
  {
    GroupRowsGroups(rows[..i]);
    StepPermuted(acc, GroupRows(rows[..i]), rows[i]);
    assert rows[..i + 1][..i] == rows[..i];
  }

  /** Replacing one element of a list replaces it in the list's multiset. */
  lemma MultisetUpdate(s: seq<Group>, i: int, g: Group)
    requires 0 <= i < |s|
    ensures multiset(s[i := g]) == multiset(s) - multiset{s[i]} + multiset{g}
  {
    assert s == s[..i] + [s[i]] + s[i + 1..];
    assert s[i := g] == s[..i] + [g] + s[i + 1..];
  }

  /** A reduce step taken on a rearranged accumulator gives a rearrangement of the step's result. */
  lemma StepPermuted(a: seq<Group>, b: seq<Group>, r: CloseAnswerView)
    requires multiset(a) == multiset(b)
    requires DistinctQuestions(b)
    ensures multiset(Step(a, r)) == multiset(Step(b, r))
  {
    var fa, fb := FindGroup(a, r.questionID), FindGroup(b, r.questionID);
    if fb == -1 {
      forall k | 0 <= k < |a| ensures a[k].questionID != r.questionID {
        assert a[k] in multiset(b);
        var m :| 0 <= m < |b| && b[m] == a[k];
      }
      assert fa == -1;
    } else {
      assert b[fb] in multiset(a);
      var k :| 0 <= k < |a| && a[k] == b[fb];
      assert fa != -1;
      assert a[fa] in multiset(b);
      var m :| 0 <= m < |b| && b[m] == a[fa];
      assert m == fb;
      MultisetUpdate(a, fa, a[fa].(content := a[fa].content + [EntryOf(r)]));
      MultisetUpdate(b, fb, b[fb].(content := b[fb].content + [EntryOf(r)]));
    }
  }

  /** With distinct questions, no group occurs twice. */
  lemma {:induction false} DistinctQuestionsOnce(b: seq<Group>, g: Group)
    requires DistinctQuestions(b)
    ensures multiset(b)[g] <= 1
  {
    if b != [] {
      assert b == [b[0]] + b[1..];
      assert DistinctQuestions(b[1..]) by {
        forall i, j | 0 <= i < j < |b[1..]| ensures b[1..][i].questionID != b[1..][j].questionID {
          assert b[1..][i] == b[i + 1] && b[1..][j] == b[j + 1];
        }
      }
      DistinctQuestionsOnce(b[1..], g);
      if g == b[0] {
        assert g !in b[1..] by {
          forall k | 0 <= k < |b[1..]| ensures b[1..][k] != g {
            assert b[1..][k] == b[k + 1];
          }
        }
      }
    }
  }

  /** Rearranging groups keeps them distinct. */
  lemma PermutedDistinct(a: seq<Group>, b: seq<Group>)
    requires multiset(a) == multiset(b)
    requires DistinctQuestions(b)
    ensures DistinctQuestions(a)
  {
    forall i, j | 0 <= i < j < |a| ensures a[i].questionID != a[j].questionID {
      assert a[i] in multiset(b) && a[j] in multiset(b);
      var m :| 0 <= m < |b| && b[m] == a[i];
      var n :| 0 <= n < |b| && b[n] == a[j];
      if a[i] == a[j] {
        assert a == a[..j] + [a[j]] + a[j + 1..];
        assert a[..j][i] == a[i];
        assert multiset(a)[a[j]] >= 2;
        DistinctQuestionsOnce(b, a[j]);
      } else {
        assert m != n;
      }
    }
  }

  /** `GroupedBy` does not depend on the order of the groups. */
  lemma PermutedGroupedBy(a: seq<Group>, b: seq<Group>, rows: seq<CloseAnswerView>)
    requires multiset(a) == multiset(b)
    requires GroupedBy(b, rows)
    ensures GroupedBy(a, rows)
  {
    PermutedDistinct(a, b);
    forall k | 0 <= k < |a|
      ensures HasRow(rows, a[k].questionID)
      ensures a[k].content == EntriesOf(rows, a[k].questionID)
      ensures a[k].title == FirstRow(rows, a[k].questionID).title
      ensures a[k].position == FirstRow(rows, a[k].questionID).position
    {
      assert a[k] in multiset(b);
      var m :| 0 <= m < |b| && b[m] == a[k];
    }
    forall k | 0 <= k < |rows| ensures FindGroup(a, rows[k].questionID) >= 0 {
      var m := FindGroup(b, rows[k].questionID);
      assert b[m] in multiset(a);
      var n :| 0 <= n < |a| && a[n] == b[m];
    }
  }

  /** The choices of the rows of one question, in arrival order. */
  function EntriesOf(rows: seq<CloseAnswerView>, questionID: int): seq<Entry>
  {
    if rows == [] then []
    else
      var last := rows[|rows| - 1];
      EntriesOf(rows[..|rows| - 1], questionID) + (if last.questionID == questionID then [EntryOf(last)] else [])
  }

  /** Some row belongs to the question. */
  predicate HasRow(rows: seq<CloseAnswerView>, questionID: int)
  {
    exists k :: 0 <= k < |rows| && rows[k].questionID == questionID
  }

  /** The first row of a question. */
  function FirstRow(rows: seq<CloseAnswerView>, questionID: int): (r: CloseAnswerView)
    requires HasRow(rows, questionID)
    ensures r in rows && r.questionID == questionID
  {
    if rows[0].questionID == questionID then rows[0]
    else
      assert HasRow(rows[1..], questionID) by {
        var k :| 0 <= k < |rows| && rows[k].questionID == questionID;
        assert rows[1..][k - 1] == rows[k];
      }
      FirstRow(rows[1..], questionID)
  }

  /** No two groups are for the same question. */
  predicate DistinctQuestions(acc: seq<Group>)
  {
    forall i, j :: 0 <= i < j < |acc| ==> acc[i].questionID != acc[j].questionID
  }

  /** Every group is for a question that has rows. */
  predicate Backed(acc: seq<Group>, rows: seq<CloseAnswerView>)
  {
    forall k :: 0 <= k < |acc| ==> HasRow(rows, acc[k].questionID)
  }

  /** Every group holds its question's choices in arrival order, under the title and position of its first row. */
  predicate Contents(acc: seq<Group>, rows: seq<CloseAnswerView>)
    requires Backed(acc, rows)
  {
    forall k :: 0 <= k < |acc| ==>
      && acc[k].content == EntriesOf(rows, acc[k].questionID)
      && acc[k].title == FirstRow(rows, acc[k].questionID).title
      && acc[k].position == FirstRow(rows, acc[k].questionID).position
  }

  /** Every row's question has a group. */
  predicate Covers(acc: seq<Group>, rows: seq<CloseAnswerView>)
  {
    forall k :: 0 <= k < |rows| ==> FindGroup(acc, rows[k].questionID) >= 0
  }

  /**
   * The groups of `rows`: one per question that has rows and no other,
   * each holding that question's choices in arrival order under the title
   * and position of its first row.
   */
  predicate GroupedBy(acc: seq<Group>, rows: seq<CloseAnswerView>)
  {
    DistinctQuestions(acc) && Backed(acc, rows) && Contents(acc, rows) && Covers(acc, rows)
  }

  /** The reduce groups the rows as described by `GroupedBy`. */
  lemma {:induction false} GroupRowsGroups(rows: seq<CloseAnswerView>)
    ensures GroupedBy(GroupRows(rows), rows)
  {
    if rows != [] {
      var init := rows[..|rows| - 1];
      var r := rows[|rows| - 1];
      GroupRowsGroups(init);
      assert init + [r] == rows;
      var acc := GroupRows(init);
      StepDistinct(acc, r);
      StepBacked(acc, init, r);
      StepContents(acc, init, r);
      StepCovers(acc, init, r);
    }
  }

  lemma StepDistinct(acc: seq<Group>, r: CloseAnswerView)
    requires DistinctQuestions(acc)
    ensures DistinctQuestions(Step(acc, r))
  {
    var next := Step(acc, r);
    var found := FindGroup(acc, r.questionID);
    forall i, j | 0 <= i < j < |next| ensures next[i].questionID != next[j].questionID {
      if found == -1 {
        assert next[i] == acc[i];
        if j < |acc| {
          assert next[j] == acc[j];
        }
      } else {
        assert next[i].questionID == acc[i].questionID && next[j].questionID == acc[j].questionID;
      }
    }
  }

  lemma StepBacked(acc: seq<Group>, init: seq<CloseAnswerView>, r: CloseAnswerView)
    requires Backed(acc, init)
    ensures Backed(Step(acc, r), init + [r])
  {
    var rows := init + [r];
    var next := Step(acc, r);
    forall k | 0 <= k < |next| ensures HasRow(rows, next[k].questionID) {
      if k < |acc| {
        assert next[k].questionID == acc[k].questionID;
        var m :| 0 <= m < |init| && init[m].questionID == acc[k].questionID;
        assert rows[m] == init[m];
      } else {
        assert rows[|init|] == r;
      }
    }
  }

  lemma StepCovers(acc: seq<Group>, init: seq<CloseAnswerView>, r: CloseAnswerView)
    requires Covers(acc, init)
    ensures Covers(Step(acc, r), init + [r])
  {
    var rows := init + [r];
    var next := Step(acc, r);
    var found := FindGroup(acc, r.questionID);
    forall k | 0 <= k < |rows| ensures FindGroup(next, rows[k].questionID) >= 0 {
      if k < |init| {
        assert rows[k] == init[k];
        var g := FindGroup(acc, init[k].questionID);
        assert next[g].questionID == init[k].questionID;
      } else if found == -1 {
        assert next[|acc|].questionID == r.questionID;
      } else {
        assert next[found].questionID == r.questionID;
      }
    }
  }

  lemma StepContents(acc: seq<Group>, init: seq<CloseAnswerView>, r: CloseAnswerView)
    requires DistinctQuestions(acc) && Backed(acc, init) && Contents(acc, init) && Covers(acc, init)
    ensures Backed(Step(acc, r), init + [r])
    ensures Contents(Step(acc, r), init + [r])
  {
    var rows := init + [r];
    var next := Step(acc, r);
    var found := FindGroup(acc, r.questionID);
    StepBacked(acc, init, r);
    if found == -1 {
      forall m | 0 <= m < |init| ensures init[m].questionID != r.questionID {
        assert FindGroup(acc, init[m].questionID) >= 0;
      }
      FirstRowNew(init, r);
      NoEntries(init, r.questionID);
      EntriesAppend(init, r, r.questionID);
    }
    forall k | 0 <= k < |next|
      ensures next[k].content == EntriesOf(rows, next[k].questionID)
      ensures next[k].title == FirstRow(rows, next[k].questionID).title
      ensures next[k].position == FirstRow(rows, next[k].questionID).position
    {
      if k < |acc| {
        var q := acc[k].questionID;
        FirstRowAppend(init, r, q);
        EntriesAppend(init, r, q);
        if k == found {
          assert next[k] == acc[k].(content := acc[k].content + [EntryOf(r)]);
        } else {
          assert next[k] == acc[k];
          assert q != r.questionID;
        }
      } else {
        assert next[k] == Group(r.questionID, r.title, [EntryOf(r)], r.position);
      }
    }
  }

  lemma EntriesAppend(init: seq<CloseAnswerView>, r: CloseAnswerView, q: int)
    ensures EntriesOf(init + [r], q) == EntriesOf(init, q) + (if r.questionID == q then [EntryOf(r)] else [])
  {
    assert (init + [r])[..|init|] == init;
  }

  /** The first row of a question that already had rows does not change when a row arrives. */
  lemma {:induction false} FirstRowAppend(init: seq<CloseAnswerView>, r: CloseAnswerView, q: int)
    requires HasRow(init, q)
    ensures HasRow(init + [r], q)
    ensures FirstRow(init + [r], q) == FirstRow(init, q)
  {
    var m :| 0 <= m < |init| && init[m].questionID == q;
    assert (init + [r])[m] == init[m];
    if init[0].questionID != q {
      assert (init + [r])[1..] == init[1..] + [r];
      assert init[1..][m - 1] == init[m];
      FirstRowAppend(init[1..], r, q);
    }
  }

  /** The first row of a question without earlier rows is the arriving row. */
  lemma {:induction false} FirstRowNew(init: seq<CloseAnswerView>, r: CloseAnswerView)
    requires forall m :: 0 <= m < |init| ==> init[m].questionID != r.questionID
    ensures HasRow(init + [r], r.questionID)
    ensures FirstRow(init + [r], r.questionID) == r
  {
    assert (init + [r])[|init|] == r;
    if init != [] {
      assert (init + [r])[1..] == init[1..] + [r];
      forall m | 0 <= m < |init[1..]| ensures init[1..][m].questionID != r.questionID {
        assert init[1..][m] == init[m + 1];
      }
      FirstRowNew(init[1..], r);
    }
  }

  /** A question without rows has no entries. */
  lemma {:induction false} NoEntries(rows: seq<CloseAnswerView>, questionID: int)
    requires forall m :: 0 <= m < |rows| ==> rows[m].questionID != questionID
    ensures EntriesOf(rows, questionID) == []
  {
    if rows != [] {
      var init := rows[..|rows| - 1];
      forall m | 0 <= m < |init| ensures init[m].questionID != questionID {
        assert rows[m] == init[m];
      }
      NoEntries(init, questionID);
    }
  }

  /** Total number of choices held by the groups. */
  function TotalEntries(acc: seq<Group>): nat
  {
    if acc == [] then 0 else TotalEntries(acc[..|acc| - 1]) + |acc[|acc| - 1].content|
  }

  /** Every row ends up as exactly one entry: the groups hold as many choices as there are rows. */
  lemma {:induction false} GroupTotal(rows: seq<CloseAnswerView>)
    ensures TotalEntries(GroupRows(rows)) == |rows|
  {
    if rows != [] {
      var init := rows[..|rows| - 1];
      var r := rows[|rows| - 1];
      var acc := GroupRows(init);
      GroupTotal(init);
      var found := FindGroup(acc, r.questionID);
      if found == -1 {
        assert (acc + [Group(r.questionID, r.title, [EntryOf(r)], r.position)])[..|acc|] == acc;
      } else {
        TotalUpdate(acc, found, acc[found].(content := acc[found].content + [EntryOf(r)]));
      }
    }
  }

  /** Replacing one group changes the total by the difference of the two sizes. */
  lemma {:induction false} TotalUpdate(acc: seq<Group>, i: int, g: Group)
    requires 0 <= i < |acc|
    ensures TotalEntries(acc[i := g]) == TotalEntries(acc) - |acc[i].content| + |g.content|
  {
    var n := |acc|;
    var upd := acc[i := g];
    assert upd[..n - 1] == if i == n - 1 then acc[..n - 1] else acc[..n - 1][i := g];
    if i < n - 1 {
      TotalUpdate(acc[..n - 1], i, g);
    }
  }

  // ---------------------------------------------------------------------
  // Building the sheets and stepping through them
  // ---------------------------------------------------------------------

  function GroupItems(gs: seq<Group>): (r: seq<Item>)
    ensures |r| == |gs|
  {
    seq(|gs|, i requires 0 <= i < |gs| => GroupItem(gs[i]))
  }

  function OpenItems(os: seq<OpenAnswerView>): (r: seq<Item>)
    ensures |r| == |os|
  {
    seq(|os|, i requires 0 <= i < |os| => OpenItem(os[i]))
  }

  /**
   * The effect that loads the submissions: one sheet per respondent, in
   * the order received, named after the respondent and listing the grouped
   * close answers followed by the open answers.
   */
  method BuildSheets(result: seq<RespondentAnswers>) returns (tmp: seq<Sheet>)
    ensures |tmp| == |result|
    ensures forall i :: 0 <= i < |result| ==> SheetOf(tmp[i], result[i])
  {
    tmp := [];
    for i := 0 to |result|
      invariant |tmp| == i
      invariant forall k :: 0 <= k < i ==> SheetOf(tmp[k], result[k])
    {
      var submission := result[i];
      var submissionCloseAnswers := GroupCloseAnswers(submission.closeAnswers);
      var questions := GroupItems(submissionCloseAnswers) + OpenItems(submission.openAnswers);
      GroupItemsPermuted(submissionCloseAnswers, GroupRows(submission.closeAnswers));
      assert questions[..|submissionCloseAnswers|] == GroupItems(submissionCloseAnswers);
      tmp := tmp + [Sheet(submission.nameUser, questions)];
    }
  }

  /**
   * A respondent's sheet: their name, then one item per group of their
   * close answers (in an order that is not specified), then their open
   * answers as received.
   */
  predicate SheetOf(sheet: Sheet, r: RespondentAnswers)
  {
    var groups := GroupRows(r.closeAnswers);
    && sheet.name == r.nameUser
    && |sheet.questions| == |groups| + |r.openAnswers|
    && multiset(sheet.questions[..|groups|]) == multiset(GroupItems(groups))
    && sheet.questions[|groups|..] == OpenItems(r.openAnswers)
  }

  /** Each group occurs among the items as often as among the groups, and no open answer does. */
  lemma {:induction false} GroupItemsCount(gs: seq<Group>, x: Item)
    ensures multiset(GroupItems(gs))[x] == if x.GroupItem? then multiset(gs)[x.group] else 0
  {
    if gs != [] {
      var n := |gs|;
      assert gs == gs[..n - 1] + [gs[n - 1]];
      assert GroupItems(gs) == GroupItems(gs[..n - 1]) + [GroupItem(gs[n - 1])];
      GroupItemsCount(gs[..n - 1], x);
    }
  }

  /** Rearranged groups give rearranged items. */
  lemma GroupItemsPermuted(a: seq<Group>, b: seq<Group>)
    requires multiset(a) == multiset(b)
    ensures multiset(GroupItems(a)) == multiset(GroupItems(b))
    ensures |GroupItems(a)| == |GroupItems(b)|
  {
    forall x ensures multiset(GroupItems(a))[x] == multiset(GroupItems(b))[x] {
      GroupItemsCount(a, x);
      GroupItemsCount(b, x);
    }
    assert |a| == |multiset(a)| == |multiset(b)| == |b|;
  }

  /** The cursor over the loaded sheets. */
  class SheetViewer {
    var sheets: seq<Sheet>
    var currentSubmission: int

    /** The cursor designates a sheet. */
    ghost predicate Valid()
      reads this
    {
      0 <= currentSubmission < |sheets|
    }

    /** The view opens on the first sheet; it is only reachable for a survey with submissions. */
    constructor (loaded: seq<Sheet>)
      requires |loaded| >= 1
      ensures Valid()
      ensures sheets == loaded && currentSubmission == 0
    {
      sheets := loaded;
      currentSubmission := 0;
    }

    /** `previousSubmission`, whose button is disabled on the first sheet. */
    method Previous()
      requires Valid()
      requires currentSubmission != 0
      modifies this
      ensures Valid()
      ensures currentSubmission == old(currentSubmission) - 1 && sheets == old(sheets)
    {
      currentSubmission := currentSubmission - 1;
    }

    /** `nextSubmission`, whose button is disabled on the last sheet. */
    method Next()
      requires Valid()
      requires currentSubmission != |sheets| - 1
      modifies this
      ensures Valid()
      ensures currentSubmission == old(currentSubmission) + 1 && sheets == old(sheets)
    {
      currentSubmission := currentSubmission + 1;
    }
  }
}
