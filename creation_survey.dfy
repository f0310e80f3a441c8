/**
 * The survey authoring form of the client: the ordered list of draft
 * questions (appended with fresh temporary identifiers, removed, moved up
 * and down, numbered by position on publication) and the editor of the
 * one question being composed (its kind, its options, `min` and `max`).
 *
 * A draft question's `position` is only meaningful after publication,
 * which numbers the questions 0, 1, 2, ...; before that the model keeps 0.
 * The browser's form validation (`checkValidity`) is a boolean parameter.
 */
module CreationSurvey {
  import opened SurveyData

  /** The temporary identifiers of the questions are pairwise different. */
  predicate DistinctIds(qs: seq<DraftQuestion>)
  {
    forall i, j :: 0 <= i < j < |qs| ==> qs[i].id != qs[j].id
  }

  /** Every identifier lies in `[0, bound)`. */
  predicate IdsBelow(qs: seq<DraftQuestion>, bound: int)
  {
    forall i :: 0 <= i < |qs| ==> 0 <= qs[i].id < bound
  }

  /** `questions.findIndex(q => q.id === id)`: the first index carrying `id`, or -1. */
  function IndexOf(qs: seq<DraftQuestion>, id: int): (i: int)
    ensures -1 <= i < |qs|
    ensures i == -1 <==> forall k :: 0 <= k < |qs| ==> qs[k].id != id
    ensures i >= 0 ==> qs[i].id == id && forall k :: 0 <= k < i ==> qs[k].id != id
  {
    if qs == [] then -1
    else if qs[0].id == id then 0
    else
      var rest := IndexOf(qs[1..], id);
      if rest == -1 then -1 else rest + 1
  }

  /**
   * `splice(index, 1)` on a copy of the list: removes the element at
   * `index`; an index of -1 removes the last element (nothing when the
   * list is empty).
   */
  function Splice(qs: seq<DraftQuestion>, index: int): seq<DraftQuestion>
    requires -1 <= index < |qs|
  {
    if index >= 0 then qs[..index] + qs[index + 1..]
    else if qs == [] then []
    else qs[..|qs| - 1]
  }

  /** The list with the elements at `i` and `j` exchanged. */
  function Swap(qs: seq<DraftQuestion>, i: int, j: int): seq<DraftQuestion>
    requires 0 <= i < |qs| && 0 <= j < |qs|
  {
    qs[i := qs[j]][j := qs[i]]
  }

  /** The list after `moveUp(id)`: swapped with its predecessor unless first or absent. */
  function MovedUp(qs: seq<DraftQuestion>, id: int): seq<DraftQuestion>
  {
    var index := IndexOf(qs, id);
    if index >= 1 then Swap(qs, index, index - 1) else qs
  }

  /** The list after `moveDown(id)` for a listed `id`: swapped with its successor unless last. */
  function MovedDown(qs: seq<DraftQuestion>, id: int): seq<DraftQuestion>
    requires IndexOf(qs, id) >= 0
  {
    var index := IndexOf(qs, id);
    if index != |qs| - 1 then Swap(qs, index, index + 1) else qs
  }

  /** The questions as publication sends them: each `position` set to its index. */
  function WithPositions(qs: seq<DraftQuestion>): (r: seq<DraftQuestion>)
    ensures |r| == |qs|
    ensures forall i :: 0 <= i < |qs| ==> r[i].position == i
    ensures forall i :: 0 <= i < |qs| ==> r[i].(position := qs[i].position) == qs[i]
  {
    seq(|qs|, i requires 0 <= i < |qs| => qs[i].(position := i))
  }

  /** The authoring form of a new survey. */
  class SurveyEditor {
    var title: string
    var description: string
    var questions: seq<DraftQuestion>
    var lastQuestionID: int
    var insertQuestion: bool

    /** Every temporary identifier was handed out before `lastQuestionID`, and no two are equal. */
    ghost predicate Valid()
      reads this
    {
      && 0 <= lastQuestionID
      && IdsBelow(questions, lastQuestionID)
      && DistinctIds(questions)
    }

    /** An empty form, with the editor of the first question open. */
    constructor ()
      ensures Valid()
      ensures title == "" && description == "" && questions == []
      ensures lastQuestionID == 0 && insertQuestion
    {
      title, description := "", "";
      questions := [];
      lastQuestionID := 0;
      insertQuestion := true;
    }

    /**
     * `addQuestion`: appends the composed question under identifier
     * `lastQuestionID`, closes the question editor and advances the identifier.
     */
    method AddQuestion(titleQuestion: string, content: seq<string>, min: int, max: int)
      requires Valid()
      modifies this
      ensures Valid()
      ensures questions == old(questions) + [DraftQuestion(old(lastQuestionID), titleQuestion, content, min, max, 0)]
      ensures lastQuestionID == old(lastQuestionID) + 1
      ensures !insertQuestion
      ensures title == old(title) && description == old(description)
    {
      var newQuestion := DraftQuestion(lastQuestionID, titleQuestion, content, min, max, 0);
      questions := questions + [newQuestion];
      insertQuestion := false;
      lastQuestionID := lastQuestionID + 1;
    }

    /** The "Add a new question" button: opens the question editor again. */
    method StartInsertQuestion()
      modifies this
      ensures insertQuestion
      ensures questions == old(questions) && lastQuestionID == old(lastQuestionID)
      ensures title == old(title) && description == old(description)
    {
      insertQuestion := true;
    }

    /** `removeQuestion(id)`: splices out the element found for `id` (index -1 when absent). */
    method RemoveQuestion(id: int)
      requires Valid()
      modifies this`questions
      ensures Valid()
      ensures questions == Splice(old(questions), IndexOf(old(questions), id))
      ensures lastQuestionID == old(lastQuestionID) && insertQuestion == old(insertQuestion)
      ensures title == old(title) && description == old(description)
    {
      var index := IndexOf(questions, id);
      var remaining := Splice(questions, index);
      SpliceKeepsIds(questions, index, lastQuestionID);
      questions := remaining;
    }

    /** `moveUp(id)`: exchanges the question with the one before it, unless it is first. */
    method MoveUp(id: int)
      requires Valid()
      modifies this
      ensures Valid()
      ensures questions == MovedUp(old(questions), id)
      ensures lastQuestionID == old(lastQuestionID) && insertQuestion == old(insertQuestion)
      ensures title == old(title) && description == old(description)
    {
      var index := IndexOf(questions, id);
      if index >= 1 {
        var data := questions;
        var tmp := data[index];
        data := data[index := data[index - 1]];
        data := data[index - 1 := tmp];
        SwapKeepsIds(questions, index, index - 1);
        questions := data;
      }
    }

    /** `moveDown(id)`: exchanges the question with the one after it, unless it is last. */
    method MoveDown(id: int)
      requires Valid()
      requires IndexOf(questions, id) >= 0
      modifies this
      ensures Valid()
      ensures questions == MovedDown(old(questions), id)
      ensures lastQuestionID == old(lastQuestionID) && insertQuestion == old(insertQuestion)
      ensures title == old(title) && description == old(description)
    {
      var index := IndexOf(questions, id);
      if index != |questions| - 1 {
        var data := questions;
        var tmp := data[index];
        data := data[index := data[index + 1]];
        data := data[index + 1 := tmp];
        SwapKeepsIds(questions, index, index + 1);
        questions := data;
      }
    }

    /**
     * `publishSurvey`: refused while a question is being composed or the
     * form is invalid; otherwise numbers the questions by their index and
     * answers true; the survey sent is then the title, the description and
     * the numbered questions.
     */
    method Publish(formValid: bool) returns (published: bool)
      requires Valid()
      modifies this
      ensures Valid()
      ensures published <==> formValid && !old(insertQuestion)
      ensures published ==> questions == WithPositions(old(questions))
      ensures !published ==> questions == old(questions)
      ensures lastQuestionID == old(lastQuestionID) && insertQuestion == old(insertQuestion)
      ensures title == old(title) && description == old(description)
    {
      if !formValid || insertQuestion {
        return false;
      }
      var index := 0;
      while index < |questions|
        invariant 0 <= index <= |questions| == |old(questions)|
        invariant forall k :: 0 <= k < index ==> questions[k] == old(questions)[k].(position := k)
        invariant forall k :: index <= k < |questions| ==> questions[k] == old(questions)[k]
        invariant lastQuestionID == old(lastQuestionID) && insertQuestion == old(insertQuestion)
        invariant title == old(title) && description == old(description)
      {
        questions := questions[index := questions[index].(position := index)];
        index := index + 1;
      }
      return true;
    }
  }

  /** After removing index `index`, element `i` is the old element `i` before it and `i + 1` from it on. */
  lemma RemoveAtIndexMap(qs: seq<DraftQuestion>, index: int)
    requires 0 <= index < |qs|
    ensures |qs[..index] + qs[index + 1..]| == |qs| - 1
    ensures forall i :: 0 <= i < index ==> (qs[..index] + qs[index + 1..])[i] == qs[i]
    ensures forall i :: index < i < |qs| ==> (qs[..index] + qs[index + 1..])[i - 1] == qs[i]
  {
  }

  /** Removing an element keeps the identifiers in range and distinct. */
  lemma SpliceKeepsIds(qs: seq<DraftQuestion>, index: int, bound: int)
    requires -1 <= index < |qs|
    requires IdsBelow(qs, bound) && DistinctIds(qs)
    ensures IdsBelow(Splice(qs, index), bound) && DistinctIds(Splice(qs, index))
  {
    if index >= 0 {
      RemoveAtKeepsIds(qs, index, bound);
    } else if qs != [] {
      assert Splice(qs, index) == qs[..|qs| - 1];
    }
  }

  lemma RemoveAtKeepsIds(qs: seq<DraftQuestion>, index: int, bound: int)
    requires 0 <= index < |qs|
    requires IdsBelow(qs, bound) && DistinctIds(qs)
    ensures IdsBelow(qs[..index] + qs[index + 1..], bound) && DistinctIds(qs[..index] + qs[index + 1..])
  {
    var r := qs[..index] + qs[index + 1..];
    RemoveAtIndexMap(qs, index);
    forall i, j | 0 <= i < j < |r| ensures r[i].id != r[j].id {
      if j < index {
        assert r[i] == qs[i] && r[j] == qs[j];
      } else if i < index {
        assert r[i] == qs[i] && r[j] == qs[j + 1];
      } else {
        assert r[i] == qs[i + 1] && r[j] == qs[j + 1];
      }
    }
    forall i | 0 <= i < |r| ensures 0 <= r[i].id < bound {
      if i < index {
        assert r[i] == qs[i];
      } else {
        assert r[i] == qs[i + 1];
      }
    }
  }

  /** Exchanging two elements keeps the identifiers in range and distinct. */
  lemma SwapKeepsIds(qs: seq<DraftQuestion>, i: int, j: int)
    requires 0 <= i < |qs| && 0 <= j < |qs|
    ensures multiset(Swap(qs, i, j)) == multiset(qs)
    ensures forall bound :: IdsBelow(qs, bound) ==> IdsBelow(Swap(qs, i, j), bound)
    ensures DistinctIds(qs) ==> DistinctIds(Swap(qs, i, j))
  {
    SwapPermutes(qs, i, j);
    forall bound | IdsBelow(qs, bound) ensures IdsBelow(Swap(qs, i, j), bound) {
      SwapKeepsBound(qs, i, j, bound);
    }
    if DistinctIds(qs) {
      SwapKeepsDistinct(qs, i, j);
    }
  }

  lemma SwapPermutes(qs: seq<DraftQuestion>, i: int, j: int)
    requires 0 <= i < |qs| && 0 <= j < |qs|
    ensures multiset(Swap(qs, i, j)) == multiset(qs)
  {
  }

  lemma SwapIndex(qs: seq<DraftQuestion>, i: int, j: int)
    requires 0 <= i < |qs| && 0 <= j < |qs|
    ensures |Swap(qs, i, j)| == |qs|
    ensures forall k :: 0 <= k < |qs| ==> Swap(qs, i, j)[k] == qs[if k == i then j else if k == j then i else k]
  {
  }

  lemma SwapKeepsBound(qs: seq<DraftQuestion>, i: int, j: int, bound: int)
    requires 0 <= i < |qs| && 0 <= j < |qs|
    requires IdsBelow(qs, bound)
    ensures IdsBelow(Swap(qs, i, j), bound)
  {
    SwapIndex(qs, i, j);
  }

  lemma SwapKeepsDistinct(qs: seq<DraftQuestion>, i: int, j: int)
    requires 0 <= i < |qs| && 0 <= j < |qs|
    requires DistinctIds(qs)
    ensures DistinctIds(Swap(qs, i, j))
  {
    var r := Swap(qs, i, j);
    SwapIndex(qs, i, j);
    forall a, b | 0 <= a < b < |r| ensures r[a].id != r[b].id {
      var a' := if a == i then j else if a == j then i else a;
      var b' := if b == i then j else if b == j then i else b;
      assert r[a] == qs[a'] && r[b] == qs[b'];
    }
  }

  /** Exchanging the same two elements twice restores the list. */
  lemma SwapTwice(qs: seq<DraftQuestion>, i: int, j: int)
    requires 0 <= i < |qs| && 0 <= j < |qs|
    ensures Swap(Swap(qs, i, j), j, i) == qs
  {
    var d := Swap(qs, i, j);
    var r := Swap(d, j, i);
    assert |r| == |qs|;
    forall k | 0 <= k < |qs| ensures r[k] == qs[k] {
      if k == i {
        assert r[k] == d[j];
      } else if k == j {
        assert r[k] == d[i];
      }
    }
  }

  // ---------------------------------------------------------------------
  // Properties of the list operations
  // ---------------------------------------------------------------------

  /**
   * Removing a listed question shortens the list by one, takes out exactly
   * that question and keeps the others in their order.
   */
  lemma RemovePresent(qs: seq<DraftQuestion>, id: int)
    requires DistinctIds(qs)
    requires exists k :: 0 <= k < |qs| && qs[k].id == id
    ensures var r := Splice(qs, IndexOf(qs, id));
      && |r| == |qs| - 1
      && (forall q :: q in r ==> q.id != id)
      && (forall q :: q in qs && q.id != id ==> q in r)
      && multiset(r) + multiset{qs[IndexOf(qs, id)]} == multiset(qs)
      && r == qs[..IndexOf(qs, id)] + qs[IndexOf(qs, id) + 1..]
  {
    var index := IndexOf(qs, id);
    var r := Splice(qs, index);
    SpliceAt(qs, index);
    forall q | q in r ensures q.id != id {
      var k :| 0 <= k < |r| && r[k] == q;
      assert q == qs[if k < index then k else k + 1];
    }
    forall q | q in qs && q.id != id ensures q in r {
      var k :| 0 <= k < |qs| && qs[k] == q;
      assert r[if k < index then k else k - 1] == q;
    }
  }

  /** Splicing out an index in range shifts the later questions down by one. */
  lemma SpliceAt(qs: seq<DraftQuestion>, index: int)
    requires 0 <= index < |qs|
    ensures var r := Splice(qs, index);
      && |r| == |qs| - 1
      && (forall k :: 0 <= k < index ==> r[k] == qs[k])
      && (forall k :: index <= k < |r| ==> r[k] == qs[k + 1])
      && multiset(r) + multiset{qs[index]} == multiset(qs)
  {
    assert qs == qs[..index] + [qs[index]] + qs[index + 1..];
  }

  /** Removing an id that is not listed drops the last question, as `splice(-1, 1)` does. */
  lemma RemoveAbsent(qs: seq<DraftQuestion>, id: int)
    requires forall k :: 0 <= k < |qs| ==> qs[k].id != id
    requires qs != []
    ensures Splice(qs, IndexOf(qs, id)) == qs[..|qs| - 1]
  {
  }

  /** Moving up keeps the same questions; the first question does not move. */
  lemma MoveUpPermutes(qs: seq<DraftQuestion>, id: int)
    ensures multiset(MovedUp(qs, id)) == multiset(qs)
    ensures |qs| > 0 && qs[0].id == id ==> MovedUp(qs, id) == qs
    ensures var i := IndexOf(qs, id);
      i >= 1 ==>
        && MovedUp(qs, id)[i - 1] == qs[i] && MovedUp(qs, id)[i] == qs[i - 1]
        && forall k :: 0 <= k < |qs| && k != i && k != i - 1 ==> MovedUp(qs, id)[k] == qs[k]
  {
    var i := IndexOf(qs, id);
    if i >= 1 {
      SwapKeepsIds(qs, i, i - 1);
    }
  }

  /** Moving down keeps the same questions; the last question does not move. */
  lemma MoveDownPermutes(qs: seq<DraftQuestion>, id: int)
    requires IndexOf(qs, id) >= 0
    ensures multiset(MovedDown(qs, id)) == multiset(qs)
    ensures IndexOf(qs, id) == |qs| - 1 ==> MovedDown(qs, id) == qs
    ensures var i := IndexOf(qs, id);
      i < |qs| - 1 ==>
        && MovedDown(qs, id)[i + 1] == qs[i] && MovedDown(qs, id)[i] == qs[i + 1]
        && forall k :: 0 <= k < |qs| && k != i && k != i + 1 ==> MovedDown(qs, id)[k] == qs[k]
  {
    var i := IndexOf(qs, id);
    if i < |qs| - 1 {
      SwapKeepsIds(qs, i, i + 1);
    }
  }

  /**
   * With distinct identifiers, moving a question that is not the last one
   * down and then up restores the list. (The last question does not move
   * down, but does move up.)
   */
  lemma MoveDownThenUp(qs: seq<DraftQuestion>, id: int)
    requires DistinctIds(qs)
    requires 0 <= IndexOf(qs, id) < |qs| - 1
    ensures MovedUp(MovedDown(qs, id), id) == qs
  {
    var i := IndexOf(qs, id);
    {
      var d := Swap(qs, i, i + 1);
      assert d[i] == qs[i + 1] && d[i + 1] == qs[i];
      assert qs[i + 1].id != qs[i].id;
      forall k | 0 <= k <= i ensures d[k].id != id {
        if k < i {
          assert d[k] == qs[k];
        }
      }
      assert MovedDown(qs, id) == d;
      IndexOfUnique(d, i + 1, id);
      assert MovedUp(d, id) == Swap(d, i + 1, i);
      SwapTwice(qs, i, i + 1);
    }
  }

  /** The index of an identifier is the first position that carries it. */
  lemma {:induction false} IndexOfUnique(qs: seq<DraftQuestion>, k: int, id: int)
    requires 0 <= k < |qs| && qs[k].id == id
    requires forall m :: 0 <= m < k ==> qs[m].id != id
    ensures IndexOf(qs, id) == k
  {
    if k > 0 {
      IndexOfUnique(qs[1..], k - 1, id);
    }
  }

  // ---------------------------------------------------------------------
  // The editor of one question
  // ---------------------------------------------------------------------

  /** The two radio buttons of the question kind. */
  datatype Kind = Open | Close

  /** Most options a choice question can be given in the editor. */
  const MaxOptions := 10

  /** The "Required" switch of an open question: 1 when `min` is 0, 0 otherwise. */
  function ToggledRequired(min: int): (r: int)
    ensures r == 0 || r == 1
    ensures r == 1 <==> min == 0
  {
    if min != 0 then 0 else 1
  }

  /** The max field's input: a value below 1 is raised to 1. */
  function ClampedMax(v: int): (r: int)
    ensures r >= 1
    ensures v >= 1 ==> r == v
    ensures v < 1 ==> r == 1
  {
    if v < 1 then 1 else v
  }

  /** `options.filter((data, idx) => idx !== index)`. */
  function Without(s: seq<string>, index: int): (r: seq<string>)
  {
    if s == [] then []
    else (if index == 0 then [] else [s[0]]) + Without(s[1..], index - 1)
  }

  /** Filtering out an index in range removes exactly that element; one out of range removes nothing. */
  lemma {:induction false} WithoutIsRemoval(s: seq<string>, index: int)
    ensures 0 <= index < |s| ==> Without(s, index) == s[..index] + s[index + 1..]
    ensures !(0 <= index < |s|) ==> Without(s, index) == s
  {
    if s != [] {
      WithoutIsRemoval(s[1..], index - 1);
      if index == 0 {
        assert s[..0] + s[1..] == s[1..];
      } else if 0 < index < |s| {
        assert [s[0]] + (s[1..][..index - 1] + s[1..][index..]) == s[..index] + s[index + 1..];
      } else {
        assert [s[0]] + s[1..] == s;
      }
    }
  }

  /** The editor of the question being composed. */
  class QuestionEditor {
    var titleQuestion: string
    var content: seq<string>
    var min: int
    var max: int

    /** At most ten options. */
    ghost predicate Valid()
      reads this
    {
      |content| <= MaxOptions
    }

    /** A fresh editor: empty title, no options, not required, a single-choice question. */
    constructor ()
      ensures Valid()
      ensures titleQuestion == "" && content == [] && min == 0 && max == 1
    {
      titleQuestion, content := "", [];
      min, max := 0, 1;
    }

    /**
     * `changeTypeQuestion`: choosing "close" on an open question makes it a
     * single-choice question, choosing "open" on a choice question makes it
     * open; either switch clears the options. Choosing the current kind
     * changes nothing.
     */
    method ChangeType(target: Kind)
      requires Valid()
      modifies this
      ensures Valid()
      ensures old(max) == 0 && target == Close ==> max == 1 && content == []
      ensures IsChoiceQuestion(old(max)) && target == Open ==> max == 0 && content == []
      ensures !(old(max) == 0 && target == Close) && !(IsChoiceQuestion(old(max)) && target == Open) ==>
        max == old(max) && content == old(content)
      ensures min == old(min) && titleQuestion == old(titleQuestion)
    {
      if max == 0 && target == Close {
        max := 1;
        content := [];
      } else if max >= 1 && target == Open {
        max := 0;
        content := [];
      }
    }

    /** When the options editor of a choice question appears with no options, it shows one empty option. */
    method MountOptions()
      requires Valid()
      modifies this
      ensures Valid()
      ensures IsChoiceQuestion(max) && old(content) == [] ==> content == [""]
      ensures !(IsChoiceQuestion(max) && old(content) == []) ==> content == old(content)
      ensures min == old(min) && max == old(max) && titleQuestion == old(titleQuestion)
    {
      if max >= 1 && |content| == 0 {
        content := [""];
      }
    }

    /** `addNewOption`, offered while there are fewer than ten options: one more empty option at the end. */
    method AddNewOption()
      requires Valid()
      requires |content| < MaxOptions
      modifies this
      ensures Valid()
      ensures content == old(content) + [""]
      ensures min == old(min) && max == old(max) && titleQuestion == old(titleQuestion)
    {
      content := content + [""];
    }

    /** `updateOption(event, index)`: the option at `index` gets the typed text; no other changes. */
    method UpdateOption(index: int, text: string)
      requires Valid()
      requires 0 <= index < |content|
      modifies this
      ensures Valid()
      ensures |content| == |old(content)| && content[index] == text
      ensures forall k :: 0 <= k < |content| && k != index ==> content[k] == old(content)[k]
      ensures min == old(min) && max == old(max) && titleQuestion == old(titleQuestion)
    {
      var tmp := content;
      tmp := tmp[index := text];
      content := tmp;
    }

    /** The delete button of option `index`, disabled while there is a single option. */
    method DeleteOption(index: int)
      requires Valid()
      requires 0 <= index < |content| && |content| != 1
      modifies this
      ensures Valid()
      ensures content == Without(old(content), index)
      ensures content == old(content)[..index] + old(content)[index + 1..]
      ensures min == old(min) && max == old(max) && titleQuestion == old(titleQuestion)
    {
      WithoutIsRemoval(content, index);
      content := Without(content, index);
    }

    /** The max field: the typed value, raised to 1 when smaller. */
    method SetMax(value: int)
      modifies this
      ensures max == ClampedMax(value)
      ensures content == old(content) && min == old(min) && titleQuestion == old(titleQuestion)
    {
      max := if value < 1 then 1 else value;
    }

    /** The min field of a choice question: the typed value. */
    method SetMin(value: int)
      modifies this
      ensures min == value
      ensures content == old(content) && max == old(max) && titleQuestion == old(titleQuestion)
    {
      min := value;
    }

    /** The "Required" switch of an open question. */
    method ToggleRequired()
      modifies this
      ensures min == ToggledRequired(old(min))
      ensures content == old(content) && max == old(max) && titleQuestion == old(titleQuestion)
    {
      if min != 0 {
        min := 0;
      } else {
        min := 1;
      }
    }

    /**
     * `handleSubmit`: when the browser accepts the form, the composed
     * question is added to the survey and the editor is reset; otherwise
     * nothing changes.
     */
    method Submit(formValid: bool, survey: SurveyEditor)
      requires Valid() && survey.Valid()
      modifies this, survey
      ensures Valid() && survey.Valid()
      ensures formValid ==>
        && survey.questions == old(survey.questions)
             + [DraftQuestion(old(survey.lastQuestionID), old(titleQuestion), old(content), old(min), old(max), 0)]
        && survey.lastQuestionID == old(survey.lastQuestionID) + 1
        && !survey.insertQuestion
        && survey.title == old(survey.title) && survey.description == old(survey.description)
        && titleQuestion == "" && content == [] && min == 0 && max == 1
      ensures !formValid ==> unchanged(this) && unchanged(survey)
    {
      if formValid {
        survey.AddQuestion(titleQuestion, content, min, max);
        titleQuestion := "";
        content := [];
        min := 0;
        max := 1;
      }
    }
  }

  /** Switching the "Required" switch twice restores a 0/1 `min`. */
  lemma ToggleTwice(min: int)
    requires min == 0 || min == 1
    ensures ToggledRequired(ToggledRequired(min)) == min
  {
  }
}
