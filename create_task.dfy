/** The task-creation dialog: parsing the comma-separated tag field, building
    the insert record, and resetting or keeping the form after the insert. */
module CreateTask {
  import opened Common
  import opened JsString

  /** The dialog's form state; every field is the text of its input. */
  datatype FormData = FormData(
    title: string,
    description: string,
    status: string,
    priority: string,
    team_id: string,
    tags: string,
    due_date: string)

  /** The initial form, and the form after a successful creation. */
  const DefaultForm := FormData("", "", "backlog", "medium", "", "", "")

  const CreatedText := "Task created successfully!"
  const CreateFailedText := "Failed to create task"

  /** The row sent to the tasks table. `created_by` is absent when no user
      is signed in. */
  datatype TaskInsert = TaskInsert(
    title: string,
    description: string,
    status: string,
    priority: string,
    team_id: Option<string>,
    tags: seq<string>,
    due_date: Option<string>,
    created_by: Option<string>)

  /** A well-formed tag: non-empty, no comma, no whitespace at either end. */
  predicate IsTag(t: string) {
    t != [] && ',' !in t && Trimmed(t)
  }

  /** `.map(t => t.trim()).filter(t => t.length > 0)` over the split pieces. */
  function TrimAndDropEmpty(pieces: seq<string>): (tags: seq<string>)
    ensures |tags| <= |pieces|
    ensures forall t :: t in tags ==> t != [] && Trimmed(t)
    decreases |pieces|
  {
    if pieces == [] then []
    else
      var t := Trim(pieces[0]);
      (if t == [] then [] else [t]) + TrimAndDropEmpty(pieces[1..])
  }

  /** `pieces.map(t => t.trim())`: every piece trimmed, in order. */
  function TrimAll(pieces: seq<string>): (r: seq<string>)
    ensures |r| == |pieces|
    ensures forall i :: 0 <= i < |pieces| ==> r[i] == Trim(pieces[i])
    decreases |pieces|
  {
    if pieces == [] then [] else [Trim(pieces[0])] + TrimAll(pieces[1..])
  }

  /** Cleaning keeps the order of the trimmed pieces: its result is a
      subsequence of them. */
  lemma {:induction false} TrimAndDropEmptyIsOrdered(pieces: seq<string>)
    ensures IsSubsequence(TrimAndDropEmpty(pieces), TrimAll(pieces))
    decreases |pieces|
  {
    if pieces != [] {
      TrimAndDropEmptyIsOrdered(pieces[1..]);
      var t0 := Trim(pieces[0]);
      var rest := TrimAndDropEmpty(pieces[1..]);
      var all := TrimAll(pieces);
      assert all[0] == t0 && all[1..] == TrimAll(pieces[1..]);
      if t0 != [] {
        var sub := [t0] + rest;
        assert sub[0] == all[0] && sub[1..] == rest;
        assert TrimAndDropEmpty(pieces) == sub;
      } else {
        assert TrimAndDropEmpty(pieces) == rest;
      }
    }
  }

  /** Cleaning keeps each non-empty trimmed piece as often as it occurs, so
      nothing non-empty is dropped or deduplicated. */
  lemma {:induction false} TrimAndDropEmptyCount(pieces: seq<string>, t: string)
    requires t != []
    ensures multiset(TrimAndDropEmpty(pieces))[t] == multiset(TrimAll(pieces))[t]
    decreases |pieces|
  {
    if pieces != [] {
      TrimAndDropEmptyCount(pieces[1..], t);
      var t0 := Trim(pieces[0]);
      assert TrimAll(pieces) == [t0] + TrimAll(pieces[1..]);
    }
  }

  /** Every piece whose trim is non-empty is kept, trimmed. */
  lemma NonEmptyPieceKept(pieces: seq<string>, i: nat)
    requires i < |pieces| && Trim(pieces[i]) != []
    ensures Trim(pieces[i]) in TrimAndDropEmpty(pieces)
  {
    TrimAndDropEmptyCount(pieces, Trim(pieces[i]));
    assert TrimAll(pieces)[i] == Trim(pieces[i]);
    assert Trim(pieces[i]) in multiset(TrimAll(pieces));
  }

  /** Trimming adds no commas. */
  lemma {:induction false} CommaFreeKept(pieces: seq<string>)
    requires forall p :: p in pieces ==> ',' !in p
    ensures forall t :: t in TrimAndDropEmpty(pieces) ==> ',' !in t
    decreases |pieces|
  {
    if pieces != [] {
      var t := Trim(pieces[0]);
      assert pieces[0] in pieces;
      assert forall p :: p in pieces[1..] ==> p in pieces;
      CommaFreeKept(pieces[1..]);
    }
  }

  /** The tag list of the insert: `tags.split(',')`, trimmed, empties dropped. */
  function ParseTags(input: string): (tags: seq<string>)
    ensures forall t :: t in tags ==> IsTag(t)
    ensures |tags| <= |Split(input, ',')|
  {
    CommaFreeKept(Split(input, ','));
    TrimAndDropEmpty(Split(input, ','))
  }

  /** The tags of any field are its comma-separated segments, which join
      back to the field, trimmed, with the empty ones dropped and the rest
      kept in order and with repetitions. */
  lemma ParseTagsIsOrderedFilter(input: string)
    ensures Join(Split(input, ','), ',') == input
    ensures IsSubsequence(ParseTags(input), TrimAll(Split(input, ',')))
    ensures forall t :: t != [] ==> multiset(ParseTags(input))[t] == multiset(TrimAll(Split(input, ',')))[t]
    ensures forall i :: 0 <= i < |Split(input, ',')| && Trim(Split(input, ',')[i]) != [] ==>
              Trim(Split(input, ',')[i]) in ParseTags(input)
  {
    JoinSplit(input, ',');
    var pieces := Split(input, ',');
    TrimAndDropEmptyIsOrdered(pieces);
    forall t | t != [] ensures multiset(ParseTags(input))[t] == multiset(TrimAll(pieces))[t] {
      TrimAndDropEmptyCount(pieces, t);
    }
    forall i | 0 <= i < |pieces| && Trim(pieces[i]) != [] ensures Trim(pieces[i]) in ParseTags(input) {
      NonEmptyPieceKept(pieces, i);
    }
  }

  /** A well-formed first piece is kept as it is. */
  lemma HeadTagKept(pieces: seq<string>)
    requires pieces != [] && IsTag(pieces[0])
    ensures TrimAndDropEmpty(pieces) == [pieces[0]] + TrimAndDropEmpty(pieces[1..])
  {
    TrimOfTrimmed(pieces[0]);
  }

  /** Tags that are already well formed pass through unchanged, in order and
      with repetitions. */
  lemma {:induction false} WellFormedTagsKept(tags: seq<string>)
    requires forall t :: t in tags ==> IsTag(t)
    ensures TrimAndDropEmpty(tags) == tags
    decreases |tags|
  {
    if tags != [] {
      WellFormedTagsKept(tags[1..]);
      HeadTagKept(tags);
      assert tags == [tags[0]] + tags[1..];
    }
  }

  /** Parsing comma-joined pieces trims each piece and drops the empty ones,
      keeping the order of the rest. */
  lemma ParseJoinedPieces(pieces: seq<string>)
    requires |pieces| >= 1
    requires forall p :: p in pieces ==> ',' !in p
    ensures ParseTags(Join(pieces, ',')) == TrimAndDropEmpty(pieces)
  {
    SplitJoin(pieces, ',');
  }

  /** Round trip: parsing the comma-joined text of any list of well-formed
      tags gives that list back, so parsing neither reorders nor
      deduplicates. The empty list joins to "" and parses to []. */
  lemma ParseJoinedTags(tags: seq<string>)
    requires forall t :: t in tags ==> IsTag(t)
    ensures ParseTags(Join(tags, ',')) == tags
  {
    if tags == [] {
      assert Split([], ',') == [[]];
      assert Trim([]) == [];
    } else {
      ParseJoinedPieces(tags);
      WellFormedTagsKept(tags);
    }
  }

  /** The field's example: `"bug, feature,  , urgent"` gives bug, feature,
      urgent, and an empty field gives no tags. */
  lemma ParseTagsExample()
    ensures ParseTags("bug, feature,  , urgent") == ["bug", "feature", "urgent"]
    ensures ParseTags("") == []
  {
    ParseJoinedTags([]);
    ExampleSplit();
    ExampleCleaned();
  }

  /** The example text is the comma-join of its four raw pieces. */
  lemma ExampleSplit()
    ensures ParseTags("bug, feature,  , urgent") == TrimAndDropEmpty(["bug", " feature", "  ", " urgent"])
  {
    var pieces := ["bug", " feature", "  ", " urgent"];
    assert Join(pieces, ',') == "bug, feature,  , urgent";
    ParseJoinedPieces(pieces);
  }

  /** Trimming the example's pieces drops the blank one. */
  lemma ExampleCleaned()
    ensures TrimAndDropEmpty(["bug", " feature", "  ", " urgent"]) == ["bug", "feature", "urgent"]
  {
    assert Trim("bug") == "bug";
    assert Trim(" feature") == "feature";
    assert Trim("  ") == [];
    assert Trim(" urgent") == "urgent";
    FourPiecesCleaned("bug", " feature", "  ", " urgent", "feature", "urgent");
  }

  /** Four pieces: one kept, two trimmed, one dropped. */
  lemma FourPiecesCleaned(a: string, b: string, c: string, d: string, b': string, d': string)
    requires a != [] && Trim(a) == a && Trim(b) == b' && b' != [] && Trim(c) == [] && Trim(d) == d' && d' != []
    ensures TrimAndDropEmpty([a, b, c, d]) == [a, b', d']
  {
    var r3 := [d] + [];
    var r2 := [c] + r3;
    var r1 := [b] + r2;
    KeptPiece(d', [], d);
    KeptPiece([], r3, c);
    KeptPiece(b', r2, b);
    KeptPiece(a, r1, a);
    assert [a] + r1 == [a, b, c, d];
  }

  /** One step of `TrimAndDropEmpty`: the first piece's trim is kept unless empty. */
  lemma KeptPiece(t: string, rest: seq<string>, p: string)
    requires Trim(p) == t
    ensures TrimAndDropEmpty([p] + rest) == (if t == [] then [] else [t]) + TrimAndDropEmpty(rest)
  {
    assert ([p] + rest)[1..] == rest;
  }

  /** `value || null` on a text field: the empty string becomes null and any
      other value is kept, so `GetOr("")` undoes it. */
  function NullIfEmpty(s: string): (r: Option<string>)
    ensures r.None? <==> s == []
    ensures r.GetOr("") == s
  {
    if s == [] then None else Some(s)
  }

  /** The insert record of `handleSubmit`: the text fields copied, the tag
      field parsed, an empty team or due date sent as null, and the current
      user as creator. */
  function BuildInsert(form: FormData, userId: Option<string>): (r: TaskInsert)
    ensures r.title == form.title && r.description == form.description
    ensures r.status == form.status && r.priority == form.priority
    ensures r.team_id.GetOr("") == form.team_id && r.team_id != Some("")
    ensures r.due_date.GetOr("") == form.due_date && r.due_date != Some("")
    ensures r.tags == ParseTags(form.tags) && forall t :: t in r.tags ==> IsTag(t)
    ensures r.created_by == userId
  {
    TaskInsert(form.title, form.description, form.status, form.priority,
               NullIfEmpty(form.team_id), ParseTags(form.tags), NullIfEmpty(form.due_date), userId)
  }

  /** `error.message || 'Failed to create task'`: the error's own message when
      it has a non-empty one, the fallback otherwise; never empty. */
  function FailureText(message: Option<string>): (text: string)
    ensures text != []
    ensures message.Some? && message.value != [] ==> text == message.value
    ensures message.None? || message.value == [] ==> text == CreateFailedText
  {
    if message.Some? && message.value != [] then message.value else CreateFailedText
  }

  /** The outcome of the insert; a failure may carry the store's message. */
  datatype InsertOutcome = Inserted | InsertFailed(message: Option<string>)

  /** The dialog's component state. `open` stands for the parent's
      `onOpenChange` and `successCalls` counts the `onSuccess` callbacks. */
  class CreateTaskDialog {
    var open: bool
    var loading: bool
    var formData: FormData
    var toasts: seq<Toast>
    var successCalls: nat

    constructor (open: bool)
      ensures this.open == open && !loading && formData == DefaultForm
      ensures toasts == [] && successCalls == 0
    {
      this.open := open;
      loading := false;
      formData := DefaultForm;
      toasts := [];
      successCalls := 0;
    }

    /** `handleSubmit` up to the insert: loading starts, and the record to
        insert is built from the form, which is left as it is. */
    method BeginSubmit(userId: Option<string>) returns (record: TaskInsert)
      modifies this`loading
      ensures loading
      ensures record == BuildInsert(formData, userId)
    {
      loading := true;
      record := BuildInsert(formData, userId);
    }

    /** The continuation of `handleSubmit` once the insert has answered. On
        success the dialog closes, `onSuccess` runs and the form is reset;
        on failure the form is kept and the error is shown. Loading ends
        on both paths. */
    method FinishSubmit(outcome: InsertOutcome)
      modifies this
      ensures !loading
      ensures outcome.Inserted? ==>
                && !open && formData == DefaultForm
                && successCalls == old(successCalls) + 1
                && toasts == old(toasts) + [Success(CreatedText)]
      ensures outcome.InsertFailed? ==>
                && open == old(open) && formData == old(formData)
                && successCalls == old(successCalls)
                && toasts == old(toasts) + [Error(FailureText(outcome.message))]
    {
      if outcome.Inserted? {
        toasts := toasts + [Success(CreatedText)];
        open := false;
        successCalls := successCalls + 1;
        formData := DefaultForm;
      } else {
        toasts := toasts + [Error(FailureText(outcome.message))];
      }
      loading := false;
    }
  }
}
