/** The values of the todo CLI: the records kept by the document store, the position checks,
    the store's filter operations on records, and the lines the commands print. */
module TodoModel {
  import opened Wrappers
  import opened Text
  import opened Numbers

  /** A stored document: its text, its completion flag and the `_id` the store assigned. */
  datatype Todo = Todo(id: nat, text: string, completed: bool)

  /** The outcome of a check that either passes or throws an `Error` with a message. */
  datatype Outcome = Pass | Fail(error: string)

  const InvalidIndexError := "Invalid index."

  // ---------------------------------------------------------------------------------------------
  // Positions

  /** `validateIndex(index, max)` (todo.js:24-28): throws unless `index` is a number in `[0, max)`. */
  function ValidateIndex(index: Option<int>, max: int): (r: Outcome)
    ensures r == Pass <==> index.Some? && 0 <= index.value < max
    ensures r.Fail? ==> r.error == InvalidIndexError
  {
    if index.None? || index.value < 0 || index.value >= max then Fail(InvalidIndexError) else Pass
  }

  /** The inline guard of `delete` and `complete` (`index < 0 || index >= docs.length`): every
      comparison with NaN is false, so NaN is not rejected. */
  predicate GuardRejects(index: Option<int>, count: int) {
    index.Some? && (index.value < 0 || index.value >= count)
  }

  /** The inline guard and `validateIndex` agree on every number and differ only on NaN. */
  lemma GuardDiffersOnlyOnNaN(index: Option<int>, count: int)
    ensures GuardRejects(index, count) == ValidateIndex(index, count).Fail? <==> index.Some?
  {
  }

  /** `parseInt(args[0], 10)`: the 1-based position argument; a missing argument is NaN. */
  function ArgPosition(args: seq<string>): Option<int> {
    if |args| == 0 then None else ParseInt(args[0])
  }

  /** `parseInt(args[0], 10) - 1`: the 0-based index; NaN stays NaN. */
  function ArgIndex(args: seq<string>): Option<int> {
    match ArgPosition(args)
    case None => None
    case Some(p) => Some(p - 1)
  }

  /** `args.slice(1)`: the arguments after the position. */
  function Rest(args: seq<string>): seq<string> {
    if |args| == 0 then [] else args[1..]
  }

  /** The index of a typed 1-based position `p` passes the checks exactly when `1 <= p <= count`. */
  lemma TypedPositionValid(p: nat, count: nat)
    ensures ArgIndex([NatToString(p)]) == Some(p - 1)
    ensures ValidateIndex(ArgIndex([NatToString(p)]), count) == Pass <==> 1 <= p <= count
    ensures !GuardRejects(ArgIndex([NatToString(p)]), count) <==> 1 <= p <= count
  {
    ParseRendered(p, []);
    assert NatToString(p) + [] == NatToString(p);
  }

  /** Negative positions and text without digits are refused by `validateIndex`. */
  lemma BadPositionsRejected(n: nat, word: string, count: nat)
    requires forall i :: 0 <= i < |word| ==> !IsDigit(word[i])
    ensures ValidateIndex(ArgIndex(["-" + NatToString(n)]), count).Fail?
    ensures ValidateIndex(ArgIndex([word]), count).Fail?
    ensures ValidateIndex(ArgIndex([]), count).Fail?
  {
    ParseRenderedNegative(n);
    ParseNoDigits(word);
  }

  // ---------------------------------------------------------------------------------------------
  // The collection and the store's operations on it

  /** The store's `_id`s increase along the enumeration order, so they are distinct. */
  predicate IdsIncreasing(docs: seq<Todo>) {
    forall i, j :: 0 <= i < j < |docs| ==> docs[i].id < docs[j].id
  }

  /** `db.remove({ _id: id }, {})`: the document with that `_id` is removed. */
  function RemoveWhereId(docs: seq<Todo>, id: nat): (r: seq<Todo>)
    ensures |r| <= |docs|
    ensures forall k :: 0 <= k < |r| ==> r[k].id != id
  {
    if docs == [] then []
    else (if docs[0].id == id then [] else [docs[0]]) + RemoveWhereId(docs[1..], id)
  }

  /** `db.update({ _id: id }, { $set: { completed: b } }, {})`: the document with that `_id` gets
      the flag `b`; the others are untouched. */
  function SetCompletedWhereId(docs: seq<Todo>, id: nat, b: bool): (r: seq<Todo>)
    ensures |r| == |docs|
    ensures forall k :: 0 <= k < |r| ==>
      r[k] == if docs[k].id == id then docs[k].(completed := b) else docs[k]
  {
    if docs == [] then []
    else
      var first := if docs[0].id == id then docs[0].(completed := b) else docs[0];
      [first] + SetCompletedWhereId(docs[1..], id, b)
  }

  /** The collection without its record at 0-based `i`; later records move up one place. */
  function RemoveAt(docs: seq<Todo>, i: nat): (r: seq<Todo>)
    requires i < |docs|
    ensures |r| == |docs| - 1
    ensures forall k :: 0 <= k < i ==> r[k] == docs[k]
    ensures forall k :: i <= k < |r| ==> r[k] == docs[k + 1]
  {
    docs[..i] + docs[i + 1..]
  }

  /** The collection with the flag of its record at 0-based `i` negated, and nothing else changed. */
  function ToggleAt(docs: seq<Todo>, i: nat): (r: seq<Todo>)
    requires i < |docs|
    ensures |r| == |docs|
    ensures r[i].completed == !docs[i].completed
    ensures r[i].id == docs[i].id && r[i].text == docs[i].text
    ensures forall k :: 0 <= k < |r| && k != i ==> r[k] == docs[k]
  {
    docs[i := docs[i].(completed := !docs[i].completed)]
  }

  /** Removing by `_id` removes exactly the record at the resolved position. */
  lemma {:induction false} RemoveWhereIdIsRemoveAt(docs: seq<Todo>, i: nat)
    requires IdsIncreasing(docs) && i < |docs|
    ensures RemoveWhereId(docs, docs[i].id) == RemoveAt(docs, i)
  {
    var id := docs[i].id;
    var tail := docs[1..];
    IdsIncreasingTail(docs);
    if i == 0 {
      NoIdInRest(tail, id);
      assert RemoveWhereId(docs, id) == [] + RemoveWhereId(tail, id);
      assert RemoveAt(docs, 0) == tail;
    } else {
      assert docs[0].id < id;
      assert RemoveWhereId(docs, id) == [docs[0]] + RemoveWhereId(tail, id);
      assert tail[i - 1] == docs[i];
      RemoveWhereIdIsRemoveAt(tail, i - 1);
      RemoveAtCons(docs, i);
    }
  }

  /** Removing a later position keeps the first record in front. */
  lemma RemoveAtCons(docs: seq<Todo>, i: nat)
    requires 0 < i < |docs|
    ensures RemoveAt(docs, i) == [docs[0]] + RemoveAt(docs[1..], i - 1)
  {
    assert docs[..i] == [docs[0]] + docs[1..][..i - 1];
    assert docs[i + 1..] == docs[1..][i..];
  }

  /** The tail of an increasing sequence is increasing, and every `_id` in it is above the first. */
  lemma IdsIncreasingTail(docs: seq<Todo>)
    requires IdsIncreasing(docs) && docs != []
    ensures IdsIncreasing(docs[1..])
    ensures forall k :: 0 <= k < |docs| - 1 ==> docs[1..][k].id > docs[0].id
  {
    var tail := docs[1..];
    forall a, b | 0 <= a < b < |tail| ensures tail[a].id < tail[b].id {
      assert tail[a] == docs[a + 1] && tail[b] == docs[b + 1];
    }
    forall k | 0 <= k < |tail| ensures tail[k].id > docs[0].id {
      assert tail[k] == docs[k + 1];
    }
  }

  /** The removal loses the record at `i` and nothing else: the multiset of records drops by it. */
  lemma RemoveAtMultiset(docs: seq<Todo>, i: nat)
    requires i < |docs|
    ensures multiset(RemoveAt(docs, i)) + multiset{docs[i]} == multiset(docs)
  {
    assert docs == docs[..i] + [docs[i]] + docs[i + 1..];
  }

  /** Is `s` a stored text: neither empty nor padded with white space? */
  predicate IsStoredText(s: string) {
    s != [] && IsTrimmed(s)
  }

  /** The invariant of the store: `_id`s increase along the enumeration and are below the next
      fresh `_id`, and every text is stored trimmed and non-empty. */
  predicate StoreInvariant(docs: seq<Todo>, nextId: nat) {
    IdsIncreasing(docs) &&
    forall k :: 0 <= k < |docs| ==> docs[k].id < nextId && IsStoredText(docs[k].text)
  }

  /** `add` keeps the invariant: the new record takes the fresh `_id`, above every earlier one. */
  lemma AppendKeepsInvariant(docs: seq<Todo>, nextId: nat, text: string)
    requires StoreInvariant(docs, nextId) && IsStoredText(text)
    ensures StoreInvariant(docs + [Todo(nextId, text, false)], nextId + 1)
  {
    var r := docs + [Todo(nextId, text, false)];
    forall k | 0 <= k < |docs| ensures r[k] == docs[k] { }
  }

  /** `delete` keeps the invariant: a removal keeps the order of the remaining `_id`s. */
  lemma RemoveAtKeepsInvariant(docs: seq<Todo>, nextId: nat, i: nat)
    requires StoreInvariant(docs, nextId) && i < |docs|
    ensures StoreInvariant(RemoveAt(docs, i), nextId)
  {
    var r := RemoveAt(docs, i);
    forall a, b | 0 <= a < b < |r| ensures r[a].id < r[b].id {
      var a', b' := if a < i then a else a + 1, if b < i then b else b + 1;
      assert r[a] == docs[a'] && r[b] == docs[b'];
    }
    forall k | 0 <= k < |r| ensures r[k].id < nextId && IsStoredText(r[k].text) {
      assert r[k] == docs[if k < i then k else k + 1];
    }
  }

  /** `complete` keeps the invariant: toggling a flag changes no `_id` and no text. */
  lemma ToggleAtKeepsInvariant(docs: seq<Todo>, nextId: nat, i: nat)
    requires StoreInvariant(docs, nextId) && i < |docs|
    ensures StoreInvariant(ToggleAt(docs, i), nextId)
  {
    var r := ToggleAt(docs, i);
    assert forall k :: 0 <= k < |r| ==> r[k].id == docs[k].id && r[k].text == docs[k].text;
  }

  /** Removing an `_id` that no record carries changes nothing. */
  lemma {:induction false} NoIdInRest(docs: seq<Todo>, id: nat)
    requires forall k :: 0 <= k < |docs| ==> docs[k].id > id
    ensures RemoveWhereId(docs, id) == docs
  {
    if docs != [] {
      NoIdInRest(docs[1..], id);
    }
  }

  /** Setting the negated flag by `_id` toggles exactly the record at the resolved position. */
  lemma SetCompletedWhereIdIsToggleAt(docs: seq<Todo>, i: nat)
    requires IdsIncreasing(docs) && i < |docs|
    ensures SetCompletedWhereId(docs, docs[i].id, !docs[i].completed) == ToggleAt(docs, i)
  {
    var r := SetCompletedWhereId(docs, docs[i].id, !docs[i].completed);
    forall k | 0 <= k < |docs| ensures r[k] == ToggleAt(docs, i)[k] {
      if k < i { assert docs[k].id < docs[i].id; }
      if k > i { assert docs[i].id < docs[k].id; }
    }
  }

  /** Completing the same position twice restores the collection. */
  lemma ToggleAtTwice(docs: seq<Todo>, i: nat)
    requires i < |docs|
    ensures ToggleAt(ToggleAt(docs, i), i) == docs
  {
    var r := ToggleAt(ToggleAt(docs, i), i);
    assert forall k :: 0 <= k < |docs| ==> r[k] == docs[k];
  }

  // ---------------------------------------------------------------------------------------------
  // Printed lines

  const NoTodos := "No todos found."
  const ListHeader := "Todo List:"
  const AddNoText := "Error: Please provide a todo item."
  const UpdateNoText := "Error: Please provide new text for the todo."
  const DeleteInvalid := "Invalid index for delete."
  const CompleteInvalid := "Invalid index for completion."
  const Usage := "Invalid command. Use \"add\", \"list\", \"update\", or \"delete\"."

  function StatusMark(completed: bool): string {
    if completed then "[x]" else "[ ]"
  }

  /** `${index + 1}. ${status} ${todo.text}` for the record at 1-based `position`. */
  function ListLine(position: nat, t: Todo): string {
    NatToString(position) + LineAfterPosition(t)
  }

  /** The part of a listed line after its position: `. ${status} ${todo.text}`. */
  function LineAfterPosition(t: Todo): string {
    ". " + StatusMark(t.completed) + " " + t.text
  }

  /** What `list` prints for the enumerated collection (todo.js:52-59). */
  function ListOutput(docs: seq<Todo>): (r: seq<string>)
    ensures docs == [] ==> r == [NoTodos]
    ensures docs != [] ==> |r| == |docs| + 1 && r[0] == ListHeader
    ensures docs != [] ==> forall k :: 1 <= k <= |docs| ==> r[k] == ListLine(k, docs[k - 1])
  {
    if docs == [] then [NoTodos]
    else [ListHeader] + seq(|docs|, k requires 0 <= k < |docs| => ListLine(k + 1, docs[k]))
  }

  function AddedMessage(text: string): string {
    "Added todo: \"" + text + "\""
  }

  function DeletedMessage(position: nat, text: string): string {
    "Deleted todo " + NatToString(position) + ": \"" + text + "\""
  }

  function MarkedMessage(position: nat, completed: bool): string {
    "Marked todo " + NatToString(position) + " as " + (if completed then "completed" else "pending") + "."
  }

  /** What `add` prints (todo.js:34-44): the refusal of blank text, or the inserted text. */
  function AddOutput(args: seq<string>): seq<string> {
    var text := NormalizeText(args);
    if text == [] then [AddNoText] else [AddedMessage(text)]
  }

  /** What `update` prints (todo.js:66-77) against a collection of `count` documents: the refusal
      of blank text first, then the message `validateIndex` throws, and nothing when both pass. */
  function UpdateOutput(args: seq<string>, count: nat): seq<string> {
    if NormalizeText(Rest(args)) == [] then [UpdateNoText]
    else match ValidateIndex(ArgIndex(args), count)
      case Fail(message) => [message]
      case Pass => []
  }

  /** What `delete` prints (todo.js:82-94) for a numeric position over the enumerated `docs`. */
  function DeleteOutput(args: seq<string>, docs: seq<Todo>): seq<string>
    requires ArgPosition(args).Some?
  {
    var p := ArgPosition(args).value;
    if 1 <= p <= |docs| then [DeletedMessage(p, docs[p - 1].text)] else [DeleteInvalid]
  }

  /** What `complete` prints (todo.js:102-120) for a numeric position over the enumerated `docs`:
      the message names the flag the record now has. */
  function CompleteOutput(args: seq<string>, docs: seq<Todo>): seq<string>
    requires ArgPosition(args).Some?
  {
    var p := ArgPosition(args).value;
    if 1 <= p <= |docs| then [MarkedMessage(p, !docs[p - 1].completed)] else [CompleteInvalid]
  }

  /** Each listed line starts with its position, and that position typed back as the argument of
      `delete` or `complete` passes the guard and resolves to the record shown on the line. */
  lemma ListedPositionResolves(docs: seq<Todo>, k: nat)
    requires 1 <= k <= |docs|
    ensures ParseInt(ListOutput(docs)[k]) == Some(k)
    ensures ArgIndex([ListOutput(docs)[k]]) == Some(k - 1)
    ensures !GuardRejects(ArgIndex([ListOutput(docs)[k]]), |docs|)
    ensures ValidateIndex(ArgIndex([ListOutput(docs)[k]]), |docs|) == Pass
  {
    var line := ListOutput(docs)[k];
    assert line == ListLine(k, docs[k - 1]);
    ListLineParses(k, docs[k - 1]);
    PositionResolves(line, k, |docs|);
  }

  /** An argument that `parseInt` reads as an in-range position resolves to that index. */
  lemma PositionResolves(arg: string, k: int, count: int)
    requires ParseInt(arg) == Some(k) && 1 <= k <= count
    ensures ArgIndex([arg]) == Some(k - 1)
    ensures !GuardRejects(ArgIndex([arg]), count) && ValidateIndex(ArgIndex([arg]), count) == Pass
  {
    assert ArgPosition([arg]) == Some(k);
  }

  /** `parseInt` of a listed line reads its position. */
  lemma ListLineParses(k: nat, t: Todo)
    ensures ParseInt(ListLine(k, t)) == Some(k)
  {
    var rest := LineAfterPosition(t);
    assert rest[0] == '.';
    ParseRendered(k, rest);
  }

  /** The listing of a single record, written out. */
  lemma ListOfOne(t: Todo)
    ensures ListOutput([t]) == [ListHeader, (if t.completed then "1. [x] " else "1. [ ] ") + t.text]
  {
    var prefix := if t.completed then "1. [x] " else "1. [ ] ";
    assert ListLine(1, t) == prefix + t.text by {
      var mark := StatusMark(t.completed);
      assert NatToString(1) == "1";
      assert "1" + (". " + mark + " ") == prefix;
      assert LineAfterPosition(t) == (". " + mark + " ") + t.text;
      assert ListLine(1, t) == "1" + ((". " + mark + " ") + t.text);
    }
    var r := ListOutput([t]);
    assert |r| == 2 && r[0] == ListHeader && r[1] == ListLine(1, t);
    assert r == [r[0], r[1]];
  }

  /** After an append, the listing keeps every earlier line and shows the new record last. */
  lemma ListAfterAppend(docs: seq<Todo>, t: Todo)
    ensures var r := ListOutput(docs + [t]);
      |r| == |docs| + 2 && r[|docs| + 1] == ListLine(|docs| + 1, t) &&
      (docs != [] ==> r[..|docs| + 1] == ListOutput(docs))
  {
    var d := docs + [t];
    assert d[|docs|] == t;
    if docs != [] {
      var r := ListOutput(d);
      forall k | 1 <= k <= |docs| ensures r[k] == ListOutput(docs)[k] {
        assert d[k - 1] == docs[k - 1];
      }
    }
  }

  /** After a removal at position `p`, the line of every later record shows it one place up. */
  lemma ListAfterRemove(docs: seq<Todo>, i: nat, k: nat)
    requires i < |docs| && i + 1 <= k < |docs|
    ensures ListOutput(RemoveAt(docs, i))[k] == ListLine(k, docs[k])
  {
  }
}
