/** The command dispatcher of todo.js over its document store. The store is an in-memory
    sequence of records in enumeration order plus the next fresh `_id`; each `switch` branch is a
    method that enumerates the records, resolves the position and then mutates one record or
    rejects the command without changing anything. */
module TodoCli {
  import opened Wrappers
  import opened Text
  import opened Numbers
  import opened TodoModel

  class TodoStore {
    /** The documents as `db.find({})` enumerates them. */
    var todos: seq<Todo>
    /** An `_id` no document has had yet. */
    var nextId: nat

    /** `_id`s increase along the enumeration and are below `nextId`; every text is stored trimmed
        and non-empty. */
    ghost predicate Valid()
      reads this
    {
      StoreInvariant(todos, nextId)
    }

    /** A store over an empty database file. */
    constructor ()
      ensures Valid() && todos == [] && nextId == 0
    {
      todos := [];
      nextId := 0;
    }

    /** `add` (todo.js:32-46): insert the joined, trimmed text as a pending record, or report that
        the text is missing and insert nothing. */
    method Add(args: seq<string>) returns (out: seq<string>)
      requires Valid()
      modifies this
      ensures Valid()
      ensures var text := NormalizeText(args);
        if text == [] then
          todos == old(todos) && nextId == old(nextId) && out == [AddNoText]
        else
          todos == old(todos) + [Todo(old(nextId), text, false)] && nextId > old(nextId) &&
          out == [AddedMessage(text)]
      ensures out == AddOutput(args)
    {
      var text := NormalizeText(args);
      if text == [] {
        out := [AddNoText];
        return;
      }
      var doc := Todo(nextId, text, false);
      AppendKeepsInvariant(todos, nextId, text);
      todos := todos + [doc];
      nextId := nextId + 1;
      out := [AddedMessage(doc.text)];
    }

    /** `list` (todo.js:48-62): the header and one line per record in enumeration order, or the
        empty-collection message. */
    method List() returns (out: seq<string>)
      ensures out == ListOutput(todos)
    {
      var docs := todos;
      if |docs| == 0 {
        out := [NoTodos];
        return;
      }
      out := [ListHeader];
      var index := 0;
      while index < |docs|
        invariant 0 <= index <= |docs|
        invariant |out| == index + 1 && out[0] == ListHeader
        invariant forall k :: 1 <= k <= index ==> out[k] == ListLine(k, docs[k - 1])
      {
        var status := StatusMark(docs[index].completed);
        var line := NatToString(index + 1) + ". " + status + " " + docs[index].text;
        assert line == ListLine(index + 1, docs[index]);
        out := out + [line];
        index := index + 1;
      }
    }

    /** `update` (todo.js:64-79): the replacement text is checked first, then the position; the
        mutation itself is absent, so the store is never changed (this method modifies nothing). */
    method Update(args: seq<string>) returns (out: seq<string>)
      ensures out == [UpdateNoText] <==> NormalizeText(Rest(args)) == []
      ensures out == [InvalidIndexError] <==>
        NormalizeText(Rest(args)) != [] && ValidateIndex(ArgIndex(args), |todos|).Fail?
      ensures out == [] <==>
        NormalizeText(Rest(args)) != [] && ValidateIndex(ArgIndex(args), |todos|) == Pass
      ensures out == UpdateOutput(args, |todos|)
    {
      var updateIndex := ArgIndex(args);
      var newText := NormalizeText(Rest(args));
      if newText == [] {
        out := [UpdateNoText];
        return;
      }
      var docs := todos;
      var check := ValidateIndex(updateIndex, |docs|);
      if check.Fail? {
        out := [check.error];
        return;
      }
      out := [];
    }

    /** `delete` (todo.js:81-99) for a numeric position: the record at that position is removed
        by its `_id`, or an out-of-range position is reported and nothing changes. */
    method Delete(args: seq<string>) returns (out: seq<string>)
      requires Valid()
      requires ArgPosition(args).Some?
      modifies this
      ensures Valid() && nextId == old(nextId)
      ensures var p := ArgPosition(args).value;
        if 1 <= p <= |old(todos)| then
          todos == RemoveAt(old(todos), p - 1) && out == [DeletedMessage(p, old(todos)[p - 1].text)]
        else
          todos == old(todos) && out == [DeleteInvalid]
      ensures out == DeleteOutput(args, old(todos))
    {
      var deleteIndex := ArgIndex(args);
      assert deleteIndex == Some(ArgPosition(args).value - 1);
      var docs := todos;
      if GuardRejects(deleteIndex, |docs|) {
        out := [DeleteInvalid];
        return;
      }
      var i := deleteIndex.value;
      var todoToDelete := docs[i];
      assert DeleteOutput(args, docs) == [DeletedMessage(i + 1, todoToDelete.text)];
      RemoveWhereIdIsRemoveAt(docs, i);
      RemoveAtKeepsInvariant(docs, nextId, i);
      todos := RemoveWhereId(todos, todoToDelete.id);
      out := [DeletedMessage(i + 1, todoToDelete.text)];
    }

    /** `complete` (todo.js:101-126) for a numeric position: the flag of the record at that
        position is set to its negation by `_id`, or an out-of-range position is reported and
        nothing changes. */
    method Complete(args: seq<string>) returns (out: seq<string>)
      requires Valid()
      requires ArgPosition(args).Some?
      modifies this
      ensures Valid() && nextId == old(nextId)
      ensures var p := ArgPosition(args).value;
        if 1 <= p <= |old(todos)| then
          todos == ToggleAt(old(todos), p - 1) &&
          out == [MarkedMessage(p, !old(todos)[p - 1].completed)]
        else
          todos == old(todos) && out == [CompleteInvalid]
      ensures out == CompleteOutput(args, old(todos))
    {
      var completeIndex := ArgIndex(args);
      assert completeIndex == Some(ArgPosition(args).value - 1);
      var docs := todos;
      if GuardRejects(completeIndex, |docs|) {
        out := [CompleteInvalid];
        return;
      }
      var i := completeIndex.value;
      var todoToComplete := docs[i];
      assert CompleteOutput(args, docs) == [MarkedMessage(i + 1, !todoToComplete.completed)];
      SetCompletedWhereIdIsToggleAt(docs, i);
      ToggleAtKeepsInvariant(docs, nextId, i);
      todos := SetCompletedWhereId(todos, todoToComplete.id, !todoToComplete.completed);
      out := [MarkedMessage(i + 1, !todoToComplete.completed)];
    }
  }

  /** Is `command` one of the five commands the dispatcher handles? */
  predicate IsCommand(command: string) {
    command == "add" || command == "list" || command == "update" ||
    command == "delete" || command == "complete"
  }

  /** The `switch (command)` of todo.js:31-132. Only `add`, `delete` and `complete` change the
      store; every other command, and an unknown one, leaves it as it was. */
  method Run(db: TodoStore, command: string, args: seq<string>) returns (out: seq<string>)
    requires db.Valid()
    requires command == "delete" || command == "complete" ==> ArgPosition(args).Some?
    modifies db
    ensures db.Valid()
    ensures command != "add" && command != "delete" && command != "complete" ==>
      db.todos == old(db.todos) && db.nextId == old(db.nextId)
    ensures command == "add" ==> out == AddOutput(args)
    ensures command == "list" ==> out == ListOutput(db.todos)
    ensures command == "update" ==> out == UpdateOutput(args, |db.todos|)
    ensures command == "delete" ==> out == DeleteOutput(args, old(db.todos))
    ensures command == "complete" ==> out == CompleteOutput(args, old(db.todos))
    ensures !IsCommand(command) ==> out == [Usage]
    ensures command == "add" ==>
      db.todos == (if NormalizeText(args) == [] then old(db.todos)
                   else old(db.todos) + [Todo(old(db.nextId), NormalizeText(args), false)])
    ensures command == "delete" ==>
      var p := ArgPosition(args).value;
      db.todos == (if 1 <= p <= |old(db.todos)| then RemoveAt(old(db.todos), p - 1) else old(db.todos))
    ensures command == "complete" ==>
      var p := ArgPosition(args).value;
      db.todos == (if 1 <= p <= |old(db.todos)| then ToggleAt(old(db.todos), p - 1) else old(db.todos))
  {
    match command
    case "add" => out := db.Add(args);
    case "list" => out := db.List();
    case "update" => out := db.Update(args);
    case "delete" => out := db.Delete(args);
    case "complete" => out := db.Complete(args);
    case _ => out := [Usage];
  }

  /** Completing the same position twice restores the store. */
  method CompleteTwice(db: TodoStore, args: seq<string>) returns (first: seq<string>, second: seq<string>)
    requires db.Valid()
    requires ArgPosition(args).Some?
    modifies db
    ensures db.Valid() && db.todos == old(db.todos) && db.nextId == old(db.nextId)
  {
    first := db.Complete(args);
    second := db.Complete(args);
    var p := ArgPosition(args).value;
    if 1 <= p <= |old(db.todos)| {
      ToggleAtTwice(old(db.todos), p - 1);
    }
  }

  /** A session from an empty database: add, list, complete, list, update, list, delete, list.
      `one` is any argument that `parseInt` reads as 1, such as "1". The update is accepted, but as
      written it does not replace the text, so the third listing equals the second. */
  method Session(text: string, one: string) returns (lists: seq<seq<string>>)
    requires IsStoredText(text)
    requires ArgPosition([one]) == Some(1)
    ensures lists == [
      [ListHeader, "1. [ ] " + text],
      [ListHeader, "1. [x] " + text],
      [ListHeader, "1. [x] " + text],
      [NoTodos]]
  {
    var pending, done := Todo(0, text, false), Todo(0, text, true);
    ListOfOne(pending);
    ListOfOne(done);
    assert NormalizeText([text]) == text by {
      TrimFixedPoints(text);
    }
    var db := new TodoStore();
    var out := db.Add([text]);
    assert db.todos == [pending];
    var first := db.List();
    out := db.Complete([one]);
    assert db.todos == [done] by {
      assert db.todos == ToggleAt([pending], 0);
    }
    var second := db.List();
    out := db.Update([one, "oat", "milk"]);
    var third := db.List();
    out := db.Delete([one]);
    assert db.todos == [] by {
      assert db.todos == RemoveAt([done], 0);
    }
    var fourth := db.List();
    lists := [first, second, third, fourth];
  }
}
