# cli-todo: a verified model of the todo command dispatcher

`todo.js` is a command-line todo list. It reads one command word and some argument tokens. It
dispatches to `add`, `list`, `update`, `delete` or `complete` over the documents of an embedded
nedb store, prints one result, and exits. Each document has a `text`, a `completed` flag and an
`_id` assigned by the store. Positions are 1-based and are not stored: every position-addressed
command enumerates the collection again and resolves the position against that enumeration.

The model has five modules:

- `Wrappers`: the `Option` type. `None` stands for NaN as returned by `parseInt`.
- `Text`: `args.join(" ")` (`Join`) and `String.prototype.trim` (`Trim`), with their
  composition `NormalizeText`. This is the text check of `add` and `update`.
- `Numbers`: the decimal rendering of a position (`NatToString`) and `parseInt(s, 10)`
  (`ParseInt`). `ParseInt` skips leading white space, reads an optional sign and then the longest
  run of digits.
- `TodoModel`: the pure part. It holds the `Todo` record, `validateIndex`, the inline range
  guard of `delete` and `complete`, and the store's `_id`-filtered `remove` and `update` on a
  sequence of records. It also holds the position-based operations those filters amount to
  (`RemoveAt` and `ToggleAt`), plus the printed lines.
- `TodoCli`: the class `TodoStore`, which stands in for the nedb `Datastore`. It has a `seq<Todo>`
  field in enumeration order and a fresh-`_id` counter. Each `switch` branch is one method, and
  `Run` is the `switch` itself. `add`, `delete` and `complete` update the fields in place.
  `list` builds its lines in a loop, as `docs.forEach` does. `update` has no `modifies` clause,
  because the source never changes the store there.

The invariant `TodoStore.Valid` (the pure `TodoModel.StoreInvariant` of its fields) says three things. `_id`s increase along the enumeration. They
stay below the counter. Every stored text is non-empty and trimmed. Every mutating method keeps
this invariant. Because `_id`s are distinct, removing or updating "the document with this
`_id`" acts on exactly the record at the resolved position (`RemoveWhereIdIsRemoveAt`,
`SetCompletedWhereIdIsToggleAt`).

The header comment of todo.js (lines 3-6) promises creating, reading, updating and deleting todos.
The model follows the code as written, and where the code does less or other than that, so does
the model:

- `update` validates its text and its position and then stops (todo.js:74 is only a comment).
  The model never replaces the text. `TodoCli.Session` shows a listing after an update that still
  has the old text.
- When `validateIndex` fails inside `update`, it throws inside the `db.find` callback. The
  surrounding `try`/`catch` does not catch that throw, so the process ends with an uncaught
  `Error: Invalid index.`. The model reports this outcome as the single output line
  `Invalid index.`.
- The usage message for an unknown command lists only `add`, `list`, `update` and `delete`,
  not `complete`. The model keeps that text.
- `delete` and `complete` compare the index inline instead of calling `validateIndex`, and a
  comparison with NaN is false. A non-numeric position therefore passes their guard, and
  `docs[NaN]._id` then throws a TypeError (`GuardDiffersOnlyOnNaN`). The model requires a numeric
  position for these two commands.

## Model

| member | source | states |
|---|---|---|
| `Text.TrimStartSuffix` | todo.js:34 | the left half of `trim` keeps the longest suffix that does not start with white space, and what it drops is all white space |
| `Text.TrimEndPrefix` | todo.js:34 | the right half of `trim` keeps the longest prefix that does not end with white space, and what it drops is all white space |
| `Text.Trim` | todo.js:34 | the trimmed text has no white space at either end, and it is empty exactly when the input is blank |
| `Text.TrimIsInfix` | todo.js:34 | the trimmed text is an infix of the input, with only white space before and after it |
| `Text.TrimFixedPoints` | todo.js:34 | trimming leaves a string unchanged exactly when it is already trimmed, so trimming is idempotent |
| `Text.Join` | todo.js:34 | definition: `args.join(" ")` is the empty string for no arguments, the argument itself for one, and otherwise the first argument, one space and the join of the rest |
| `Text.JoinBlank` | todo.js:34 | `args.join(" ")` is blank exactly when every argument is blank |
| `Text.NormalizeText` | todo.js:34-35 | `args.join(" ").trim()` is trimmed, and it is empty (so `add` refuses it) exactly when every argument is blank |
| `Numbers.NatToString` | todo.js:58 | a rendered position is a non-empty run of decimal digits with no leading zero |
| `Numbers.DigitsValueOfNatToString` | todo.js:58 | reading the digits of a rendered position gives back the position |
| `Numbers.DigitPrefix` | todo.js:82 | `parseInt` stops at the longest prefix of digits: what follows is not a digit |
| `Numbers.ParseInt` | todo.js:66 | definition: `parseInt(s, 10)` skips the leading white space of `s` and reads the rest with `ParseSigned` |
| `Numbers.ParseSigned` | todo.js:82 | definition: an optional `+` or `-`, then the longest run of digits; no digits is NaN (`None`), and `-` negates the value |
| `Numbers.ParseRendered` | todo.js:82 | `parseInt` of a rendered number followed by any non-digit text gives that number |
| `Numbers.ParseRenderedNegative` | todo.js:82 | `parseInt` of `-` and a rendered number gives its negation |
| `Numbers.ParseNoDigits` | todo.js:82 | `parseInt` of text without any digit is NaN |
| `TodoModel.ValidateIndex` | todo.js:24-28 | passes exactly when the index is a number in `[0, max)`, and otherwise fails with "Invalid index." (NaN, negative and too-large indices alike) |
| `TodoModel.GuardRejects` | todo.js:84 | definition: the inline guard (`index < 0` or `index >= docs.length`) rejects a number outside `[0, count)` and, since comparisons with NaN are false, never rejects NaN |
| `TodoModel.ArgPosition` | todo.js:82 | definition: `parseInt(args[0], 10)`; a missing first argument is `undefined`, which parses as NaN |
| `TodoModel.GuardDiffersOnlyOnNaN` | todo.js:84 | the inline guard of `delete` and `complete` rejects the same numbers as `validateIndex`, and lets NaN through where `validateIndex` rejects it |
| `TodoModel.TypedPositionValid` | todo.js:82-84 | a typed 1-based position `p` becomes index `p - 1`, which passes both checks exactly when `1 <= p <= count` |
| `TodoModel.BadPositionsRejected` | todo.js:24-28 | negative positions, text without digits and a missing argument all fail `validateIndex` |
| `TodoModel.RemoveWhereId` | todo.js:88 | removing by `_id` leaves no document with that `_id` and never grows the collection |
| `TodoModel.SetCompletedWhereId` | todo.js:108-111 | `$set` by `_id` gives every matching document the new flag and leaves every other document as it was |
| `TodoModel.RemoveAt` | todo.js:87-88 | removing a position shortens the collection by one, keeps the records before it, and moves each later record up one place |
| `TodoModel.RemoveAtMultiset` | todo.js:87-88 | removing a position loses that record and no other |
| `TodoModel.ToggleAt` | todo.js:107-110 | completing a position negates only that record's flag; its text and `_id`, every other record and the length are unchanged |
| `TodoModel.AppendKeepsInvariant` | todo.js:38-39 | inserting a pending record with a non-blank trimmed text under the fresh `_id` keeps the `_id`s increasing and below the advanced counter, and every text stored trimmed and non-empty |
| `TodoModel.RemoveAtKeepsInvariant` | todo.js:87-88 | removing the record at a position keeps the store invariant |
| `TodoModel.ToggleAtKeepsInvariant` | todo.js:107-110 | negating the flag at a position keeps the store invariant |
| `TodoModel.RemoveWhereIdIsRemoveAt` | todo.js:87-88 | with increasing `_id`s, removing by the `_id` of the record at a position is removing that position |
| `TodoModel.SetCompletedWhereIdIsToggleAt` | todo.js:107-110 | with increasing `_id`s, setting the negated flag by the `_id` of the record at a position is toggling that position |
| `TodoModel.ToggleAtTwice` | todo.js:110 | completing the same position twice restores the collection |
| `TodoModel.StatusMark` | todo.js:57 | definition: `[x]` for a completed record and `[ ]` for a pending one |
| `TodoModel.ListLine` | todo.js:58 | definition: the decimal position, `. `, the status mark, one space and the text |
| `TodoModel.ListOutput` | todo.js:52-59 | an empty collection prints "No todos found."; otherwise "Todo List:" then line k is `k. [x] text` or `k. [ ] text` for the k-th record in enumeration order |
| `TodoModel.AddedMessage` | todo.js:41 | definition: `Added todo: "<text>"` |
| `TodoModel.DeletedMessage` | todo.js:92-94 | definition: `Deleted todo <position>: "<text>"` |
| `TodoModel.MarkedMessage` | todo.js:116-119 | definition: `Marked todo <position> as completed.` or `... as pending.`, by the new flag |
| `TodoModel.AddOutput` | todo.js:34-44 | definition: the refusal of blank text, or the added message for the trimmed text |
| `TodoModel.UpdateOutput` | todo.js:66-77 | definition: the refusal of blank text, else the `validateIndex` message, else nothing |
| `TodoModel.DeleteOutput` | todo.js:82-94 | definition: for a numeric position p, the deleted message quoting record p when `1 <= p <= count`, else "Invalid index for delete." |
| `TodoModel.CompleteOutput` | todo.js:102-120 | definition: for a numeric position p, the marked message for record p's negated flag when `1 <= p <= count`, else "Invalid index for completion." |
| `TodoModel.ListOfOne` | todo.js:55-58 | the listing of one record, written out |
| `TodoModel.ListedPositionResolves` | todo.js:56-58 | the number at the head of listed line k parses back as k, and as a position argument it passes the guard and `validateIndex` |
| `TodoModel.PositionResolves` | todo.js:82-84 | an argument that `parseInt` reads as a position `k` with `1 <= k <= count` becomes index `k - 1`, which passes both the inline guard and `validateIndex` |
| `TodoModel.ListAfterAppend` | todo.js:38-58 | after an append, the listing keeps every earlier line and shows the new record last |
| `TodoModel.ListAfterRemove` | todo.js:56-58 | after a removal, each later record is listed one position higher |
| `TodoCli.TodoStore.constructor` | todo.js:16-19 | a store over an empty database is valid and holds no records |
| `TodoCli.TodoStore.Add` | todo.js:32-46 | blank text inserts nothing and reports "Error: Please provide a todo item."; otherwise exactly one pending record with the trimmed text and a fresh `_id` is appended, earlier records are unchanged, and `Added todo: "<text>"` is reported; the output is `AddOutput` |
| `TodoCli.TodoStore.List` | todo.js:48-62 | the loop over the enumeration prints exactly the listing, and changes nothing |
| `TodoCli.TodoStore.Update` | todo.js:64-79 | blank replacement text is reported first, whatever the position; otherwise "Invalid index." exactly when `validateIndex` fails, and nothing at all when it passes, which is `UpdateOutput`; the store is never changed |
| `TodoCli.TodoStore.Delete` | todo.js:81-99 | for `1 <= p <= count`, the record at p is removed and `Deleted todo p: "<text>"` is reported; otherwise nothing changes and "Invalid index for delete." is reported; the output is `DeleteOutput` of the store before the call |
| `TodoCli.TodoStore.Complete` | todo.js:101-126 | for `1 <= p <= count`, the record at p has its flag negated and `Marked todo p as completed.` or `... as pending.` is reported for the new flag; otherwise nothing changes and "Invalid index for completion." is reported; the output is `CompleteOutput` of the store before the call |
| `TodoCli.Run` | todo.js:31-132 | only `add`, `delete` and `complete` change the store, each as its branch describes; each of the five commands prints what its branch prints (`AddOutput`, the listing, `UpdateOutput`, `DeleteOutput`, `CompleteOutput`); an unknown command prints the usage message; the store invariant holds afterwards |
| `TodoCli.CompleteTwice` | todo.js:101-126 | running `complete` twice with the same argument restores the store |
| `TodoCli.Session` | todo.js:31-132 | from an empty store, add, list, complete, list, update, list, delete, list prints the expected listings; the update leaves the text as it was |

## Left out

- Splitting `process.argv` into a command and its arguments (todo.js:22): `Run` takes the
  command and the argument list as inputs.
- The nedb `Datastore`, its `autoload` and its persistence to `todos.db` (todo.js:9-19). The
  collection is an in-memory sequence, and the fresh `_id`s come from a counter. nedb's random
  `_id`s give some fixed enumeration order; with counter `_id`s that order is insertion order.
- TodoCli.TodoStore.Add: the new record is always listed last. nedb's `find({})` without a sort
  returns documents in the order of its `_id` index, and nedb's `_id`s are random, so after `add`
  the source may list the new todo at any position. The model's counter makes every fresh `_id` the
  largest, so its enumeration order is insertion order. The order itself comes from nedb, which is
  not part of this model.
- TodoModel.ListAfterAppend: shows the new record last for the same reason; in the source the new
  line may appear at any position, and the positions of later lines shift by one.
- The commented-out JSON file path (todo.js:13): it is dead code.
- Errors from the store (`err` in the callbacks at todo.js:39-40, 50-51, 72, 84, 88-90 and
  112-114). The store is treated as synchronous and never failing, and the asynchronous callback
  structure is flattened into straight-line code.
- TodoCli.TodoStore.Delete: requires a numeric position. In the source a non-numeric position
  passes the inline guard and crashes with a TypeError on `docs[NaN]._id`.
- TodoCli.TodoStore.Complete: requires a numeric position, for the same reason as `delete`.
- TodoCli.Run: inherits those two requirements for `delete` and `complete`.
- The standard output and standard error channels of `console.log` and `console.error`: each
  command returns its printed lines as strings. An uncaught exception is reported as its message
  only, without the stack trace.
- Non-ASCII white space in `trim` and `parseInt` (no-break space, line and paragraph separators,
  byte order mark and the other Unicode space separators): only the six ASCII white space
  characters count as white space.
- JavaScript numbers are doubles, so `parseInt` of more than fifteen digits is rounded. Positions
  are unbounded integers in the model. A rounded position is still far outside any collection,
  so this does not change which commands are rejected.
- TodoModel.RemoveWhereId: its own contract says only that no document with the `_id` remains.
  Its exact result, for the distinct `_id`s the store keeps, is stated by
  `RemoveWhereIdIsRemoveAt`.
