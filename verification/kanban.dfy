/** The board operations as functions on board values: what
    `move_action_item`, `delete_action_item`, `add_action_item`, clear-all
    and the CSV import do to the three buckets, the moves the UI offers,
    and the id-uniqueness each of them keeps. */
module Kanban {
  import opened Items
  import Store

  /** The position of the first item carrying `id`, or `|s|` when there is
      none: where the `for i, item in enumerate(...)` loops stop. */
  function FirstIndex(s: seq<ActionItem>, id: string): (k: nat)
    ensures k <= |s|
    ensures k < |s| ==> s[k].id == id
    ensures forall j :: 0 <= j < k ==> s[j].id != id
  {
    if s == [] then 0
    else if s[0].id == id then 0
    else 1 + FirstIndex(s[1..], id)
  }

  lemma FirstIndexFound(s: seq<ActionItem>, id: string)
    ensures FirstIndex(s, id) < |s| <==> id in IdsOf(s)
  {
    var k := FirstIndex(s, id);
    if k < |s| {
      assert IdsOf(s)[k] == id;
    }
    if id in IdsOf(s) {
      var j :| 0 <= j < |s| && IdsOf(s)[j] == id;
      assert s[j].id == id;
      assert k <= j;
    }
  }

  /** `s.pop(i)` for the first `i` whose item carries `id`; `s` itself when
      no item does. */
  function RemoveFirst(s: seq<ActionItem>, id: string): seq<ActionItem>
  {
    var k := FirstIndex(s, id);
    if k < |s| then s[..k] + s[k + 1..] else s
  }

  /** `move_action_item(id, from, to)`: the first item of `from` carrying
      `id` is popped and appended to `to`; without such an item the board
      is left as it was. Any pair of buckets is accepted, `from == to`
      included. */
  function Move(b: Board, id: string, from: Status, to: Status): (r: Board)
    ensures FirstIndex(b.Bucket(from), id) == |b.Bucket(from)| ==> r == b
    ensures r.Size() == b.Size()
    ensures forall t :: t != from && t != to ==> r.Bucket(t) == b.Bucket(t)
    ensures var s, k := b.Bucket(from), FirstIndex(b.Bucket(from), id);
      k < |s| && from != to ==>
        r.Bucket(from) == s[..k] + s[k + 1..] && r.Bucket(to) == b.Bucket(to) + [s[k]]
    ensures var s, k := b.Bucket(from), FirstIndex(b.Bucket(from), id);
      k < |s| && from == to ==> r.Bucket(to) == s[..k] + s[k + 1..] + [s[k]]
  {
    var s := b.Bucket(from);
    var k := FirstIndex(s, id);
    if k == |s| then b
    else
      var popped := b.With(from, s[..k] + s[k + 1..]);
      popped.With(to, popped.Bucket(to) + [s[k]])
  }

  /** `delete_action_item(id, status)`: the first item of that one bucket
      carrying `id` is removed, and nothing else changes. */
  function Delete(b: Board, id: string, status: Status): (r: Board)
    ensures forall t :: t != status ==> r.Bucket(t) == b.Bucket(t)
    ensures var s, k := b.Bucket(status), FirstIndex(b.Bucket(status), id);
      if k < |s| then r.Bucket(status) == s[..k] + s[k + 1..] else r == b
    ensures r.Size() == b.Size() - (if id in IdsOf(b.Bucket(status)) then 1 else 0)
  {
    FirstIndexFound(b.Bucket(status), id);
    b.With(status, RemoveFirst(b.Bucket(status), id))
  }

  /** Appending items to the end of `todo`: what `add_action_item`, the
      add form and the extraction button do. */
  function AppendTodo(b: Board, items: seq<ActionItem>): (r: Board)
    ensures |r.todo| == |b.todo| + |items|
    ensures r.todo[..|b.todo|] == b.todo && r.todo[|b.todo|..] == items
    ensures r.inProgress == b.inProgress && r.done == b.done
  {
    b.(todo := b.todo + items)
  }

  /** The item `add_action_item` builds. */
  function ManualItem(id: string, task: string, assignee: string, priority: string): ActionItem
  {
    ActionItem(id, task, assignee, "No deadline", priority, "Manually added")
  }

  /** The item the add form builds: an empty deadline field falls back to
      "No deadline". */
  function FormItem(id: string, task: string, assignee: string, priority: string, deadline: string): (item: ActionItem)
    ensures deadline == "" ==> item.deadline == "No deadline"
    ensures deadline != "" ==> item.deadline == deadline
    ensures item.id == id && item.task == task && item.assignee == assignee && item.priority == priority
    ensures item.context == "Manually added"
  {
    ActionItem(id, task, assignee, if deadline == "" then "No deadline" else deadline, priority, "Manually added")
  }

  /** The four moves the board's buttons offer. `move_action_item` itself
      accepts any pair; this relation is what a user can reach. */
  predicate Offered(from: Status, to: Status)
  {
    (from == Todo && to == InProgress) ||
    (from == InProgress && to == Todo) ||
    (from == InProgress && to == Done) ||
    (from == Done && to == InProgress)
  }

  /** No button moves directly between `todo` and `done` or within one
      bucket; every offered move can be undone by an offered move; and
      every bucket reaches every other in at most two offered moves. */
  lemma OfferedMoves()
    ensures !Offered(Todo, Done) && !Offered(Done, Todo)
    ensures forall s :: !Offered(s, s)
    ensures forall a, b :: Offered(a, b) <==> Offered(b, a)
    ensures forall a, b :: a != b ==> Offered(a, b) || (Offered(a, InProgress) && Offered(InProgress, b))
  {
  }

  // ---------------------------------------------------------------------
  // Ids

  /** Growing one bucket by some ids grows the board by the same ids. */
  lemma BoardIdsGrow(b: Board, s: Status, items: seq<ActionItem>, added: multiset<string>)
    requires multiset(IdsOf(items)) == multiset(IdsOf(b.Bucket(s))) + added
    ensures BoardIds(b.With(s, items)) == BoardIds(b) + added
  {
    match s
    case Todo =>
    case InProgress =>
    case Done =>
  }

  /** Shrinking one bucket by some ids shrinks the board by the same ids. */
  lemma BoardIdsShrink(b: Board, s: Status, items: seq<ActionItem>, removed: multiset<string>)
    requires multiset(IdsOf(items)) + removed == multiset(IdsOf(b.Bucket(s)))
    ensures BoardIds(b.With(s, items)) + removed == BoardIds(b)
  {
    match s
    case Todo =>
    case InProgress =>
    case Done =>
  }

  /** The ids of the board are those of the three buckets, so popping an
      item and appending it elsewhere keeps them all. */
  lemma MoveKeepsIds(b: Board, id: string, from: Status, to: Status)
    ensures BoardIds(Move(b, id, from, to)) == BoardIds(b)
  {
    var s := b.Bucket(from);
    var k := FirstIndex(s, id);
    if k < |s| {
      var rest := s[..k] + s[k + 1..];
      var popped := b.With(from, rest);
      IdsOfRemoveAt(s, k);
      BoardIdsShrink(b, from, rest, multiset{s[k].id});
      var moved := popped.Bucket(to) + [s[k]];
      assert Move(b, id, from, to) == popped.With(to, moved);
      IdsOfConcat(popped.Bucket(to), [s[k]]);
      assert IdsOf([s[k]]) == [s[k].id];
      BoardIdsGrow(popped, to, moved, multiset{s[k].id});
    }
  }

  lemma MoveKeepsUnique(b: Board, id: string, from: Status, to: Status)
    requires UniqueIds(b)
    ensures UniqueIds(Move(b, id, from, to))
  {
    MoveKeepsIds(b, id, from, to);
  }

  /** Deleting removes exactly one occurrence of `id` when the bucket holds
      it and nothing otherwise. */
  lemma DeleteIds(b: Board, id: string, status: Status)
    ensures BoardIds(Delete(b, id, status)) + (if id in IdsOf(b.Bucket(status)) then multiset{id} else multiset{})
      == BoardIds(b)
  {
    var s := b.Bucket(status);
    var k := FirstIndex(s, id);
    FirstIndexFound(s, id);
    if k < |s| {
      IdsOfRemoveAt(s, k);
      BoardIdsShrink(b, status, s[..k] + s[k + 1..], multiset{id});
    }
  }

  lemma DeleteKeepsUnique(b: Board, id: string, status: Status)
    requires UniqueIds(b)
    ensures UniqueIds(Delete(b, id, status))
  {
    var d := Delete(b, id, status);
    DeleteIds(b, id, status);
    forall x | x in BoardIds(d)
      ensures BoardIds(d)[x] == 1
    {
      assert x in BoardIds(b);
    }
  }

  /** Appending adds the new items' ids and keeps the rest. */
  lemma AppendTodoIds(b: Board, items: seq<ActionItem>)
    ensures BoardIds(AppendTodo(b, items)) == BoardIds(b) + multiset(IdsOf(items))
  {
    IdsOfConcat(b.todo, items);
  }

  /** Adding an item whose fresh id is not on the board keeps ids unique. */
  lemma AddFreshKeepsUnique(b: Board, item: ActionItem)
    requires UniqueIds(b) && item.id !in BoardIds(b)
    ensures UniqueIds(AppendTodo(b, [item]))
  {
    AppendTodoIds(b, [item]);
    assert IdsOf([item]) == [item.id];
  }

  /** Moving an item from `todo` to `in_progress` and on to `done` leaves
      it at the end of `done` and in no other bucket. */
  lemma TodoToDone(b: Board, k: nat)
    requires UniqueIds(b) && k < |b.todo|
    ensures var x := b.todo[k];
      var b2 := Move(Move(b, x.id, Todo, InProgress), x.id, InProgress, Done);
      b2.done == b.done + [x] && x.id !in IdsOf(b2.todo) && x.id !in IdsOf(b2.inProgress)
  {
    var x := b.todo[k];
    var k1 := FirstIndex(b.todo, x.id);
    UniqueWithinBucket(b, Todo, k1, k);
    var b1 := Move(b, x.id, Todo, InProgress);
    assert b1.inProgress == b.inProgress + [x];
    MoveKeepsIds(b, x.id, Todo, InProgress);
    MoveKeepsUnique(b, x.id, Todo, InProgress);
    var last := |b1.inProgress| - 1;
    assert b1.inProgress[last].id == x.id;
    var k2 := FirstIndex(b1.inProgress, x.id);
    UniqueWithinBucket(b1, InProgress, k2, last);
    var b2 := Move(b1, x.id, InProgress, Done);
    assert b2.done == b.done + [x];
    MoveKeepsIds(b1, x.id, InProgress, Done);
    assert IdsOf(b.todo)[k] == x.id;
    assert x.id in IdsOf(b.todo);
    assert BoardIds(b2)[x.id] == 1;
    assert IdsOf(b2.done)[|b2.done| - 1] == x.id;
    assert multiset(IdsOf(b2.done))[x.id] >= 1;
  }

  // ---------------------------------------------------------------------
  // CSV import

  /** One row of an uploaded CSV file, column name to cell. */
  type CsvRecord = map<string, string>

  /** The columns the import reads, in the order the loop reads them. */
  const RequiredColumns: seq<string> := ["task", "assignee", "deadline", "priority", "context", "status"]

  /** The first of `cols` that `row` lacks: the key whose lookup raises. */
  function FirstMissing(cols: seq<string>, row: CsvRecord): (r: Option<string>)
    ensures r.None? <==> forall c :: c in cols ==> c in row
    ensures r.Some? ==> r.value in cols && r.value !in row
  {
    if cols == [] then None
    else if cols[0] !in row then Some(cols[0])
    else FirstMissing(cols[1..], row)
  }

  /** The row has every required column, written out key by key.
      `FirstMissing(RequiredColumns, row).None?` means the same
      (`CompleteIff`), but it is a scan over a list. This conjunction lets
      Dafny see that each `row[...]` lookup of `ImportedItem` is defined, and
      it is what the import lemmas quantify over. */
  predicate Complete(row: CsvRecord)
  {
    "task" in row && "assignee" in row && "deadline" in row &&
    "priority" in row && "context" in row && "status" in row
  }

  lemma CompleteIff(row: CsvRecord)
    ensures FirstMissing(RequiredColumns, row).None? <==> Complete(row)
  {
    assert forall c :: c in RequiredColumns <==>
      c == "task" || c == "assignee" || c == "deadline" || c == "priority" || c == "context" || c == "status";
  }

  /** The item the import builds from a row, under a fresh id; any `id`
      column of the file is ignored. */
  function ImportedItem(row: CsvRecord, id: string): ActionItem
    requires Complete(row)
  {
    ActionItem(id, row["task"], row["assignee"], row["deadline"], row["priority"], row["context"])
  }

  /** The `imported_items` dictionary the import loop builds: the i-th row
      gets the i-th fresh id, rows with an unknown status are dropped, and
      the first row lacking a required column stops everything with that
      column's name. */
  function Collect(rows: seq<CsvRecord>, ids: seq<string>): Result<Board>
    requires |ids| == |rows|
  {
    if rows == [] then Ok(EmptyBoard)
    else
      var n := |rows| - 1;
      match Collect(rows[..n], ids[..n])
      case Err(c) => Err(c)
      case Ok(acc) =>
        match FirstMissing(RequiredColumns, rows[n])
        case Some(c) => Err(c)
        case None =>
          match ParseStatus(rows[n]["status"])
          case None => Ok(acc)
          case Some(s) => Ok(acc.With(s, acc.Bucket(s) + [ImportedItem(rows[n], ids[n])]))
  }

  /** The `extend` step: imported items go after the existing items of
      their bucket. */
  function Merge(b: Board, imported: Board): (r: Board)
    ensures forall s :: |r.Bucket(s)| == |b.Bucket(s)| + |imported.Bucket(s)|
    ensures forall s :: r.Bucket(s)[..|b.Bucket(s)|] == b.Bucket(s)
    ensures forall s :: r.Bucket(s)[|b.Bucket(s)|..] == imported.Bucket(s)
    ensures r.Size() == b.Size() + imported.Size()
  {
    Board(b.todo + imported.todo, b.inProgress + imported.inProgress, b.done + imported.done)
  }

  /** The import fails exactly when some row lacks a required column, and
      the error names one of the required columns. */
  lemma {:induction false} CollectFails(rows: seq<CsvRecord>, ids: seq<string>)
    requires |ids| == |rows|
    ensures Collect(rows, ids).Ok? <==> forall i :: 0 <= i < |rows| ==> Complete(rows[i])
    ensures Collect(rows, ids).Err? ==> Collect(rows, ids).error in RequiredColumns
    decreases |rows|
  {
    if rows != [] {
      var n := |rows| - 1;
      CollectFails(rows[..n], ids[..n]);
      CompleteIff(rows[n]);
      assert forall i :: 0 <= i < n ==> rows[..n][i] == rows[i];
    }
  }

  /** The import as a file: the rows re-identified with the fresh ids, with
      an empty created_date. */
  function Reidentified(rows: seq<CsvRecord>, ids: seq<string>): (r: seq<Store.Row>)
    requires |ids| == |rows|
    requires forall i :: 0 <= i < |rows| ==> Complete(rows[i])
    ensures |r| == |rows|
  {
    seq(|rows|, i requires 0 <= i < |rows| && Complete(rows[i]) =>
      Store.Row(ids[i], rows[i]["task"], rows[i]["assignee"], rows[i]["deadline"],
        rows[i]["priority"], rows[i]["context"], rows[i]["status"], ""))
  }

  /** Importing a file is loading it with fresh ids: the same statuses are
      dropped and the same file order is kept within each bucket. */
  lemma {:induction false} CollectIsLoad(rows: seq<CsvRecord>, ids: seq<string>)
    requires |ids| == |rows|
    requires forall i :: 0 <= i < |rows| ==> Complete(rows[i])
    ensures Collect(rows, ids) == Ok(Store.LoadRows(Reidentified(rows, ids)))
    decreases |rows|
  {
    if rows != [] {
      var n := |rows| - 1;
      CollectIsLoad(rows[..n], ids[..n]);
      var file := Reidentified(rows, ids);
      assert file == Reidentified(rows[..n], ids[..n]) + [file[n]];
      Store.LoadAppendRow(Reidentified(rows[..n], ids[..n]), file[n]);
      assert Store.ToItem(file[n]) == ImportedItem(rows[n], ids[n]);
    }
  }

  /** Every imported item carries one of the fresh ids, each id used at
      most once. */
  lemma {:induction false} CollectIds(rows: seq<CsvRecord>, ids: seq<string>)
    requires |ids| == |rows|
    ensures Collect(rows, ids).Ok? ==> BoardIds(Collect(rows, ids).value) <= multiset(ids)
    decreases |rows|
  {
    if rows != [] && Collect(rows, ids).Ok? {
      var n := |rows| - 1;
      CollectLast(rows, ids);
      var prev := Collect(rows[..n], ids[..n]).value;
      var res := Collect(rows, ids).value;
      var s := ParseStatus(rows[n]["status"]);
      CollectIds(rows[..n], ids[..n]);
      assert BoardIds(prev) <= multiset(ids[..n]);
      assert multiset(ids) == multiset(ids[..n]) + multiset{ids[n]} by {
        assert ids == ids[..n] + [ids[n]];
      }
      if s.Some? {
        CollectStepIds(prev, rows[n], ids[n]);
        assert BoardIds(res) == BoardIds(prev) + multiset{ids[n]};
      } else {
        assert res == prev;
      }
    }
  }

  /** A successful import of rows ends with a successful import of all but
      the last row, to which the last row adds its item when its status is
      known. */
  lemma CollectLast(rows: seq<CsvRecord>, ids: seq<string>)
    requires |ids| == |rows| > 0 && Collect(rows, ids).Ok?
    ensures var n := |rows| - 1;
      var prev := Collect(rows[..n], ids[..n]);
      var s := ParseStatus(rows[n]["status"]);
      prev.Ok? && Complete(rows[n]) &&
      Collect(rows, ids).value ==
        if s.Some? then prev.value.With(s.value, prev.value.Bucket(s.value) + [ImportedItem(rows[n], ids[n])])
        else prev.value
  {
    CompleteIff(rows[|rows| - 1]);
  }

  /** One row adds at most its own fresh id. */
  lemma CollectStepIds(acc: Board, row: CsvRecord, id: string)
    requires Complete(row)
    ensures var s := ParseStatus(row["status"]);
      s.Some? ==> BoardIds(acc.With(s.value, acc.Bucket(s.value) + [ImportedItem(row, id)])) == BoardIds(acc) + multiset{id}
  {
    var s := ParseStatus(row["status"]);
    if s.Some? {
      var item := ImportedItem(row, id);
      IdsOfConcat(acc.Bucket(s.value), [item]);
      assert IdsOf([item]) == [id];
      BoardIdsGrow(acc, s.value, acc.Bucket(s.value) + [item], multiset{id});
    }
  }

  /** No id occurs twice in `ids`. */
  predicate Distinct(ids: seq<string>)
  {
    forall i, j :: 0 <= i < j < |ids| ==> ids[i] != ids[j]
  }

  lemma {:induction false} DistinctCounts(ids: seq<string>)
    requires Distinct(ids)
    ensures forall x | x in multiset(ids) :: multiset(ids)[x] == 1
    decreases |ids|
  {
    if ids != [] {
      var n := |ids| - 1;
      DistinctCounts(ids[..n]);
      assert ids == ids[..n] + [ids[n]];
      assert ids[n] !in ids[..n];
    }
  }

  /** Importing with distinct fresh ids that are not on the board keeps the
      ids of the board unique. */
  lemma ImportKeepsUnique(b: Board, rows: seq<CsvRecord>, ids: seq<string>)
    requires |ids| == |rows| && Collect(rows, ids).Ok?
    requires UniqueIds(b) && Distinct(ids)
    requires forall i :: 0 <= i < |ids| ==> ids[i] !in BoardIds(b)
    ensures UniqueIds(Merge(b, Collect(rows, ids).value))
  {
    var imp := Collect(rows, ids).value;
    CollectIds(rows, ids);
    DistinctCounts(ids);
    IdsOfConcat(b.todo, imp.todo);
    IdsOfConcat(b.inProgress, imp.inProgress);
    IdsOfConcat(b.done, imp.done);
    var m := Merge(b, imp);
    assert BoardIds(m) == BoardIds(b) + BoardIds(imp);
    forall x | x in BoardIds(m)
      ensures BoardIds(m)[x] == 1
    {
      if x in BoardIds(imp) {
        assert x in multiset(ids);
        assert x in ids;
        assert x !in BoardIds(b);
      }
    }
  }
}
