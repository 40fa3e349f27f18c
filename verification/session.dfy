/** The board as one user session holds it (`st.session_state["action_items"]`):
    three lists that the handlers change in place, each change followed by
    a save into the CSV file every session shares. */
module BoardSession {
  import opened Items
  import opened Kanban
  import Store

  class Session {
    var todo: seq<ActionItem>
    var inProgress: seq<ActionItem>
    var done: seq<ActionItem>
    /** The shared `action_items.csv`. */
    const store: Store.CsvFile

    /** The board this session currently holds. */
    function Current(): Board
      reads this
    {
      Board(todo, inProgress, done)
    }

    /** `initialize_action_items` on first access: the board is whatever
        the CSV file loads to. */
    constructor (store: Store.CsvFile)
      ensures this.store == store
      ensures Current() == Store.Load(store.rows)
    {
      var b := Store.LoadFile(store.rows);
      todo, inProgress, done := b.todo, b.inProgress, b.done;
      this.store := store;
    }

    /** `save_action_items_to_csv(action_items)`, as written: a non-empty
        board overwrites the file, an empty one leaves it alone. */
    method Save(now: string) returns (written: bool)
      modifies store
      ensures written <==> Current().Size() > 0
      ensures store.rows == Store.SaveAsWritten(Current(), now, old(store.rows)).file
    {
      var rows := Store.FlattenRows(Current(), now);
      if rows != [] {
        store.rows := Some(rows);
        written := true;
      } else {
        written := false;
      }
    }

    method SetBucket(s: Status, items: seq<ActionItem>)
      modifies this
      ensures Current() == old(Current()).With(s, items)
    {
      match s
      case Todo => todo := items;
      case InProgress => inProgress := items;
      case Done => done := items;
    }

    /** `move_action_item`: scan `from` for the first item with that id;
        if there is one, pop it, append it to `to` and save; otherwise
        change nothing and save nothing. */
    method Move(id: string, from: Status, to: Status, now: string) returns (moved: bool)
      modifies this, store
      ensures moved <==> id in IdsOf(old(Current()).Bucket(from))
      ensures Current() == Kanban.Move(old(Current()), id, from, to)
      ensures moved ==> store.rows == Store.SaveAsWritten(Current(), now, old(store.rows)).file
      ensures !moved ==> store.rows == old(store.rows)
      ensures UniqueIds(old(Current())) ==> UniqueIds(Current())
    {
      ghost var before := Current();
      var items := Current().Bucket(from);
      var i := Scan(items, id);
      FirstIndexFound(items, id);
      if i < |items| {
        var item := items[i];
        SetBucket(from, items[..i] + items[i + 1..]);
        SetBucket(to, Current().Bucket(to) + [item]);
        assert Current() == Kanban.Move(before, id, from, to);
        var _ := Save(now);
        moved := true;
      } else {
        moved := false;
      }
      if UniqueIds(before) {
        MoveKeepsUnique(before, id, from, to);
      }
    }

    /** `delete_action_item`: remove the first item with that id from the
        one bucket named, if any, and save either way. */
    method Delete(id: string, status: Status, now: string)
      modifies this, store
      ensures Current() == Kanban.Delete(old(Current()), id, status)
      ensures store.rows == Store.SaveAsWritten(Current(), now, old(store.rows)).file
      ensures UniqueIds(old(Current())) ==> UniqueIds(Current())
    {
      ghost var before := Current();
      var items := Current().Bucket(status);
      var i := Scan(items, id);
      if i < |items| {
        SetBucket(status, items[..i] + items[i + 1..]);
      }
      assert Current() == Kanban.Delete(before, id, status);
      var _ := Save(now);
      if UniqueIds(before) {
        DeleteKeepsUnique(before, id, status);
      }
    }

    /** `add_action_item`: append a new item to `todo` and save. The
        assignee defaults to "Unassigned" and the priority to "Medium", as
        in the source's signature. */
    method Add(task: string, newId: string, now: string,
               assignee: string := "Unassigned", priority: string := "Medium")
      modifies this, store
      ensures Current() == AppendTodo(old(Current()), [ManualItem(newId, task, assignee, priority)])
      ensures store.rows == Some(Store.Rows(Current(), now))
      ensures UniqueIds(old(Current())) && newId !in BoardIds(old(Current())) ==> UniqueIds(Current())
    {
      ghost var before := Current();
      var item := ManualItem(newId, task, assignee, priority);
      todo := todo + [item];
      var _ := Save(now);
      if UniqueIds(before) && newId !in BoardIds(before) {
        AddFreshKeepsUnique(before, item);
      }
    }

    /** The "Add Action Item" form: nothing happens without a task;
        otherwise the item is appended to `todo` and the board saved. */
    method SubmitForm(task: string, assignee: string, priority: string, deadline: string, newId: string, now: string)
      returns (added: bool)
      modifies this, store
      ensures added <==> task != ""
      ensures added ==> Current() == AppendTodo(old(Current()), [FormItem(newId, task, assignee, priority, deadline)])
      ensures added ==> store.rows == Some(Store.Rows(Current(), now))
      ensures !added ==> Current() == old(Current()) && store.rows == old(store.rows)
      ensures UniqueIds(old(Current())) && newId !in BoardIds(old(Current())) ==> UniqueIds(Current())
    {
      ghost var before := Current();
      added := task != "";
      if added {
        var item := FormItem(newId, task, assignee, priority, deadline);
        todo := todo + [item];
        var _ := Save(now);
        if UniqueIds(before) && newId !in BoardIds(before) {
          AddFreshKeepsUnique(before, item);
        }
      }
    }

    /** The extraction button: when extraction returned items, append each
        to `todo` in order and save; otherwise change nothing. */
    method AppendExtracted(items: seq<ActionItem>, now: string)
      modifies this, store
      ensures Current() == AppendTodo(old(Current()), items)
      ensures items != [] ==> store.rows == Some(Store.Rows(Current(), now))
      ensures items == [] ==> store.rows == old(store.rows)
    {
      if items != [] {
        for i := 0 to |items|
          invariant todo == old(todo) + items[..i]
          invariant inProgress == old(inProgress) && done == old(done)
        {
          todo := todo + [items[i]];
          assert items[..i + 1] == items[..i] + [items[i]];
        }
        assert items[..|items|] == items;
        var _ := Save(now);
      }
    }

    /** "Clear All": three empty buckets, then a save, which writes nothing
        for an empty board: the file keeps the rows it had. */
    method ClearAll(now: string)
      modifies this, store
      ensures Current() == EmptyBoard
      ensures store.rows == old(store.rows)
    {
      todo, inProgress, done := [], [], [];
      var _ := Save(now);
    }

    /** "Clear All" with the save it evidently intends: the file becomes a
        snapshot of the empty board, so the next load is empty too. */
    method ClearAllCorrected(now: string)
      modifies this, store
      ensures Current() == EmptyBoard
      ensures store.rows == Store.SaveSnapshot(EmptyBoard, now)
      ensures Store.Load(store.rows) == Current()
    {
      todo, inProgress, done := [], [], [];
      var rows := Store.FlattenRows(Current(), now);
      store.rows := Some(rows);
    }

    /** The CSV import: build the three imported buckets row by row (the
        i-th row under the i-th fresh id), stopping with the name of the
        first missing column before anything is merged; otherwise extend
        each live bucket with its imported items, save, and report how many
        were imported. */
    method Import(rows: seq<CsvRecord>, ids: seq<string>, now: string) returns (r: Result<nat>)
      requires |ids| == |rows|
      modifies this, store
      ensures r.Err? <==> Collect(rows, ids).Err?
      ensures r.Err? ==> r.error == Collect(rows, ids).error
      ensures r.Err? ==> Current() == old(Current()) && store.rows == old(store.rows)
      ensures r.Ok? ==> r.value == Collect(rows, ids).value.Size()
      ensures r.Ok? ==> Current() == Merge(old(Current()), Collect(rows, ids).value)
      ensures r.Ok? ==> store.rows == Store.SaveAsWritten(Current(), now, old(store.rows)).file
      ensures r.Ok? && UniqueIds(old(Current())) && Distinct(ids) && FreshIds(ids, old(Current())) ==>
        UniqueIds(Current())
    {
      var imported := CollectRows(rows, ids);
      if imported.Err? {
        return Err(imported.error);
      }
      var b := imported.value;
      ghost var before := Current();
      todo := todo + b.todo;
      inProgress := inProgress + b.inProgress;
      done := done + b.done;
      assert Current() == Merge(before, b);
      var _ := Save(now);
      r := Ok(|b.todo| + |b.inProgress| + |b.done|);
      if UniqueIds(before) && Distinct(ids) && FreshIds(ids, before) {
        ImportKeepsUnique(before, rows, ids);
      }
    }
  }

  /** The loop of the import that builds `imported_items` row by row (the
      i-th row under the i-th fresh id), stopping at the first row that
      lacks a required column. */
  method CollectRows(rows: seq<CsvRecord>, ids: seq<string>) returns (r: Result<Board>)
    requires |ids| == |rows|
    ensures r == Collect(rows, ids)
  {
    var t, p, d := [], [], [];
    for i := 0 to |rows|
      invariant Collect(rows[..i], ids[..i]) == Ok(Board(t, p, d))
    {
      var row := rows[i];
      assert rows[..i + 1][..i] == rows[..i] && ids[..i + 1][..i] == ids[..i];
      assert rows[..i + 1][i] == row && ids[..i + 1][i] == ids[i];
      var missing := FirstMissing(RequiredColumns, row);
      if missing.Some? {
        CollectPrefixErr(rows, ids, i + 1);
        return Err(missing.value);
      }
      CompleteIff(row);
      var item := ImportedItem(row, ids[i]);
      if row["status"] == "todo" {
        t := t + [item];
      } else if row["status"] == "in_progress" {
        p := p + [item];
      } else if row["status"] == "done" {
        d := d + [item];
      }
    }
    assert rows[..|rows|] == rows && ids[..|ids|] == ids;
    r := Ok(Board(t, p, d));
  }

  /** The `enumerate` loop shared by move and delete: the position of the
      first item carrying `id`, or `|items|` when the loop finds none. */
  method Scan(items: seq<ActionItem>, id: string) returns (i: nat)
    ensures i == FirstIndex(items, id)
  {
    i := 0;
    while i < |items| && items[i].id != id
      invariant i <= |items|
      invariant forall j :: 0 <= j < i ==> items[j].id != id
    {
      i := i + 1;
    }
  }

  /** None of `ids` is on the board `b` yet. */
  predicate FreshIds(ids: seq<string>, b: Board)
  {
    forall i :: 0 <= i < |ids| ==> ids[i] !in BoardIds(b)
  }

  /** Once the rows before `i` fail, the whole import fails the same way. */
  lemma {:induction false} CollectPrefixErr(rows: seq<CsvRecord>, ids: seq<string>, i: nat)
    requires |ids| == |rows| && i <= |rows|
    requires Collect(rows[..i], ids[..i]).Err?
    ensures Collect(rows, ids) == Collect(rows[..i], ids[..i])
    decreases |rows| - i
  {
    if i < |rows| {
      assert rows[..i + 1][..i] == rows[..i] && ids[..i + 1][..i] == ids[..i];
      CollectPrefixErr(rows, ids, i + 1);
    } else {
      assert rows[..i] == rows && ids[..i] == ids;
    }
  }
}
