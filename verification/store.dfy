/** The durable mirror of the board: the CSV file `action_items.csv`,
    modelled as a sequence of row records (no CSV text, no quoting). A
    missing file is `None`. */
module Store {
  import opened Items

  /** One CSV row: the item's fields, the bucket it sat in, and the
      timestamp of the save that wrote it. */
  datatype Row = Row(
    id: string,
    task: string,
    assignee: string,
    deadline: string,
    priority: string,
    context: string,
    status: string,
    createdDate: string)

  /** The row `save` writes for an item of bucket `s`. */
  function ToRow(item: ActionItem, s: Status, now: string): Row
  {
    Row(item.id, item.task, item.assignee, item.deadline, item.priority, item.context, StatusName(s), now)
  }

  /** The item `load` rebuilds from a row: status and created_date are not
      part of it. */
  function ToItem(row: Row): ActionItem
  {
    ActionItem(row.id, row.task, row.assignee, row.deadline, row.priority, row.context)
  }

  /** The rows of one bucket, in list order. */
  function RowsOf(items: seq<ActionItem>, s: Status, now: string): seq<Row>
  {
    seq(|items|, i requires 0 <= i < |items| => ToRow(items[i], s, now))
  }

  /** The buckets in the order the board dictionary iterates them. */
  const AllStatuses: seq<Status> := [Todo, InProgress, Done]

  /** The rows of the buckets `ss`, bucket after bucket. */
  function RowsFor(b: Board, ss: seq<Status>, now: string): seq<Row>
  {
    if ss == [] then []
    else RowsFor(b, ss[..|ss| - 1], now) + RowsOf(b.Bucket(ss[|ss| - 1]), ss[|ss| - 1], now)
  }

  /** The `csv_data` list that `save` builds: one row per item. */
  function Rows(b: Board, now: string): (rows: seq<Row>)
    ensures |rows| == b.Size()
  {
    RowsForAll(b, now);
    RowsFor(b, AllStatuses, now)
  }

  lemma RowsForAll(b: Board, now: string)
    ensures RowsFor(b, AllStatuses, now) ==
      RowsOf(b.todo, Todo, now) + RowsOf(b.inProgress, InProgress, now) + RowsOf(b.done, Done, now)
  {
    var two := AllStatuses[..2];
    assert two == [Todo, InProgress];
    assert two[..1] == [Todo];
    assert [Todo][..0] == [];
    assert RowsFor(b, [Todo], now) == RowsOf(b.todo, Todo, now);
  }

  /** The items of the rows whose status is `s`, in file order. */
  function Pick(rows: seq<Row>, s: Status): seq<ActionItem>
  {
    if rows == [] then []
    else
      var last := rows[|rows| - 1];
      Pick(rows[..|rows| - 1], s) + (if last.status == StatusName(s) then [ToItem(last)] else [])
  }

  /** The board `load` builds from the rows of an existing file. */
  function LoadRows(rows: seq<Row>): Board
  {
    Board(Pick(rows, Todo), Pick(rows, InProgress), Pick(rows, Done))
  }

  /** `load_action_items_from_csv`: a missing file gives three empty
      buckets; otherwise every row with a known status is appended to its
      bucket and every other row is dropped. */
  function Load(file: Option<seq<Row>>): (b: Board)
    ensures file.None? ==> b == EmptyBoard
    ensures file.Some? ==> b.Size() <= |file.value|
  {
    match file
    case None => EmptyBoard
    case Some(rows) => LoadSize(rows); LoadRows(rows)
  }

  lemma {:induction false} PickConcat(r1: seq<Row>, r2: seq<Row>, s: Status)
    ensures Pick(r1 + r2, s) == Pick(r1, s) + Pick(r2, s)
    decreases |r2|
  {
    if r2 == [] {
      assert r1 + r2 == r1;
    } else {
      var init := r2[..|r2| - 1];
      assert (r1 + r2)[..|r1 + r2| - 1] == r1 + init;
      PickConcat(r1, init, s);
    }
  }

  /** Loading the rows of one bucket puts all of them, in order, back in
      that bucket and nothing in the others. */
  lemma {:induction false} PickRowsOf(items: seq<ActionItem>, t: Status, s: Status, now: string)
    ensures Pick(RowsOf(items, t, now), s) == if s == t then items else []
    decreases |items|
  {
    if items != [] {
      var init := items[..|items| - 1];
      assert RowsOf(items, t, now)[..|items| - 1] == RowsOf(init, t, now);
      PickRowsOf(init, t, s, now);
      assert StatusName(t) == StatusName(s) ==> t == s by {
        StatusNamesRoundTrip(t);
        StatusNamesRoundTrip(s);
      }
      assert items == init + [items[|items| - 1]];
    }
  }

  /** `load` after `save` gives back the same three buckets in the same
      order; of the row, only the created_date column is lost. Rows are
      records here: cells pandas would read as NaN (empty, "NA", "N/A",
      "null", "None", "nan", ...) come back unchanged in this model. */
  lemma SaveLoadRoundTrip(b: Board, now: string)
    ensures LoadRows(Rows(b, now)) == b
  {
    var t := RowsOf(b.todo, Todo, now);
    var p := RowsOf(b.inProgress, InProgress, now);
    var d := RowsOf(b.done, Done, now);
    RowsForAll(b, now);
    assert Rows(b, now) == t + p + d;
    forall s: Status
      ensures Pick(Rows(b, now), s) == b.Bucket(s)
    {
      PickConcat(t + p, d, s);
      PickConcat(t, p, s);
      PickRowsOf(b.todo, Todo, s, now);
      PickRowsOf(b.inProgress, InProgress, s, now);
      PickRowsOf(b.done, Done, s, now);
    }
    assert Pick(Rows(b, now), Todo) == b.Bucket(Todo);
    assert Pick(Rows(b, now), InProgress) == b.Bucket(InProgress);
    assert Pick(Rows(b, now), Done) == b.Bucket(Done);
  }

  /** A row with an unknown status changes nothing; a row with a known
      status is appended to the end of its bucket. */
  lemma LoadAppendRow(rows: seq<Row>, row: Row)
    ensures ParseStatus(row.status).None? ==> LoadRows(rows + [row]) == LoadRows(rows)
    ensures ParseStatus(row.status).Some? ==>
      var s := ParseStatus(row.status).value;
      LoadRows(rows + [row]) == LoadRows(rows).With(s, LoadRows(rows).Bucket(s) + [ToItem(row)])
  {
    assert (rows + [row])[..|rows|] == rows;
  }

  /** Every row yields at most one item; when every status is known, every
      row yields exactly one. */
  lemma {:induction false} LoadSize(rows: seq<Row>)
    ensures LoadRows(rows).Size() <= |rows|
    ensures (forall i :: 0 <= i < |rows| ==> ParseStatus(rows[i].status).Some?) ==>
      LoadRows(rows).Size() == |rows|
    decreases |rows|
  {
    if rows != [] {
      var init := rows[..|rows| - 1];
      LoadSize(init);
      assert rows == init + [rows[|rows| - 1]];
      LoadAppendRow(init, rows[|rows| - 1]);
    }
  }

  /** What a call of `save_action_items_to_csv` leaves behind: whether it
      wrote, and the file afterwards. */
  datatype SaveOutcome = SaveOutcome(written: bool, file: Option<seq<Row>>)

  /** `save_action_items_to_csv` as written: a board with items overwrites
      the file with one row per item and reports True; an empty board
      writes nothing, leaves the previous file in place and reports False. */
  function SaveAsWritten(b: Board, now: string, file: Option<seq<Row>>): (r: SaveOutcome)
    ensures r.written <==> b.Size() > 0
    ensures r.written ==> r.file.Some? && |r.file.value| == b.Size() && Load(r.file) == b
    ensures !r.written ==> r.file == file
  {
    var rows := Rows(b, now);
    if rows != [] then SaveLoadRoundTrip(b, now); SaveOutcome(true, Some(rows))
    else SaveOutcome(false, file)
  }

  /** Clearing a board whose file mirrors it and saving, as written, leaves
      the old rows in place: the next load brings every cleared item back. */
  lemma ClearedBoardComesBack(b: Board, before: string, now: string)
    requires b.Size() > 0
    ensures var out := SaveAsWritten(EmptyBoard, now, Some(Rows(b, before)));
      !out.written && Load(out.file) == b && Load(out.file) != EmptyBoard
  {
    SaveLoadRoundTrip(b, before);
  }

  /** The save the clear-all and delete paths evidently expect: the file
      always becomes a snapshot of the board, empty or not. */
  function SaveSnapshot(b: Board, now: string): (file: Option<seq<Row>>)
    ensures file.Some? && |file.value| == b.Size()
    ensures Load(file) == b
  {
    SaveLoadRoundTrip(b, now);
    Some(Rows(b, now))
  }

  /** The CSV file on disk, shared by every session of the application. */
  class CsvFile {
    var rows: Option<seq<Row>>

    constructor (rows: Option<seq<Row>>)
      ensures this.rows == rows
    {
      this.rows := rows;
    }
  }

  /** The loops of `save` that build `csv_data`, bucket by bucket and item
      by item. */
  method FlattenRows(b: Board, now: string) returns (rows: seq<Row>)
    ensures rows == Rows(b, now)
    ensures |rows| == b.Size()
  {
    rows := [];
    for k := 0 to |AllStatuses|
      invariant rows == RowsFor(b, AllStatuses[..k], now)
    {
      var s := AllStatuses[k];
      var items := b.Bucket(s);
      ghost var before := rows;
      for i := 0 to |items|
        invariant rows == before + RowsOf(items[..i], s, now)
      {
        rows := rows + [ToRow(items[i], s, now)];
        assert RowsOf(items[..i + 1], s, now) == RowsOf(items[..i], s, now) + [ToRow(items[i], s, now)];
      }
      assert items[..|items|] == items;
      assert AllStatuses[..k + 1][..k] == AllStatuses[..k];
    }
    assert AllStatuses[..|AllStatuses|] == AllStatuses;
  }

  /** The loop of `load` over an existing file: each row is appended to its
      bucket when its status is one of the three, and dropped otherwise. */
  method LoadFile(file: Option<seq<Row>>) returns (b: Board)
    ensures b == Load(file)
  {
    if file.None? {
      return EmptyBoard;
    }
    var rows := file.value;
    var todo, inProgress, done := [], [], [];
    for i := 0 to |rows|
      invariant Board(todo, inProgress, done) == LoadRows(rows[..i])
    {
      var row := rows[i];
      assert rows[..i + 1] == rows[..i] + [row];
      LoadAppendRow(rows[..i], row);
      var item := ToItem(row);
      if row.status == "todo" {
        todo := todo + [item];
      } else if row.status == "in_progress" {
        inProgress := inProgress + [item];
      } else if row.status == "done" {
        done := done + [item];
      }
    }
    assert rows[..|rows|] == rows;
    b := Board(todo, inProgress, done);
  }
}
