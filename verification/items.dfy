/** The entities of the action-item board: one action item, the three
    workflow statuses, and the board as a value (three ordered buckets). */
module Items {

  datatype Option<T> = None | Some(value: T)

  datatype Result<T> = Ok(value: T) | Err(error: string)

  /** One action item as the board and the store hold it. The priority is
      free text: the source never checks it against High/Medium/Low. */
  datatype ActionItem = ActionItem(
    id: string,
    task: string,
    assignee: string,
    deadline: string,
    priority: string,
    context: string)

  /** The three buckets of the board, in the order the board dictionary is
      built (todo, in_progress, done). */
  datatype Status = Todo | InProgress | Done

  /** The key under which a status is stored, in the dictionary and in the
      `status` column of the CSV file. */
  function StatusName(s: Status): string
  {
    match s
    case Todo => "todo"
    case InProgress => "in_progress"
    case Done => "done"
  }

  /** The `status in action_items` test of the loader: only the three
      dictionary keys are recognised, anything else is not a status. */
  function ParseStatus(name: string): (r: Option<Status>)
    ensures r.Some? ==> StatusName(r.value) == name
    ensures r.None? <==> forall s: Status :: StatusName(s) != name
  {
    if name == "todo" then Some(Todo)
    else if name == "in_progress" then Some(InProgress)
    else if name == "done" then Some(Done)
    else None
  }

  lemma StatusNamesRoundTrip(s: Status)
    ensures ParseStatus(StatusName(s)) == Some(s)
  {
  }

  /** The board: `{"todo": [...], "in_progress": [...], "done": [...]}`. */
  datatype Board = Board(todo: seq<ActionItem>, inProgress: seq<ActionItem>, done: seq<ActionItem>)
  {
    function Bucket(s: Status): seq<ActionItem>
    {
      match s
      case Todo => todo
      case InProgress => inProgress
      case Done => done
    }

    /** The board with bucket `s` replaced and the other two kept. */
    function With(s: Status, items: seq<ActionItem>): (b: Board)
      ensures b.Bucket(s) == items
      ensures forall t :: t != s ==> b.Bucket(t) == Bucket(t)
    {
      match s
      case Todo => this.(todo := items)
      case InProgress => this.(inProgress := items)
      case Done => this.(done := items)
    }

    /** Total number of items over all buckets (the "Total" metric). */
    function Size(): nat
    {
      |todo| + |inProgress| + |done|
    }
  }

  const EmptyBoard: Board := Board([], [], [])

  function IdsOf(s: seq<ActionItem>): seq<string>
  {
    seq(|s|, i requires 0 <= i < |s| => s[i].id)
  }

  /** Every id on the board, counted with multiplicity over all buckets. */
  function BoardIds(b: Board): multiset<string>
  {
    multiset(IdsOf(b.todo)) + multiset(IdsOf(b.inProgress)) + multiset(IdsOf(b.done))
  }

  /** No id occurs twice on the board, within a bucket or across buckets. */
  predicate UniqueIds(b: Board)
  {
    forall id | id in BoardIds(b) :: BoardIds(b)[id] == 1
  }

  lemma IdsOfConcat(s: seq<ActionItem>, t: seq<ActionItem>)
    ensures IdsOf(s + t) == IdsOf(s) + IdsOf(t)
  {
  }

  lemma IdsOfRemoveAt(s: seq<ActionItem>, k: nat)
    requires k < |s|
    ensures multiset(IdsOf(s[..k] + s[k+1..])) + multiset{s[k].id} == multiset(IdsOf(s))
  {
    assert s == s[..k] + [s[k]] + s[k+1..];
    IdsOfConcat(s[..k], [s[k]]);
    IdsOfConcat(s[..k] + [s[k]], s[k+1..]);
    IdsOfConcat(s[..k], s[k+1..]);
  }

  /** Two positions of one sequence holding the same id make that id occur
      at least twice. */
  lemma {:induction false} TwoPositions(s: seq<ActionItem>, i: nat, j: nat)
    requires i < j < |s| && s[i].id == s[j].id
    ensures multiset(IdsOf(s))[s[i].id] >= 2
  {
    var ids := IdsOf(s);
    assert ids == ids[..j] + ids[j..];
    assert ids[i] in ids[..j];
    assert ids[j] in ids[j..];
  }

  /** A bucket never holds an id more often than the whole board does. */
  lemma BucketCount(b: Board, s: Status, id: string)
    ensures multiset(IdsOf(b.Bucket(s)))[id] <= BoardIds(b)[id]
  {
    match s
    case Todo =>
    case InProgress =>
    case Done =>
  }

  /** On a board with unique ids, an id picks out at most one position of a
      bucket. */
  lemma UniqueWithinBucket(b: Board, s: Status, i: nat, j: nat)
    requires UniqueIds(b)
    requires i < |b.Bucket(s)| && j < |b.Bucket(s)| && b.Bucket(s)[i].id == b.Bucket(s)[j].id
    ensures i == j
  {
    var items := b.Bucket(s);
    var id := items[i].id;
    BucketCount(b, s, id);
    assert IdsOf(items)[i] == id;
    assert id in BoardIds(b);
    if i < j {
      TwoPositions(items, i, j);
      assert false;
    } else if j < i {
      TwoPositions(items, j, i);
      assert false;
    }
  }
}
