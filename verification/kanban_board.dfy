/** The board (src/components/kanban/KanbanBoard.tsx): three status columns
    over the task list, the add-task dialog it opens, and the drag-and-drop
    handlers that turn a drop into a `moveTask` call. */
module KanbanBoard {
  import opened Wrappers
  import opened Seqs
  import opened TaskTypes
  import TaskStore
  import AddTaskDialog

  // ---------------------------------------------------------------- columns

  datatype Column = Column(status: Status, title: string)

  const Columns: seq<Column> := [
    Column(Todo, "To Do"),
    Column(InProgress, "In Progress"),
    Column(Done, "Done")
  ]

  /** The column that shows status `s`. */
  function ColumnOf(s: Status): (i: nat)
    ensures i < |Columns| && Columns[i].status == s
  {
    match s
    case Todo => 0
    case InProgress => 1
    case Done => 2
  }

  /** Each status has exactly one column: `ColumnOf` finds it, and no other
      column shows that status. */
  lemma ColumnsDistinct(i: nat, j: nat)
    requires i < |Columns| && j < |Columns| && Columns[i].status == Columns[j].status
    ensures i == j
  {
  }

  /** `columns.map((column) => getTasksByStatus(column.status))`. */
  function BoardColumns(tasks: seq<Task>): (cols: seq<seq<Task>>)
    ensures |cols| == |Columns|
    ensures forall c :: 0 <= c < |cols| ==> forall k :: 0 <= k < |cols[c]| ==> cols[c][k].status == Columns[c].status
    ensures |cols[0]| + |cols[1]| + |cols[2]| == |tasks|
  {
    WithStatusPartition(tasks);
    [WithStatus(tasks, Todo), WithStatus(tasks, InProgress), WithStatus(tasks, Done)]
  }

  /** Each task shows up in the column of its status and in no other. */
  lemma TaskInOneColumn(tasks: seq<Task>, k: nat, c: nat)
    requires k < |tasks| && c < |Columns|
    ensures tasks[k] in BoardColumns(tasks)[c] <==> c == ColumnOf(tasks[k].status)
  {
    var cols := BoardColumns(tasks);
    if tasks[k] in cols[c] {
      var j :| 0 <= j < |cols[c]| && cols[c][j] == tasks[k];
      ColumnsDistinct(c, ColumnOf(tasks[k].status));
    }
  }

  /** A column lists its tasks in the order of the task list. */
  lemma ColumnKeepsOrder(tasks: seq<Task>, c: nat)
    requires c < |Columns|
    ensures IsSubsequence(BoardColumns(tasks)[c], tasks)
  {
    FilterIsSubsequence(tasks, (t: Task) => t.status == Columns[c].status);
  }

  // ---------------------------------------------------------------- board state

  /** The board's state hooks. */
  datatype Board = Board(dialogOpen: bool, dialogStatus: Status, dragged: Option<Task>)

  const InitialBoard := Board(false, Todo, None)

  /** The argument of one `moveTask.mutate` call. */
  datatype MoveRequest = MoveRequest(id: string, status: Status)

  /** `handleAddTask(status)`: open the dialog for that column. */
  function HandleAddTask(b: Board, s: Status): (r: Board)
    ensures r.dialogOpen && r.dialogStatus == s && r.dragged == b.dragged
  {
    b.(dialogStatus := s, dialogOpen := true)
  }

  /** `handleDragStart(e, task)`: remember the dragged task. */
  function HandleDragStart(b: Board, t: Task): (r: Board)
    ensures r.dragged == Some(t) && r.(dragged := b.dragged) == b
  {
    b.(dragged := Some(t))
  }

  /** `handleDrop(e, status)`: move the dragged task when it comes from
      another column, and forget it in any case. */
  function HandleDrop(b: Board, s: Status): (r: (Board, seq<MoveRequest>))
    ensures r.0 == b.(dragged := None)
    ensures |r.1| <= 1
    ensures |r.1| == 1 <==> b.dragged.Some? && b.dragged.value.status != s
    ensures |r.1| == 1 ==> r.1[0] == MoveRequest(b.dragged.value.id, s)
  {
    var moves := if b.dragged.Some? && b.dragged.value.status != s then [MoveRequest(b.dragged.value.id, s)] else [];
    (b.(dragged := None), moves)
  }

  /** A second drop, with nothing dragged any more, moves nothing. */
  lemma DropTwiceMovesOnce(b: Board, s: Status, s': Status)
    ensures HandleDrop(HandleDrop(b, s).0, s').1 == []
  {
  }

  /** Applying the moves a drop issues to the store. */
  function ApplyMoves(store: TaskStore.Store, moves: seq<MoveRequest>): TaskStore.Store
    decreases |moves|
  {
    if moves == [] then store
    else
      var next := TaskStore.MoveTask(store, moves[0].id, moves[0].status);
      ApplyMoves(if next.Ok? then next.value.0 else store, moves[1..])
  }

  /** Dragging a stored task onto a column puts it in that column, whether
      or not a move was needed, and leaves every other task where it was. */
  lemma DragAndDropMoves(store: TaskStore.Store, b: Board, id: string, s: Status)
    requires TaskStore.WellKeyed(store) && id in store
    ensures var moves := HandleDrop(HandleDragStart(b, store[id]), s).1;
      var after := ApplyMoves(store, moves);
      && id in after && after[id] == store[id].(status := s)
      && after.Keys == store.Keys
      && forall k :: k in store && k != id ==> after[k] == store[k]
  {
    var moves := HandleDrop(HandleDragStart(b, store[id]), s).1;
    if store[id].status == s {
      assert store[id].(status := s) == store[id];
    } else {
      assert moves == [MoveRequest(store[id].id, s)];
      assert moves[1..] == [];
    }
  }

  // ---------------------------------------------------------------- the dialog

  /** Submitting the dialog a column's add button opened creates the task in
      that column and closes the dialog. */
  function SubmitDialog(b: Board, f: AddTaskDialog.Form): (r: (Board, Option<CreateTaskInput>))
    ensures r.1.Some? <==> AddTaskDialog.Submit(f, b.dialogStatus).Submitted?
    ensures r.1.Some? ==> r.1.value.status == Some(b.dialogStatus) && !r.0.dialogOpen
    ensures r.1.None? ==> r.0 == b
  {
    match AddTaskDialog.Submit(f, b.dialogStatus)
    case Ignored => (b, None)
    case Submitted(input, _, _) => (b.(dialogOpen := false), Some(input))
  }

  lemma AddFromColumn(b: Board, s: Status, f: AddTaskDialog.Form)
    requires AddTaskDialog.Submit(f, s).Submitted?
    ensures var r := SubmitDialog(HandleAddTask(b, s), f);
      r.1.Some? && r.1.value.status == Some(s) && !r.0.dialogOpen && r.0.dialogStatus == s
  {
  }
}
