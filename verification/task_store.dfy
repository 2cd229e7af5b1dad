/** The task hooks (src/hooks/useTasks.ts) over an abstract store: the table
    is a map from id to row, each mutation is a pure function from one store
    to the next, and the list the client reads is the rows ordered by
    position. The query and mutation plumbing, the cache and the toasts are
    not modelled; the row id and the table's column defaults stand in for
    what the database supplies. */
module TaskStore {
  import opened Wrappers
  import opened TaskTypes

  type Store = map<string, Task>

  /** Every row is filed under its own id. */
  ghost predicate WellKeyed(store: Store) {
    forall id :: id in store ==> store[id].id == id
  }

  /** Why a mutation fails: `.single()` found no row with that id, or an
      insert reused an existing id. */
  datatype StoreError = NoSuchTask | DuplicateId

  // ---------------------------------------------------------------- createTask

  /** `Math.max(0, ...positions)`. */
  function MaxPosition(tasks: seq<Task>): (m: int)
    ensures m >= 0
    ensures forall i :: 0 <= i < |tasks| ==> tasks[i].position <= m
    ensures m == 0 || exists i :: 0 <= i < |tasks| && tasks[i].position == m
  {
    if tasks == [] then 0
    else
      var rest := MaxPosition(tasks[1..]);
      if tasks[0].position > rest then tasks[0].position
      else
        assert rest != 0 ==> exists i :: 1 <= i < |tasks| && tasks[i].position == rest by {
          if rest != 0 {
            var j :| 0 <= j < |tasks[1..]| && tasks[1..][j].position == rest;
            assert tasks[j + 1].position == rest;
          }
        }
        rest
  }

  /** The position a new task gets: one past the largest in the list, and
      at least 1. */
  function NextPosition(tasks: seq<Task>): (p: int)
    ensures p >= 1
    ensures forall i :: 0 <= i < |tasks| ==> tasks[i].position < p
    ensures tasks == [] ==> p == 1
  {
    MaxPosition(tasks) + 1
  }

  /** It is the least such position: anything smaller is either below 1 or
      not above some task. */
  lemma NextPositionLeast(tasks: seq<Task>, q: int)
    requires q >= 1 && forall i :: 0 <= i < |tasks| ==> tasks[i].position < q
    ensures NextPosition(tasks) <= q
  {
  }

  /** Priority and status when the input omits them; the table's column
      defaults are not part of this model. */
  datatype Defaults = Defaults(priority: Priority, status: Status)

  /** The row `createTask` inserts: the input's fields, the next position,
      and the tags or `[]`. */
  function NewRow(tasks: seq<Task>, input: CreateTaskInput, id: string, defaults: Defaults): (t: Task)
    ensures t.id == id && t.title == input.title && t.description == input.description
    ensures t.priority == (if input.priority.Some? then input.priority.value else defaults.priority)
    ensures t.status == (if input.status.Some? then input.status.value else defaults.status)
    ensures t.dueDate == input.dueDate && t.timeEstimate == input.timeEstimate
    ensures t.tags == (if input.tags.Some? then input.tags.value else [])
    ensures forall i :: 0 <= i < |tasks| ==> tasks[i].position < t.position
  {
    Task(id, input.title, input.description, input.priority.GetOr(defaults.priority),
         input.status.GetOr(defaults.status), input.dueDate, input.timeEstimate,
         input.tags.GetOr([]), NextPosition(tasks))
  }

  /** `createTask.mutate(input)`: `tasks` is the list the client last read;
      the database picks the id. */
  function CreateTask(store: Store, tasks: seq<Task>, input: CreateTaskInput, id: string, defaults: Defaults): (r: Result<(Store, Task), StoreError>)
    ensures r.Err? <==> id in store
    ensures r.Ok? ==> r.value.0 == store[id := r.value.1] && r.value.1 == NewRow(tasks, input, id, defaults)
  {
    if id in store then Err(DuplicateId)
    else
      var row := NewRow(tasks, input, id, defaults);
      Ok((store[id := row], row))
  }

  /** Creating keeps the store well keyed and adds exactly one row. */
  lemma CreateTaskAddsOne(store: Store, tasks: seq<Task>, input: CreateTaskInput, id: string, defaults: Defaults)
    requires WellKeyed(store) && id !in store
    ensures var r := CreateTask(store, tasks, input, id, defaults);
      && r.Ok? && WellKeyed(r.value.0)
      && r.value.0.Keys == store.Keys + {id}
      && forall k :: k in store ==> r.value.0[k] == store[k]
  {
  }

  // ---------------------------------------------------------------- updateTask / moveTask

  /** `Partial<Task>` without the id: each field is either left alone
      (`None`) or given a new value. */
  datatype TaskPatch = TaskPatch(
    title: Option<string>,
    description: Option<Option<string>>,
    priority: Option<Priority>,
    status: Option<Status>,
    dueDate: Option<Option<string>>,
    timeEstimate: Option<Option<int>>,
    tags: Option<seq<string>>,
    position: Option<int>)

  const EmptyPatch := TaskPatch(None, None, None, None, None, None, None, None)

  /** What `.update(updates)` does to one row. */
  function Apply(t: Task, p: TaskPatch): (r: Task)
    ensures r.id == t.id
    ensures r.title == p.title.GetOr(t.title) && r.description == p.description.GetOr(t.description)
    ensures r.priority == p.priority.GetOr(t.priority) && r.status == p.status.GetOr(t.status)
    ensures r.dueDate == p.dueDate.GetOr(t.dueDate) && r.timeEstimate == p.timeEstimate.GetOr(t.timeEstimate)
    ensures r.tags == p.tags.GetOr(t.tags) && r.position == p.position.GetOr(t.position)
  {
    t.(title := p.title.GetOr(t.title),
       description := p.description.GetOr(t.description),
       priority := p.priority.GetOr(t.priority),
       status := p.status.GetOr(t.status),
       dueDate := p.dueDate.GetOr(t.dueDate),
       timeEstimate := p.timeEstimate.GetOr(t.timeEstimate),
       tags := p.tags.GetOr(t.tags),
       position := p.position.GetOr(t.position))
  }

  /** An empty patch leaves a row as it is. */
  lemma ApplyEmpty(t: Task)
    ensures Apply(t, EmptyPatch) == t
  {
  }

  /** `updateTask.mutate({ id, ...updates })`: the row with that id is
      patched and returned; with no such row `.single()` fails. */
  function UpdateTask(store: Store, id: string, p: TaskPatch): (r: Result<(Store, Task), StoreError>)
    ensures r.Err? <==> id !in store
    ensures r.Ok? ==> r.value.1 == Apply(store[id], p) && r.value.0 == store[id := r.value.1]
  {
    if id !in store then Err(NoSuchTask)
    else
      var row := Apply(store[id], p);
      Ok((store[id := row], row))
  }

  /** Only the addressed row changes; the others, and the set of ids, stay. */
  lemma UpdateTaskScoped(store: Store, id: string, p: TaskPatch)
    requires WellKeyed(store) && id in store
    ensures var r := UpdateTask(store, id, p);
      && r.Ok? && WellKeyed(r.value.0)
      && r.value.0.Keys == store.Keys
      && forall k :: k in store && k != id ==> r.value.0[k] == store[k]
  {
  }

  function StatusPatch(s: Status): TaskPatch {
    EmptyPatch.(status := Some(s))
  }

  /** `moveTask.mutate({ id, status })`: an update of the status alone. */
  function MoveTask(store: Store, id: string, s: Status): (r: Result<(Store, Task), StoreError>)
    ensures r.Err? <==> id !in store
    ensures r.Ok? ==> r.value.1 == store[id].(status := s) && r.value.0 == store[id := r.value.1]
  {
    UpdateTask(store, id, StatusPatch(s))
  }

  /** Moving twice is moving once, to the second status. */
  lemma MoveTaskTwice(store: Store, id: string, s1: Status, s2: Status)
    requires id in store
    ensures MoveTask(MoveTask(store, id, s1).value.0, id, s2) == MoveTask(store, id, s2)
  {
    var row := store[id].(status := s2);
    assert store[id := store[id].(status := s1)][id := row] == store[id := row];
  }

  /** Moving to the status a row already has changes nothing. */
  lemma MoveTaskToOwnStatus(store: Store, id: string)
    requires id in store
    ensures MoveTask(store, id, store[id].status) == Ok((store, store[id]))
  {
    assert store[id := store[id]] == store;
  }

  // ---------------------------------------------------------------- deleteTask

  /** `deleteTask.mutate(id)`: removing a row that is not there is not an
      error, since the delete does not ask for a row back. */
  function DeleteTask(store: Store, id: string): (r: Store)
    ensures r.Keys == store.Keys - {id}
    ensures forall k :: k in r ==> r[k] == store[k]
  {
    store - {id}
  }

  /** Deleting twice is deleting once, and deleting a missing id is a no-op. */
  lemma DeleteTaskIdempotent(store: Store, id: string)
    ensures DeleteTask(DeleteTask(store, id), id) == DeleteTask(store, id)
    ensures id !in store ==> DeleteTask(store, id) == store
  {
  }

  /** Deleting a freshly created row restores the store. */
  lemma DeleteUndoesCreate(store: Store, tasks: seq<Task>, input: CreateTaskInput, id: string, defaults: Defaults)
    requires id !in store
    ensures DeleteTask(CreateTask(store, tasks, input, id, defaults).value.0, id) == store
  {
    var after := CreateTask(store, tasks, input, id, defaults).value.0;
    assert DeleteTask(after, id).Keys == store.Keys;
  }

  // ---------------------------------------------------------------- the list query

  /** `.order('position', { ascending: true })`: one order over all rows,
      not per status. */
  predicate SortedByPosition(tasks: seq<Task>) {
    forall i, j :: 0 <= i < j < |tasks| ==> tasks[i].position <= tasks[j].position
  }

  /** `t` placed into a sorted list just before the first row with a larger
      position. */
  function InsertByPosition(sorted: seq<Task>, t: Task): (r: seq<Task>)
    requires SortedByPosition(sorted)
    ensures SortedByPosition(r)
    ensures multiset(r) == multiset(sorted) + multiset{t}
    ensures forall k :: 0 <= k < |r| ==> r[k] == t || r[k] in sorted
  {
    if sorted == [] then [t]
    else if t.position <= sorted[0].position then
      ConsSorted(t, sorted);
      [t] + sorted
    else
      var rest := InsertByPosition(sorted[1..], t);
      InsertAfterHead(sorted, t, rest);
      [sorted[0]] + rest
  }

  /** The recursive case: the head stays in front of the rest with `t` inserted. */
  lemma InsertAfterHead(sorted: seq<Task>, t: Task, rest: seq<Task>)
    requires SortedByPosition(sorted) && sorted != [] && sorted[0].position < t.position
    requires SortedByPosition(rest) && multiset(rest) == multiset(sorted[1..]) + multiset{t}
    requires forall k :: 0 <= k < |rest| ==> rest[k] == t || rest[k] in sorted[1..]
    ensures SortedByPosition([sorted[0]] + rest)
    ensures multiset([sorted[0]] + rest) == multiset(sorted) + multiset{t}
    ensures forall k :: 0 <= k < |rest| + 1 ==> ([sorted[0]] + rest)[k] == t || ([sorted[0]] + rest)[k] in sorted
  {
    assert sorted == [sorted[0]] + sorted[1..];
    forall k | 0 <= k < |rest|
      ensures sorted[0].position <= rest[k].position
    {
      if rest[k] != t {
        var j :| 0 <= j < |sorted[1..]| && sorted[1..][j] == rest[k];
        assert sorted[j + 1] == rest[k];
      }
    }
    ConsSorted(sorted[0], rest);
  }

  /** A row no later than every row of a sorted list can go in front of it. */
  lemma ConsSorted(x: Task, rest: seq<Task>)
    requires SortedByPosition(rest)
    requires forall k :: 0 <= k < |rest| ==> x.position <= rest[k].position
    ensures SortedByPosition([x] + rest)
  {
  }

  /** The rows of the store as the list query returns them: every row once,
      ordered by position. Rows with equal positions come in some order the
      database chooses; here it is the order in which ids are picked. */
  method ListTasks(store: Store) returns (tasks: seq<Task>)
    ensures SortedByPosition(tasks)
    ensures |tasks| == |store|
    ensures Injective(store) ==> multiset(tasks) == multiset(store.Values)
    ensures forall t :: t in tasks <==> t in store.Values
  {
    tasks := [];
    var left := store.Keys;
    ghost var done: set<string> := {};
    while left != {}
      invariant left !! done && left + done == store.Keys
      invariant SortedByPosition(tasks)
      invariant multiset(tasks) == RowsOf(store, done)
      decreases |left|
    {
      var id :| id in left;
      ListStep(store, left, done, tasks, id);
      tasks := InsertByPosition(tasks, store[id]);
      left := left - {id};
      done := done + {id};
    }
    assert done == store.Keys;
    ListedRows(store, tasks);
  }

  /** One round of `ListTasks`: the picked row moves from `left` to `done`. */
  lemma ListStep(store: Store, left: set<string>, done: set<string>, tasks: seq<Task>, id: string)
    requires left !! done && left + done == store.Keys && id in left
    requires SortedByPosition(tasks) && multiset(tasks) == RowsOf(store, done)
    ensures (left - {id}) !! (done + {id}) && (left - {id}) + (done + {id}) == store.Keys
    ensures multiset(InsertByPosition(tasks, store[id])) == RowsOf(store, done + {id})
  {
    RowsOfAdd(store, done, id);
  }

  /** What a list holding exactly the stored rows says about the store. */
  lemma ListedRows(store: Store, tasks: seq<Task>)
    requires multiset(tasks) == RowsOf(store, store.Keys)
    ensures |tasks| == |store|
    ensures Injective(store) ==> multiset(tasks) == multiset(store.Values)
    ensures forall t :: t in tasks <==> t in store.Values
  {
    RowsOfAll(store);
    assert |multiset(tasks)| == |tasks|;
    forall t
      ensures t in tasks <==> t in store.Values
    {
      assert t in tasks <==> t in multiset(tasks);
    }
  }

  /** No two ids share a row; true of a well-keyed store. */
  ghost predicate Injective(store: Store) {
    forall a, b :: a in store && b in store && store[a] == store[b] ==> a == b
  }

  lemma WellKeyedInjective(store: Store)
    requires WellKeyed(store)
    ensures Injective(store)
  {
  }

  /** The rows filed under the ids in `ids`, with their multiplicities. */
  ghost function RowsOf(store: Store, ids: set<string>): multiset<Task>
    requires ids <= store.Keys
  {
    if ids == {} then multiset{}
    else
      var id := PickId(ids);
      RowsOf(store, ids - {id}) + multiset{store[id]}
  }

  ghost function PickId(ids: set<string>): (id: string)
    requires ids != {}
    ensures id in ids
  {
    var id :| id in ids; id
  }

  /** Adding one id adds its row, whichever id `RowsOf` picks first. */
  lemma {:induction false} RowsOfAdd(store: Store, ids: set<string>, id: string)
    requires ids <= store.Keys && id in store && id !in ids
    ensures RowsOf(store, ids + {id}) == RowsOf(store, ids) + multiset{store[id]}
    decreases |ids|
  {
    var all := ids + {id};
    var first := PickId(all);
    if first != id {
      assert all - {first} == (ids - {first}) + {id};
      RowsOfAdd(store, ids - {first}, id);
      var smaller := ids - {first};
      assert ids == smaller + {first};
      RowsOfAdd(store, smaller, first);
    } else {
      assert all - {first} == ids;
    }
  }

  /** Over all ids, the rows are the store's values, each once when no
      row is filed twice. */
  lemma RowsOfAll(store: Store)
    ensures forall t :: t in RowsOf(store, store.Keys) <==> t in store.Values
    ensures |RowsOf(store, store.Keys)| == |store|
    ensures Injective(store) ==> RowsOf(store, store.Keys) == multiset(store.Values)
  {
    RowsOfMembers(store, store.Keys);
    RowsOfSize(store, store.Keys);
    if Injective(store) {
      RowsOfInjective(store, store.Keys);
    }
  }

  lemma {:induction false} RowsOfMembers(store: Store, ids: set<string>)
    requires ids <= store.Keys
    ensures forall t :: t in RowsOf(store, ids) <==> exists id :: id in ids && store[id] == t
    decreases |ids|
  {
    if ids != {} {
      var id := PickId(ids);
      RowsOfMembers(store, ids - {id});
    }
  }

  lemma {:induction false} RowsOfSize(store: Store, ids: set<string>)
    requires ids <= store.Keys
    ensures |RowsOf(store, ids)| == |ids|
    decreases |ids|
  {
    if ids != {} {
      var id := PickId(ids);
      RowsOfSize(store, ids - {id});
    }
  }

  lemma {:induction false} RowsOfInjective(store: Store, ids: set<string>)
    requires ids <= store.Keys && Injective(store)
    ensures forall t :: RowsOf(store, ids)[t] == (if exists id :: id in ids && store[id] == t then 1 else 0)
    decreases |ids|
  {
    if ids != {} {
      var id := PickId(ids);
      RowsOfInjective(store, ids - {id});
    }
  }
}
