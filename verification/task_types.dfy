/** The task record and its two closed enumerations, as the client reads them
    from the `tasks` table. */
module TaskTypes {
  import opened Wrappers
  import opened Seqs

  datatype Priority = Low | Medium | High

  datatype Status = Todo | InProgress | Done

  /** One row of the `tasks` table. `dueDate` is the stored `yyyy-MM-dd` text;
      `timeEstimate` is in minutes. The row timestamps are not modelled. */
  datatype Task = Task(
    id: string,
    title: string,
    description: Option<string>,
    priority: Priority,
    status: Status,
    dueDate: Option<string>,
    timeEstimate: Option<int>,
    tags: seq<string>,
    position: int)

  /** What a caller hands to `createTask`; every field but the title may be omitted. */
  datatype CreateTaskInput = CreateTaskInput(
    title: string,
    description: Option<string>,
    priority: Option<Priority>,
    status: Option<Status>,
    dueDate: Option<string>,
    timeEstimate: Option<int>,
    tags: Option<seq<string>>)

  /** `tasks.filter((t) => t.status === status)`, shared by the dashboard
      counts and the board columns. */
  function WithStatus(tasks: seq<Task>, s: Status): (r: seq<Task>)
    ensures forall i :: 0 <= i < |r| ==> r[i].status == s && r[i] in tasks
    ensures forall i :: 0 <= i < |tasks| && tasks[i].status == s ==> tasks[i] in r
  {
    Filter(tasks, (t: Task) => t.status == s)
  }

  /** Status is a closed three-valued type, so the three status views split
      the list: their sizes add up to the number of tasks. */
  lemma {:induction false} WithStatusPartition(tasks: seq<Task>)
    ensures |WithStatus(tasks, Todo)| + |WithStatus(tasks, InProgress)| + |WithStatus(tasks, Done)| == |tasks|
  {
    if tasks != [] {
      WithStatusPartition(tasks[1..]);
    }
  }
}
