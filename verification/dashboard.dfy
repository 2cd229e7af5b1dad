/** The dashboard (src/pages/Home.tsx): three status counts, the completion
    rate, and the recent-activity list. */
module Dashboard {
  import opened Wrappers
  import opened Text
  import opened Numeric
  import opened TaskTypes

  // ---------------------------------------------------------------- counts

  /** The status of each task, in list order. */
  function Statuses(tasks: seq<Task>): (r: seq<Status>)
    ensures |r| == |tasks|
  {
    if tasks == [] then [] else [tasks[0].status] + Statuses(tasks[1..])
  }

  /** `tasks.filter((t) => t.status === s).length`. */
  function StatusCount(tasks: seq<Task>, s: Status): nat {
    |WithStatus(tasks, s)|
  }

  /** A count is the number of tasks that carry exactly that status: the
      multiplicity of `s` among the tasks' statuses. */
  lemma {:induction false} StatusCountIsOccurrences(tasks: seq<Task>, s: Status)
    ensures StatusCount(tasks, s) == multiset(Statuses(tasks))[s]
  {
    if tasks != [] {
      StatusCountIsOccurrences(tasks[1..], s);
      assert multiset(Statuses(tasks)) == multiset{tasks[0].status} + multiset(Statuses(tasks[1..]));
    }
  }

  // ---------------------------------------------------------------- completion rate

  /** `total > 0 ? Math.round((done / total) * 100) : 0`, computed exactly:
      the whole percentage nearest to done/total, a half rounding up. */
  function CompletionRate(total: nat, done: nat): (rate: nat)
    requires done <= total
    ensures rate <= 100
    ensures total > 0 ==> 2 * rate * total <= 200 * done + total < 2 * (rate + 1) * total
    ensures total == 0 || done == 0 ==> rate == 0
    ensures total > 0 && done == total ==> rate == 100
  {
    if total > 0 then
      var rate := RoundHalfUp(100 * done, total);
      CompletionRateFacts(total, done);
      rate
    else 0
  }

  lemma CompletionRateFacts(total: nat, done: nat)
    requires 0 < total && done <= total
    ensures var rate := RoundHalfUp(100 * done, total);
      && rate <= 100
      && 2 * rate * total <= 200 * done + total < 2 * (rate + 1) * total
      && (done == 0 ==> rate == 0)
      && (done == total ==> rate == 100)
  {
    var rate := RoundHalfUp(100 * done, total);
    RoundHalfUpNearest(100 * done, total);
    MulMono(done, total, 200);
    MulCancel(2 * rate, 202, total);
    if done == 0 {
      assert 2 * 0 + total < 2 * total;
    }
    if done == total {
      RoundHalfUpExact(100, total);
    }
  }

  lemma MulMono(a: nat, b: nat, c: nat)
    requires a <= b
    ensures a * c <= b * c
  {
  }

  lemma MulCancel(a: nat, b: nat, c: nat)
    requires a * c < b * c
    ensures a < b
  {
  }

  /** The rate as the card shows it, `${completionRate}%`. */
  function RateLabel(rate: nat): (r: string)
    ensures |r| >= 2 && r[|r| - 1] == '%'
    ensures IsNumeral(r[..|r| - 1]) && NumeralValue(r[..|r| - 1]) == rate
    ensures |r| == 2 || r[0] != '0'
  {
    var r := Show(rate) + "%";
    assert r[..|r| - 1] == Show(rate);
    r
  }

  // ---------------------------------------------------------------- recent activity

  /** The recent-activity panel: the "No tasks yet" message, or a list. */
  datatype RecentPanel = NoTasksYet | Recent(items: seq<Task>)

  /** `tasks.length === 0 ? <message> : tasks.slice(0, 5)`. */
  function RecentActivity(tasks: seq<Task>): (r: RecentPanel)
    ensures r.NoTasksYet? <==> tasks == []
    ensures r.Recent? ==> 1 <= |r.items| <= 5 && |r.items| <= |tasks| && (|r.items| == 5 || r.items == tasks)
    ensures r.Recent? ==> forall i :: 0 <= i < |r.items| ==> r.items[i] == tasks[i]
  {
    if tasks == [] then NoTasksYet
    else Recent(tasks[..if |tasks| < 5 then |tasks| else 5])
  }

  /** Tasks added after the first five never reach the panel. */
  lemma RecentIgnoresLaterTasks(tasks: seq<Task>, later: seq<Task>)
    requires |tasks| >= 5
    ensures RecentActivity(tasks + later) == RecentActivity(tasks)
  {
    assert (tasks + later)[..5] == tasks[..5];
  }

  // ---------------------------------------------------------------- the page

  datatype Stats = Stats(todo: nat, inProgress: nat, done: nat, completionRate: nat)

  /** The four stat cards. */
  function DashboardStats(tasks: seq<Task>): (r: Stats)
    ensures r.todo + r.inProgress + r.done == |tasks|
    ensures r.todo == StatusCount(tasks, Todo) && r.inProgress == StatusCount(tasks, InProgress)
    ensures r.done == StatusCount(tasks, Done)
    ensures r.completionRate == CompletionRate(|tasks|, r.done)
    ensures r.completionRate <= 100
    ensures tasks == [] ==> r.completionRate == 0
    ensures tasks != [] && r.done == |tasks| ==> r.completionRate == 100
  {
    WithStatusPartition(tasks);
    var done := StatusCount(tasks, Done);
    Stats(StatusCount(tasks, Todo), StatusCount(tasks, InProgress), done, CompletionRate(|tasks|, done))
  }

  /** Every status card counts its own status: the three counts are the
      multiplicities of the three statuses. */
  lemma DashboardCountsOccurrences(tasks: seq<Task>)
    ensures var r := DashboardStats(tasks);
      var m := multiset(Statuses(tasks));
      r.todo == m[Todo] && r.inProgress == m[InProgress] && r.done == m[Done]
  {
    StatusCountIsOccurrences(tasks, Todo);
    StatusCountIsOccurrences(tasks, InProgress);
    StatusCountIsOccurrences(tasks, Done);
  }
}
