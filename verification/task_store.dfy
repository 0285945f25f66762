/**
 * The task store of `useTasks`: the `Task` record, the six operations on the ordered
 * collection, and the aggregate counts. Each operation is a pure function from the
 * collection before to the collection after; the clock (`new Date()`) and the id
 * generator (`crypto.randomUUID()`) are the `Env` readings the call sees.
 */
module TaskStore {
  import opened Wrappers
  import opened Seqs
  import opened Text

  type TaskId = string

  /** Milliseconds since the epoch, as `Date.getTime()` returns them. */
  type Time = int

  datatype Priority = Baixa | Media | Alta

  datatype Status = Pendente | Concluida

  datatype Task = Task(
    id: TaskId,
    title: string,
    description: Option<string>,
    priority: Priority,
    status: Status,
    createdAt: Time,
    updatedAt: Time,
    dueDate: Option<Time>)

  /** The caller's part of a new task: a `Task` without `id`, `createdAt` and `updatedAt`. */
  datatype Draft = Draft(
    title: string,
    description: Option<string>,
    priority: Priority,
    status: Status,
    dueDate: Option<Time>)

  /**
   * The `updates` argument of `updateTask`: a field is `Some` when its key is present.
   * For the optional fields a present key may carry `undefined`, so they nest one more `Option`.
   */
  datatype Patch = Patch(
    title: Option<string>,
    description: Option<Option<string>>,
    priority: Option<Priority>,
    status: Option<Status>,
    dueDate: Option<Option<Time>>)

  /** What the environment supplies to one store call: the clock and a fresh identifier. */
  datatype Env = Env(now: Time, freshId: TaskId)

  /** The store's entry points, as the callbacks the UI invokes. */
  datatype Command =
    | Add(draft: Draft)
    | Update(id: TaskId, patch: Patch)
    | Delete(id: TaskId)
    | ToggleStatus(id: TaskId)
    | ClearCompleted
    | ClearAll

  predicate HasId(tasks: seq<Task>, id: TaskId) {
    exists i | 0 <= i < |tasks| :: tasks[i].id == id
  }

  predicate UniqueIds(tasks: seq<Task>) {
    forall i, j | 0 <= i < |tasks| && 0 <= j < |tasks| && i != j :: tasks[i].id != tasks[j].id
  }

  // ---------------------------------------------------------------- operations

  /** The record `addTask` builds from the caller's data. */
  function NewTask(data: Draft, id: TaskId, now: Time): (t: Task)
    ensures t.id == id && t.createdAt == now && t.updatedAt == now
    ensures Draft(t.title, t.description, t.priority, t.status, t.dueDate) == data
  {
    Task(id, data.title, data.description, data.priority, data.status, now, now, data.dueDate)
  }

  /** `addTask`: appends the new task; the existing tasks are untouched. */
  function AddTask(tasks: seq<Task>, data: Draft, env: Env): (r: seq<Task>)
    ensures |r| == |tasks| + 1 && r[..|tasks|] == tasks
    ensures r[|tasks|] == NewTask(data, env.freshId, env.now)
    ensures HasId(r, env.freshId)
  {
    assert (tasks + [NewTask(data, env.freshId, env.now)])[|tasks|].id == env.freshId;
    tasks + [NewTask(data, env.freshId, env.now)]
  }

  /** `{ ...task, ...updates, updatedAt: new Date() }`. */
  function ApplyPatch(t: Task, patch: Patch, now: Time): (u: Task)
    ensures u.id == t.id && u.createdAt == t.createdAt && u.updatedAt == now
    ensures u.title == patch.title.GetOr(t.title)
    ensures u.description == patch.description.GetOr(t.description)
    ensures u.priority == patch.priority.GetOr(t.priority)
    ensures u.status == patch.status.GetOr(t.status)
    ensures u.dueDate == patch.dueDate.GetOr(t.dueDate)
  {
    Task(t.id,
         patch.title.GetOr(t.title),
         patch.description.GetOr(t.description),
         patch.priority.GetOr(t.priority),
         patch.status.GetOr(t.status),
         t.createdAt,
         now,
         patch.dueDate.GetOr(t.dueDate))
  }

  /** `updateTask`: patches every task with the given id, in place. */
  function UpdateTask(tasks: seq<Task>, id: TaskId, patch: Patch, now: Time): (r: seq<Task>)
    ensures |r| == |tasks|
    ensures forall i | 0 <= i < |tasks| && tasks[i].id != id :: r[i] == tasks[i]
    ensures forall i | 0 <= i < |tasks| && tasks[i].id == id :: r[i] == ApplyPatch(tasks[i], patch, now)
  {
    seq(|tasks|, i requires 0 <= i < |tasks| =>
      if tasks[i].id == id then ApplyPatch(tasks[i], patch, now) else tasks[i])
  }

  function WithId(id: TaskId): Task -> bool {
    (t: Task) => t.id == id
  }

  function WithoutId(id: TaskId): Task -> bool {
    (t: Task) => t.id != id
  }

  /** `deleteTask`: keeps the tasks whose id differs. */
  function DeleteTask(tasks: seq<Task>, id: TaskId): (r: seq<Task>)
    ensures IsSubsequence(r, tasks)
    ensures forall t :: t in r <==> t in tasks && t.id != id
    ensures forall t: Task :: multiset(r)[t] == if t.id != id then multiset(tasks)[t] else 0
    ensures !HasId(r, id)
  {
    Filter(WithoutId(id), tasks)
  }

  function Flip(s: Status): (r: Status)
    ensures r != s
  {
    if s == Pendente then Concluida else Pendente
  }

  /** `toggleTaskStatus`: flips the status of the task with the given id and stamps it. */
  function ToggleTaskStatus(tasks: seq<Task>, id: TaskId, now: Time): (r: seq<Task>)
    ensures |r| == |tasks|
    ensures forall i | 0 <= i < |tasks| && tasks[i].id != id :: r[i] == tasks[i]
    ensures forall i | 0 <= i < |tasks| && tasks[i].id == id ::
      r[i] == tasks[i].(status := Flip(tasks[i].status), updatedAt := now)
  {
    seq(|tasks|, i requires 0 <= i < |tasks| =>
      if tasks[i].id == id then tasks[i].(status := Flip(tasks[i].status), updatedAt := now) else tasks[i])
  }

  predicate IsPending(t: Task) {
    t.status == Pendente
  }

  predicate IsCompleted(t: Task) {
    t.status == Concluida
  }

  /** The `highPriority` count: pending tasks of priority `alta`. */
  predicate IsUrgent(t: Task) {
    t.priority == Alta && t.status == Pendente
  }

  /** `clearCompletedTasks`: keeps the tasks whose status is not `concluida`. */
  function ClearCompletedTasks(tasks: seq<Task>): (r: seq<Task>)
    ensures IsSubsequence(r, tasks)
    ensures forall t :: t in r <==> t in tasks && IsPending(t)
    ensures forall t: Task :: multiset(r)[t] == if IsPending(t) then multiset(tasks)[t] else 0
  {
    Filter((t: Task) => t.status != Concluida, tasks)
  }

  function ClearAllTasks(tasks: seq<Task>): (r: seq<Task>)
    ensures r == []
  {
    []
  }

  /**
   * Runs one store command against the collection. Only `add` grows it, only by one, and
   * only with the fresh id; the in-place commands keep its length; the others only remove.
   */
  function Apply(tasks: seq<Task>, cmd: Command, env: Env): (r: seq<Task>)
    ensures cmd.Add? ==> |r| == |tasks| + 1 && r[..|tasks|] == tasks && r[|tasks|].id == env.freshId
    ensures cmd.Update? || cmd.ToggleStatus? ==> |r| == |tasks|
    ensures cmd.Delete? || cmd.ClearCompleted? || cmd.ClearAll? ==> IsSubsequence(r, tasks)
    ensures forall i | 0 <= i < |r| :: HasId(tasks, r[i].id) || (cmd.Add? && r[i].id == env.freshId)
  {
    match cmd
    case Add(draft) => AddTask(tasks, draft, env)
    case Update(id, patch) => UpdateTask(tasks, id, patch, env.now)
    case Delete(id) => DeleteTask(tasks, id)
    case ToggleStatus(id) => ToggleTaskStatus(tasks, id, env.now)
    case ClearCompleted => ClearCompletedTasks(tasks)
    case ClearAll => ClearAllTasks(tasks)
  }

  // ---------------------------------------------------------------- statistics

  datatype Stats = Stats(total: nat, completed: nat, pending: nat, highPriority: nat)

  /** The `stats` object: each count is the length of a filter of the collection. */
  function ComputeStats(tasks: seq<Task>): (s: Stats)
    ensures s.total == |tasks|
    ensures s.total == s.completed + s.pending
    ensures s.highPriority <= s.pending
    ensures tasks == [] ==> s == Stats(0, 0, 0, 0)
  {
    CountComplement(IsCompleted, IsPending, tasks);
    CountMonotone(IsUrgent, IsPending, tasks);
    Stats(|tasks|, CountWhere(IsCompleted, tasks), CountWhere(IsPending, tasks), CountWhere(IsUrgent, tasks))
  }

  // ---------------------------------------------------------------- invariants

  /** `createdAt <= updatedAt` for every task. */
  predicate WellTimed(tasks: seq<Task>) {
    forall i | 0 <= i < |tasks| :: tasks[i].createdAt <= tasks[i].updatedAt
  }

  /** The clock reading `now` is not behind any timestamp already recorded. */
  predicate NotAfter(tasks: seq<Task>, now: Time) {
    forall i | 0 <= i < |tasks| :: tasks[i].updatedAt <= now
  }

  /** The store's caller only ever submits titles that are not blank. */
  predicate TitlesNonBlank(tasks: seq<Task>) {
    forall i | 0 <= i < |tasks| :: !IsBlank(tasks[i].title)
  }

  /** A command that cannot put a blank title into the collection. */
  predicate KeepsTitlesNonBlank(cmd: Command) {
    match cmd
    case Add(draft) => !IsBlank(draft.title)
    case Update(_, patch) => patch.title.Some? ==> !IsBlank(patch.title.value)
    case _ => true
  }

  lemma {:induction false} SubsequenceKeepsIdsUnique(a: seq<Task>, b: seq<Task>)
    requires IsSubsequence(a, b)
    requires UniqueIds(b)
    ensures UniqueIds(a)
    decreases |b|
  {
    if a != [] {
      assert UniqueIds(b[1..]) by {
        forall i, j | 0 <= i < |b[1..]| && 0 <= j < |b[1..]| && i != j
          ensures b[1..][i].id != b[1..][j].id
        {
          assert b[1..][i] == b[i + 1] && b[1..][j] == b[j + 1];
        }
      }
      if a[0] == b[0] && IsSubsequence(a[1..], b[1..]) {
        SubsequenceKeepsIdsUnique(a[1..], b[1..]);
        SubsequenceMembers(a[1..], b[1..]);
        forall i, j | 0 <= i < |a| && 0 <= j < |a| && i != j
          ensures a[i].id != a[j].id
        {
          if i > 0 && j > 0 {
            assert a[i] == a[1..][i - 1] && a[j] == a[1..][j - 1];
          } else {
            var k := if i == 0 then j else i;
            assert a[k] in a[1..] by { assert a[k] == a[1..][k - 1]; }
            var m :| 0 <= m < |b[1..]| && b[1..][m] == a[k];
            assert b[m + 1] == a[k];
          }
        }
      } else {
        SubsequenceKeepsIdsUnique(a, b[1..]);
      }
    }
  }

  /** Ids stay unique under every command, given that the id supply hands out a fresh id. */
  lemma ApplyKeepsIdsUnique(tasks: seq<Task>, cmd: Command, env: Env)
    requires UniqueIds(tasks)
    requires cmd.Add? ==> !HasId(tasks, env.freshId)
    ensures UniqueIds(Apply(tasks, cmd, env))
  {
    var r := Apply(tasks, cmd, env);
    match cmd
    case Add(_) =>
      forall i, j | 0 <= i < |r| && 0 <= j < |r| && i != j ensures r[i].id != r[j].id {
        if i < |tasks| && j < |tasks| {
          assert r[i] == tasks[i] && r[j] == tasks[j];
        } else if i < |tasks| {
          assert r[i] == tasks[i];
        } else {
          assert r[j] == tasks[j];
        }
      }
    case Delete(id) => SubsequenceKeepsIdsUnique(r, tasks);
    case ClearCompleted => SubsequenceKeepsIdsUnique(r, tasks);
    case _ =>
  }

  /** Each task of `after` keeps the `createdAt` of its namesake in `before`, and its `updatedAt` does not go back. */
  predicate TimestampsAdvance(before: seq<Task>, after: seq<Task>) {
    forall i, j | 0 <= i < |before| && 0 <= j < |after| && before[i].id == after[j].id ::
      after[j].createdAt == before[i].createdAt && after[j].updatedAt >= before[i].updatedAt
  }

  /**
   * Timestamps under every command, with a clock that does not run backwards:
   * `createdAt` of a surviving task never changes, its `updatedAt` never decreases,
   * and `createdAt <= updatedAt` keeps holding.
   */
  lemma ApplyKeepsTimestamps(tasks: seq<Task>, cmd: Command, env: Env)
    requires UniqueIds(tasks) && NotAfter(tasks, env.now)
    requires cmd.Add? ==> !HasId(tasks, env.freshId)
    ensures WellTimed(tasks) ==> WellTimed(Apply(tasks, cmd, env))
    ensures NotAfter(Apply(tasks, cmd, env), env.now)
    ensures TimestampsAdvance(tasks, Apply(tasks, cmd, env))
  {
    var r := Apply(tasks, cmd, env);
    match cmd
    case Add(_) => AddAdvances(tasks, r, env);
    case Update(id, patch) => StampAdvances(tasks, r, env.now);
    case ToggleStatus(id) => StampAdvances(tasks, r, env.now);
    case Delete(_) => SubsequenceAdvances(tasks, r);
    case ClearCompleted => SubsequenceAdvances(tasks, r);
    case ClearAll =>
  }

  lemma AddAdvances(tasks: seq<Task>, r: seq<Task>, env: Env)
    requires UniqueIds(tasks) && NotAfter(tasks, env.now) && !HasId(tasks, env.freshId)
    requires |r| == |tasks| + 1 && r[..|tasks|] == tasks
    requires r[|tasks|].id == env.freshId && r[|tasks|].createdAt == env.now == r[|tasks|].updatedAt
    ensures WellTimed(tasks) ==> WellTimed(r)
    ensures NotAfter(r, env.now)
    ensures TimestampsAdvance(tasks, r)
  {
    assert forall j | 0 <= j < |tasks| :: r[j] == tasks[j];
    forall i, j | 0 <= i < |tasks| && 0 <= j < |r| && tasks[i].id == r[j].id
      ensures r[j].createdAt == tasks[i].createdAt && r[j].updatedAt >= tasks[i].updatedAt
    {
      if j == |tasks| {
        assert false;
      } else {
        assert i == j;
      }
    }
  }

  /** `updateTask` and `toggleTaskStatus` touch a task only to stamp it with `now`. */
  lemma StampAdvances(tasks: seq<Task>, r: seq<Task>, now: Time)
    requires UniqueIds(tasks) && NotAfter(tasks, now)
    requires |r| == |tasks|
    requires forall i | 0 <= i < |tasks| ::
      r[i] == tasks[i] || (r[i].id == tasks[i].id && r[i].createdAt == tasks[i].createdAt && r[i].updatedAt == now)
    ensures WellTimed(tasks) ==> WellTimed(r)
    ensures NotAfter(r, now)
    ensures TimestampsAdvance(tasks, r)
  {
    forall i, j | 0 <= i < |tasks| && 0 <= j < |r| && tasks[i].id == r[j].id
      ensures r[j].createdAt == tasks[i].createdAt && r[j].updatedAt >= tasks[i].updatedAt
    {
      assert tasks[j].id == r[j].id;
      assert i == j;
    }
  }

  lemma SubsequenceAdvances(tasks: seq<Task>, r: seq<Task>)
    requires UniqueIds(tasks) && IsSubsequence(r, tasks)
    ensures WellTimed(tasks) ==> WellTimed(r)
    ensures forall now | NotAfter(tasks, now) :: NotAfter(r, now)
    ensures TimestampsAdvance(tasks, r)
  {
    SubsequenceMembers(r, tasks);
    SubsequenceKeepsUniquePositions(tasks, r);
    forall j | 0 <= j < |r| ensures exists i | 0 <= i < |tasks| :: tasks[i] == r[j] {
      assert r[j] in r;
    }
  }

  /** Every task of a filtered collection is the one task of the original with its id. */
  lemma SubsequenceKeepsUniquePositions(tasks: seq<Task>, r: seq<Task>)
    requires UniqueIds(tasks)
    requires IsSubsequence(r, tasks)
    ensures forall i, j | 0 <= i < |tasks| && 0 <= j < |r| && tasks[i].id == r[j].id :: r[j] == tasks[i]
  {
    SubsequenceMembers(r, tasks);
    forall i, j | 0 <= i < |tasks| && 0 <= j < |r| && tasks[i].id == r[j].id
      ensures r[j] == tasks[i]
    {
      assert r[j] in r;
      var m :| 0 <= m < |tasks| && tasks[m] == r[j];
    }
  }

  /** Commands that cannot introduce a blank title keep every title non-blank. */
  lemma ApplyKeepsTitlesNonBlank(tasks: seq<Task>, cmd: Command, env: Env)
    requires TitlesNonBlank(tasks)
    requires KeepsTitlesNonBlank(cmd)
    ensures TitlesNonBlank(Apply(tasks, cmd, env))
  {
    var r := Apply(tasks, cmd, env);
    match cmd
    case Delete(_) =>
      SubsequenceMembers(r, tasks);
      forall j | 0 <= j < |r| ensures !IsBlank(r[j].title) {
        assert r[j] in r;
      }
    case ClearCompleted =>
      SubsequenceMembers(r, tasks);
      forall j | 0 <= j < |r| ensures !IsBlank(r[j].title) {
        assert r[j] in r;
      }
    case _ =>
  }

  // ---------------------------------------------------------------- per-operation laws

  /** `updateTask` with an id that is not present leaves the collection as it was. */
  lemma UpdateUnknownIdIsNoOp(tasks: seq<Task>, id: TaskId, patch: Patch, now: Time)
    requires !HasId(tasks, id)
    ensures UpdateTask(tasks, id, patch, now) == tasks
  {
  }

  /** `deleteTask` with an id that is not present leaves the collection as it was. */
  lemma DeleteUnknownIdIsNoOp(tasks: seq<Task>, id: TaskId)
    requires !HasId(tasks, id)
    ensures DeleteTask(tasks, id) == tasks
  {
    FilterKeepsAll(WithoutId(id), tasks);
  }

  /** Deleting an id removes exactly one task when it is present and the ids are unique. */
  lemma DeletePresentIdRemovesOne(tasks: seq<Task>, id: TaskId)
    requires UniqueIds(tasks) && HasId(tasks, id)
    ensures |DeleteTask(tasks, id)| == |tasks| - 1
  {
    CountComplement(WithoutId(id), WithId(id), tasks);
    CountWithId(tasks, id);
  }

  /** With unique ids, at most one task carries a given id. */
  lemma {:induction false} CountWithId(tasks: seq<Task>, id: TaskId)
    requires UniqueIds(tasks)
    ensures CountWhere(WithId(id), tasks) == if HasId(tasks, id) then 1 else 0
  {
    if tasks != [] {
      var rest := tasks[1..];
      CountCons(WithId(id), tasks);
      assert UniqueIds(rest) by {
        forall i, j | 0 <= i < |rest| && 0 <= j < |rest| && i != j ensures rest[i].id != rest[j].id {
          assert rest[i] == tasks[i + 1] && rest[j] == tasks[j + 1];
        }
      }
      CountWithId(rest, id);
      if HasId(rest, id) {
        var m :| 0 <= m < |rest| && rest[m].id == id;
        assert tasks[m + 1].id == id;
      }
      if HasId(tasks, id) {
        var m :| 0 <= m < |tasks| && tasks[m].id == id;
        if m > 0 {
          assert rest[m - 1].id == id;
        }
      }
    }
  }

  /** Toggling the same task twice restores its status; only `updatedAt` remembers it. */
  lemma ToggleTwiceRestoresStatus(tasks: seq<Task>, id: TaskId, now1: Time, now2: Time)
    ensures var r := ToggleTaskStatus(ToggleTaskStatus(tasks, id, now1), id, now2);
      && |r| == |tasks|
      && (forall i | 0 <= i < |tasks| :: r[i] == if tasks[i].id == id then tasks[i].(updatedAt := now2) else tasks[i])
  {
  }

  /** `clearCompletedTasks` is idempotent. */
  lemma ClearCompletedIdempotent(tasks: seq<Task>)
    ensures ClearCompletedTasks(ClearCompletedTasks(tasks)) == ClearCompletedTasks(tasks)
  {
    FilterIdempotent((t: Task) => t.status != Concluida, tasks);
  }

  /** `clearAllTasks` twice is `clearAllTasks` once. */
  lemma ClearAllIdempotent(tasks: seq<Task>)
    ensures ClearAllTasks(ClearAllTasks(tasks)) == ClearAllTasks(tasks)
  {
  }

  /** Adding a task moves each count by exactly what the new task contributes. */
  lemma AddTaskStats(tasks: seq<Task>, data: Draft, env: Env)
    ensures var before := ComputeStats(tasks);
      var after := ComputeStats(AddTask(tasks, data, env));
      var t := NewTask(data, env.freshId, env.now);
      && after.total == before.total + 1
      && after.completed == before.completed + Indicator(t.status == Concluida)
      && after.pending == before.pending + Indicator(t.status == Pendente)
      && after.highPriority == before.highPriority + Indicator(IsUrgent(t))
  {
    var t := NewTask(data, env.freshId, env.now);
    CountAppend(IsCompleted, tasks, t);
    CountAppend(IsPending, tasks, t);
    CountAppend(IsUrgent, tasks, t);
  }

  /**
   * Appending any task moves each count by exactly what that task contributes; with the
   * empty case of `ComputeStats` this fixes every count of every collection.
   */
  lemma StatsAppend(tasks: seq<Task>, t: Task)
    ensures var before := ComputeStats(tasks);
      var after := ComputeStats(tasks + [t]);
      && after.total == before.total + 1
      && after.completed == before.completed + Indicator(t.status == Concluida)
      && after.pending == before.pending + Indicator(t.status == Pendente)
      && after.highPriority == before.highPriority + Indicator(t.status == Pendente && t.priority == Alta)
  {
    CountAppend(IsCompleted, tasks, t);
    CountAppend(IsPending, tasks, t);
    CountAppend(IsUrgent, tasks, t);
  }

  /** Completing a pending task moves one from `pending` to `completed`. */
  lemma ToggleStats(tasks: seq<Task>, k: nat, now: Time)
    requires UniqueIds(tasks) && k < |tasks| && tasks[k].status == Pendente
    ensures var before := ComputeStats(tasks);
      var after := ComputeStats(ToggleTaskStatus(tasks, tasks[k].id, now));
      && after.total == before.total
      && after.completed == before.completed + 1
      && after.pending == before.pending - 1
      && after.highPriority == before.highPriority - Indicator(tasks[k].priority == Alta)
  {
    var r := ToggleTaskStatus(tasks, tasks[k].id, now);
    assert forall i | 0 <= i < |tasks| && i != k :: r[i] == tasks[i];
    CountPointUpdate(IsCompleted, tasks, r, k);
    CountPointUpdate(IsPending, tasks, r, k);
    CountPointUpdate(IsUrgent, tasks, r, k);
  }

  /** Reopening a completed task moves one from `completed` back to `pending`. */
  lemma ReopenStats(tasks: seq<Task>, k: nat, now: Time)
    requires UniqueIds(tasks) && k < |tasks| && tasks[k].status == Concluida
    ensures var before := ComputeStats(tasks);
      var after := ComputeStats(ToggleTaskStatus(tasks, tasks[k].id, now));
      && after.total == before.total
      && after.completed == before.completed - 1
      && after.pending == before.pending + 1
      && after.highPriority == before.highPriority + Indicator(tasks[k].priority == Alta)
  {
    var r := ToggleTaskStatus(tasks, tasks[k].id, now);
    assert forall i | 0 <= i < |tasks| && i != k :: r[i] == tasks[i];
    CountPointUpdate(IsCompleted, tasks, r, k);
    CountPointUpdate(IsPending, tasks, r, k);
    CountPointUpdate(IsUrgent, tasks, r, k);
  }
}
