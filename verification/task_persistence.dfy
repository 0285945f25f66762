/**
 * The load/save gate of `useTasks`. Loading reads the stored snapshot once and then
 * clears `isLoading`; the save effect writes the whole collection back, but only once
 * `isLoading` is false, so that an unread snapshot is never overwritten.
 */
module TaskPersistence {
  import opened TaskStore

  /**
   * What the fixed storage key holds. `NoSnapshot` covers a missing or empty value,
   * `Corrupt` a value whose parse throws; `Saved` is a snapshot that parses back to `tasks`.
   */
  datatype Snapshot = NoSnapshot | Saved(tasks: seq<Task>) | Corrupt

  datatype Store = Store(tasks: seq<Task>, isLoading: bool, storage: Snapshot)

  /** The hook's first render: an empty collection, still loading, storage as found. */
  function Init(storage: Snapshot): (s: Store)
    ensures s.isLoading && s.tasks == [] && s.storage == storage
  {
    Store([], true, storage)
  }

  /** The save effect, run whenever `tasks` or `isLoading` changes. */
  function SaveEffect(s: Store): (s': Store)
    ensures s'.tasks == s.tasks && s'.isLoading == s.isLoading
    ensures s.isLoading ==> s'.storage == s.storage
    ensures !s.isLoading ==> s'.storage == Saved(s.tasks)
  {
    if s.isLoading then s else s.(storage := Saved(s.tasks))
  }

  /**
   * The load effect: adopt a readable snapshot, otherwise keep the current tasks
   * (the error is caught), then leave the loading state in every case.
   */
  function Load(s: Store): (s': Store)
    ensures !s'.isLoading
    ensures s.storage.Saved? ==> s'.tasks == s.storage.tasks
    ensures !s.storage.Saved? ==> s'.tasks == s.tasks
    ensures s'.storage == Saved(s'.tasks)
  {
    var tasks := if s.storage.Saved? then s.storage.tasks else s.tasks;
    SaveEffect(Store(tasks, false, s.storage))
  }

  /** One store call followed by the save effect it triggers. */
  function Dispatch(s: Store, cmd: Command, env: Env): (s': Store)
    ensures s'.tasks == Apply(s.tasks, cmd, env)
    ensures s'.isLoading == s.isLoading
    ensures s.isLoading ==> s'.storage == s.storage
    ensures !s.isLoading ==> s'.storage == Saved(s'.tasks)
  {
    SaveEffect(s.(tasks := Apply(s.tasks, cmd, env)))
  }

  datatype Step = Step(cmd: Command, env: Env)

  /** The commands alone, with no storage around them. */
  function ApplyAll(tasks: seq<Task>, steps: seq<Step>): seq<Task>
    decreases |steps|
  {
    if steps == [] then tasks
    else ApplyAll(Apply(tasks, steps[0].cmd, steps[0].env), steps[1..])
  }

  /** A run of commands; the gate never alters the collection nor the loading flag. */
  function DispatchAll(s: Store, steps: seq<Step>): (s': Store)
    ensures s'.tasks == ApplyAll(s.tasks, steps)
    ensures s'.isLoading == s.isLoading
    decreases |steps|
  {
    if steps == [] then s
    else DispatchAll(Dispatch(s, steps[0].cmd, steps[0].env), steps[1..])
  }

  /** Whatever is dispatched before loading finishes, the stored snapshot is not written. */
  lemma {:induction false} NoSaveWhileLoading(s: Store, steps: seq<Step>)
    requires s.isLoading
    ensures DispatchAll(s, steps).isLoading
    ensures DispatchAll(s, steps).storage == s.storage
    decreases |steps|
  {
    if steps != [] {
      NoSaveWhileLoading(Dispatch(s, steps[0].cmd, steps[0].env), steps[1..]);
    }
  }

  /** So the load that follows still sees the snapshot that was there at start-up. */
  lemma EarlyCommandsDoNotClobberSnapshot(storage: Snapshot, steps: seq<Step>)
    ensures var s := Load(DispatchAll(Init(storage), steps));
      && !s.isLoading
      && (storage.Saved? ==> s.tasks == storage.tasks)
  {
    NoSaveWhileLoading(Init(storage), steps);
  }

  /** Starting up with a missing or unreadable snapshot yields an empty, loaded store. */
  lemma FailedLoadIsEmpty(storage: Snapshot)
    requires !storage.Saved?
    ensures Load(Init(storage)) == Store([], false, Saved([]))
  {
  }

  /** Once loaded, every command leaves the storage holding exactly the collection. */
  lemma {:induction false} LoadedStoreStaysSaved(s: Store, steps: seq<Step>)
    requires !s.isLoading && s.storage == Saved(s.tasks)
    ensures var s' := DispatchAll(s, steps); !s'.isLoading && s'.storage == Saved(s'.tasks)
    decreases |steps|
  {
    if steps != [] {
      LoadedStoreStaysSaved(Dispatch(s, steps[0].cmd, steps[0].env), steps[1..]);
    }
  }
}
