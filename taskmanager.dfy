/**
 * The task store, `class TaskManager` (Cursach/TaskManager.cpp), single-threaded:
 * the reader/writer lock is left out. `Save` is observed through `saved` (the
 * list last handed to persistence) and the counter `saves`; the change callback
 * through `onChangeSet` and the counter `changes`.
 */
module Store {
  import opened Wrappers
  import opened Calendar
  import opened Tasks
  import opened NextRun

  /** The index of the first task with this id, as `std::find_if` and the loops over `tasks` find it. */
  function IndexOfId(tasks: seq<Task>, id: string): (r: Option<nat>)
    ensures r.Some? ==> r.value < |tasks| && tasks[r.value].id == id
    ensures r.Some? ==> forall j :: 0 <= j < r.value ==> tasks[j].id != id
    ensures r.None? ==> forall j :: 0 <= j < |tasks| ==> tasks[j].id != id
  {
    if tasks == [] then None
    else if tasks[0].id == id then Some(0)
    else
      match IndexOfId(tasks[1..], id)
      case None => None
      case Some(i) => Some(i + 1)
  }

  /**
   * After an append, lookups that found a task still find the same one, and the
   * appended task is found by its id when no earlier task has that id.
   */
  lemma {:induction false} AppendKeepsLookups(tasks: seq<Task>, t: Task, id: string)
    ensures IndexOfId(tasks, id).Some? ==> IndexOfId(tasks + [t], id) == IndexOfId(tasks, id)
    ensures IndexOfId(tasks, id).None? ==> IndexOfId(tasks + [t], id) == (if t.id == id then Some(|tasks|) else None)
  {
    if tasks != [] {
      assert (tasks + [t])[1..] == tasks[1..] + [t];
      AppendKeepsLookups(tasks[1..], t, id);
    }
  }

  /** What the load fix-up makes of the `k`-th loaded task: an id if it had none, then a fresh next run. */
  function FixedUp(t: Task, k: nat, now: Time, guid: nat -> string): Task {
    Recalculate(if t.id == "" then t.(id := guid(k)) else t, now)
  }

  class TaskManager {
    var tasks: seq<Task>
    var saved: seq<Task>
    var saves: nat
    var onChangeSet: bool
    var changes: nat

    /**
     * `TaskManager()`: loads the tasks persistence returned. No change callback
     * is registered yet, so none runs. `guid` stands for `util::GenerateGUID`,
     * which always returns a non-empty string.
     */
    constructor (loaded: seq<Task>, now: Time, guid: nat -> string)
      requires forall k :: guid(k) != ""
      ensures |tasks| == |loaded|
      ensures forall i :: 0 <= i < |loaded| ==> tasks[i] == FixedUp(loaded[i], i, now, guid)
      ensures forall i :: 0 <= i < |tasks| ==> tasks[i].id != ""
      ensures saved == [] && saves == 0 && !onChangeSet && changes == 0
    {
      tasks, saved, saves, onChangeSet, changes := [], [], 0, false, 0;
      new;
      Load(loaded, now, guid);
    }

    /** `GetAllTasks`: a snapshot of the list. */
    method GetAllTasks() returns (snapshot: seq<Task>)
      ensures snapshot == tasks
    {
      snapshot := tasks;
    }

    /**
     * `SetOnChange`: installs the change callback, replacing any earlier one.
     * `nonEmpty` says whether the `std::function` passed holds a target; an
     * empty one installs nothing that `if (onChange)` would call.
     */
    method SetOnChange(nonEmpty: bool)
      modifies this
      ensures onChangeSet == nonEmpty
      ensures tasks == old(tasks) && saved == old(saved) && saves == old(saves) && changes == old(changes)
    {
      onChangeSet := nonEmpty;
    }

    /** `Save`: hands the whole list to persistence. */
    method Save()
      modifies this
      ensures saved == tasks && saves == old(saves) + 1
      ensures tasks == old(tasks) && onChangeSet == old(onChangeSet) && changes == old(changes)
    {
      saved := tasks;
      saves := saves + 1;
    }

    /** `if (onChange) onChange();` */
    method NotifyChange()
      modifies this
      ensures changes == old(changes) + (if onChangeSet then 1 else 0)
      ensures tasks == old(tasks) && saved == old(saved) && saves == old(saves) && onChangeSet == old(onChangeSet)
    {
      if onChangeSet {
        changes := changes + 1;
      }
    }

    /** `AddTask`: appends, recomputes the added task's next run, saves, notifies. */
    method AddTask(task: Task, now: Time)
      modifies this
      ensures tasks == old(tasks) + [Recalculate(task, now)]
      ensures saved == tasks && saves == old(saves) + 1
      ensures changes == old(changes) + (if onChangeSet then 1 else 0) && onChangeSet == old(onChangeSet)
    {
      tasks := tasks + [task];
      var t := CalculateNextRun(tasks[|tasks| - 1], now);
      tasks := tasks[|tasks| - 1 := t];
      Save();
      NotifyChange();
    }

    /** `RemoveTask`: erases the first task with this id; when there is none, does nothing at all. */
    method RemoveTask(id: string)
      modifies this
      ensures IndexOfId(old(tasks), id).None? ==>
        tasks == old(tasks) && saved == old(saved) && saves == old(saves) && changes == old(changes)
      ensures IndexOfId(old(tasks), id).Some? ==>
        var i := IndexOfId(old(tasks), id).value;
        && tasks == old(tasks)[..i] + old(tasks)[i + 1..]
        && saved == tasks && saves == old(saves) + 1
        && changes == old(changes) + (if onChangeSet then 1 else 0)
      ensures onChangeSet == old(onChangeSet)
    {
      var i := 0;
      while i < |tasks| && tasks[i].id != id
        invariant 0 <= i <= |tasks|
        invariant forall j :: 0 <= j < i ==> tasks[j].id != id
      {
        i := i + 1;
      }
      if i == |tasks| {
        return;
      }
      tasks := tasks[..i] + tasks[i + 1..];
      Save();
      NotifyChange();
    }

    /** `UpdateTask`: replaces the first task with the same id and recomputes it; saves and notifies in any case. */
    method UpdateTask(task: Task, now: Time)
      modifies this
      ensures |tasks| == |old(tasks)|
      ensures IndexOfId(old(tasks), task.id).None? ==> tasks == old(tasks)
      ensures IndexOfId(old(tasks), task.id).Some? ==>
        tasks == old(tasks)[IndexOfId(old(tasks), task.id).value := Recalculate(task, now)]
      ensures saved == tasks && saves == old(saves) + 1
      ensures changes == old(changes) + (if onChangeSet then 1 else 0) && onChangeSet == old(onChangeSet)
    {
      var i := 0;
      while i < |tasks|
        invariant 0 <= i <= |tasks|
        invariant tasks == old(tasks)
        invariant forall j :: 0 <= j < i ==> tasks[j].id != task.id
      {
        if tasks[i].id == task.id {
          var t := CalculateNextRun(task, now);
          tasks := tasks[i := t];
          break;
        }
        i := i + 1;
      }
      Save();
      NotifyChange();
    }

    /** `GetTaskById`: the first task with this id, or None for the null pointer. */
    method GetTaskById(id: string) returns (r: Option<Task>)
      ensures r.Some? <==> exists j :: 0 <= j < |tasks| && tasks[j].id == id
      ensures r.Some? ==> r == Some(tasks[IndexOfId(tasks, id).value]) && r.value.id == id
    {
      for i := 0 to |tasks|
        invariant forall j :: 0 <= j < i ==> tasks[j].id != id
      {
        if tasks[i].id == id {
          return Some(tasks[i]);
        }
      }
      return None;
    }

    /**
     * `Load`: replaces the list by the loaded one, gives every task without an
     * id a generated one, recomputes every next run, and notifies.
     */
    method Load(loaded: seq<Task>, now: Time, guid: nat -> string)
      requires forall k :: guid(k) != ""
      modifies this
      ensures |tasks| == |loaded|
      ensures forall i :: 0 <= i < |loaded| ==> tasks[i] == FixedUp(loaded[i], i, now, guid)
      ensures forall i :: 0 <= i < |tasks| ==> tasks[i].id != ""
      ensures saved == old(saved) && saves == old(saves) && onChangeSet == old(onChangeSet)
      ensures changes == old(changes) + (if onChangeSet then 1 else 0)
    {
      tasks := loaded;
      for i := 0 to |tasks|
        invariant |tasks| == |loaded|
        invariant forall j :: 0 <= j < i ==> tasks[j] == FixedUp(loaded[j], j, now, guid)
        invariant forall j :: i <= j < |tasks| ==> tasks[j] == loaded[j]
        invariant saved == old(saved) && saves == old(saves) && onChangeSet == old(onChangeSet) && changes == old(changes)
      {
        var t := tasks[i];
        if t.id == "" {
          t := t.(id := guid(i));
        }
        t := CalculateNextRun(t, now);
        tasks := tasks[i := t];
      }
      NotifyChange();
    }
  }
}
