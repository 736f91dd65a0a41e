/** The `task` slice: a list of tasks and the reducer that maintains
    it. The reducer never mutates its input; it returns a new state. */
module TaskReducer {
  import opened Records
  import opened Actions
  import TaskActions

  datatype TaskState = TaskState(tasks: seq<Task>)

  /** The state the slice starts from: no tasks. */
  function Initial(): (s: TaskState)
    ensures |s.tasks| == 0
  {
    TaskState([])
  }

  /** One step of the slice: append, filter out by id, replace by id, or
      leave the state as it is for any other action. */
  function Reduce(state: TaskState, action: Action): (r: TaskState)
    requires WellFormed(action)
    ensures action.AddTask? ==>
      && |r.tasks| == |state.tasks| + 1
      && r.tasks[..|state.tasks|] == state.tasks
      && r.tasks[|state.tasks|] == action.task
    ensures action.RemoveTask? ==>
      && Absent(r.tasks, action.id)
      && |r.tasks| == |state.tasks| - Count(state.tasks, action.id)
      && Subsequence(r.tasks, state.tasks)
      && (forall i :: 0 <= i < |state.tasks| && state.tasks[i].id != action.id ==> state.tasks[i] in r.tasks)
    ensures action.UpdateTask? ==>
      && |r.tasks| == |state.tasks|
      && forall i :: 0 <= i < |state.tasks| ==>
           r.tasks[i] == if state.tasks[i].id == action.task.id then action.task else state.tasks[i]
    ensures !action.IsTaskAction() ==> r == state
  {
    match action
    case AddTask(t) => state.(tasks := state.tasks + [t])
    case RemoveTask(id) =>
      WithoutKeepsOthers(state.tasks, id);
      state.(tasks := Without(state.tasks, id))
    case UpdateTask(t) => state.(tasks := Replace(state.tasks, t))
    case _ => state
  }

  /** Each creator, dispatched to this reducer, performs its operation. */
  lemma CreatorsDriveReducer(state: TaskState, t: Task, id: Id)
    ensures Reduce(state, TaskActions.Add(t)).tasks == state.tasks + [t]
    ensures Reduce(state, TaskActions.Remove(id)).tasks == Without(state.tasks, id)
    ensures Reduce(state, TaskActions.Update(t)).tasks == Replace(state.tasks, t)
  {
  }

  lemma RemoveIdempotent(state: TaskState, id: Id)
    ensures Reduce(Reduce(state, TaskActions.Remove(id)), TaskActions.Remove(id))
         == Reduce(state, TaskActions.Remove(id))
  {
    WithoutIdempotent(state.tasks, id);
  }

  lemma RemoveAbsentIsNoOp(state: TaskState, id: Id)
    requires Absent(state.tasks, id)
    ensures Reduce(state, TaskActions.Remove(id)) == state
  {
    WithoutAbsent(state.tasks, id);
  }

  lemma UpdateAbsentIsNoOp(state: TaskState, t: Task)
    requires Absent(state.tasks, t.id)
    ensures Reduce(state, TaskActions.Update(t)) == state
  {
    ReplaceAbsent(state.tasks, t);
  }

  /** Updating keeps every position's id, so the tasks shown and
      their order do not move. */
  lemma UpdateKeepsIds(state: TaskState, t: Task)
    ensures forall i :: 0 <= i < |state.tasks| ==>
      Reduce(state, TaskActions.Update(t)).tasks[i].id == state.tasks[i].id
    ensures Reduce(Reduce(state, TaskActions.Update(t)), TaskActions.Update(t))
         == Reduce(state, TaskActions.Update(t))
  {
    ReplaceIdempotent(state.tasks, t);
  }

  /** Dispatching `removeTask(t.id)` right after `addTask(t)` restores a
      list that held no task with that id. */
  lemma AddThenRemoveRestores(state: TaskState, t: Task)
    requires Absent(state.tasks, t.id)
    ensures Reduce(Reduce(state, TaskActions.Add(t)), TaskActions.Remove(t.id)) == state
  {
    AppendThenWithout(state.tasks, t);
    WithoutAbsent(state.tasks, t.id);
  }

  /** Adding performs no duplicate check: adding a task whose id is already
      present grows the list and the number of copies of that id, and one
      removal then drops every copy. */
  lemma DuplicateAdd(state: TaskState, t: Task)
    ensures |Reduce(state, TaskActions.Add(t)).tasks| == |state.tasks| + 1
    ensures Count(Reduce(state, TaskActions.Add(t)).tasks, t.id) == Count(state.tasks, t.id) + 1
    ensures Reduce(Reduce(state, TaskActions.Add(t)), TaskActions.Remove(t.id))
         == Reduce(state, TaskActions.Remove(t.id))
  {
    CountAppend(state.tasks, [t], t.id);
    assert Count([t], t.id) == 1;
    AppendThenWithout(state.tasks, t);
  }
}
