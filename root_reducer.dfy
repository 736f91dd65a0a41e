/** The root reducer: the store's state has one slice per slice reducer,
    and every dispatched action is handed to both reducers. */
module RootReducer {
  import opened Actions
  import TaskReducer
  import ProjectReducer

  /** The shape of the whole store, `{ task, project }`. */
  datatype RootState = RootState(task: TaskReducer.TaskState, project: ProjectReducer.ProjectState)

  /** Each slice starts from its reducer's initial state, so both lists are
      empty. */
  function Initial(): (s: RootState)
    ensures |s.task.tasks| == 0 && |s.project.projects| == 0
  {
    RootState(TaskReducer.Initial(), ProjectReducer.Initial())
  }

  /** Apply each slice reducer to its own slice. An action for one slice
      falls through to the default case of the other reducer. */
  function Reduce(state: RootState, action: Action): (r: RootState)
    requires WellFormed(action)
    ensures action.IsProjectAction() ==> r.task == state.task
    ensures action.IsTaskAction() ==> r.project == state.project
    ensures action.Other? ==> r == state
  {
    RootState(TaskReducer.Reduce(state.task, action), ProjectReducer.Reduce(state.project, action))
  }

  /** Whatever the slice the action is for, the slice it targets evolves
      exactly as its own reducer prescribes. */
  lemma SliceWise(state: RootState, action: Action)
    requires WellFormed(action)
    ensures action.IsTaskAction() ==> Reduce(state, action) == state.(task := TaskReducer.Reduce(state.task, action))
    ensures action.IsProjectAction() ==> Reduce(state, action) == state.(project := ProjectReducer.Reduce(state.project, action))
  {
  }

  /** The store's own initialisation action leaves the initial state as it
      is. */
  lemma InitIsStable(tag: string)
    requires WellFormed(Other(tag))
    ensures Reduce(Initial(), Other(tag)) == Initial()
  {
  }

  /** A project action and a task action touch disjoint slices, so the
      order in which they are dispatched does not matter. */
  lemma CrossSliceCommute(state: RootState, a: Action, b: Action)
    requires a.IsProjectAction() && b.IsTaskAction()
    ensures Reduce(Reduce(state, a), b) == Reduce(Reduce(state, b), a)
  {
  }
}
