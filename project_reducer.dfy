/** The `project` slice: a list of projects and the reducer that maintains
    it. The reducer never mutates its input; it returns a new state. */
module ProjectReducer {
  import opened Records
  import opened Actions
  import ProjectActions

  datatype ProjectState = ProjectState(projects: seq<Project>)

  /** The state the slice starts from: no projects. */
  function Initial(): (s: ProjectState)
    ensures |s.projects| == 0
  {
    ProjectState([])
  }

  /** One step of the slice: append, filter out by id, replace by id, or
      leave the state as it is for any other action. */
  function Reduce(state: ProjectState, action: Action): (r: ProjectState)
    requires WellFormed(action)
    ensures action.AddProject? ==>
      && |r.projects| == |state.projects| + 1
      && r.projects[..|state.projects|] == state.projects
      && r.projects[|state.projects|] == action.project
    ensures action.RemoveProject? ==>
      && Absent(r.projects, action.id)
      && |r.projects| == |state.projects| - Count(state.projects, action.id)
      && Subsequence(r.projects, state.projects)
      && (forall i :: 0 <= i < |state.projects| && state.projects[i].id != action.id ==> state.projects[i] in r.projects)
    ensures action.UpdateProject? ==>
      && |r.projects| == |state.projects|
      && forall i :: 0 <= i < |state.projects| ==>
           r.projects[i] == if state.projects[i].id == action.project.id then action.project else state.projects[i]
    ensures !action.IsProjectAction() ==> r == state
  {
    match action
    case AddProject(p) => state.(projects := state.projects + [p])
    case RemoveProject(id) =>
      WithoutKeepsOthers(state.projects, id);
      state.(projects := Without(state.projects, id))
    case UpdateProject(p) => state.(projects := Replace(state.projects, p))
    case _ => state
  }

  /** Each creator, dispatched to this reducer, performs its operation. */
  lemma CreatorsDriveReducer(state: ProjectState, p: Project, id: Id)
    ensures Reduce(state, ProjectActions.Add(p)).projects == state.projects + [p]
    ensures Reduce(state, ProjectActions.Remove(id)).projects == Without(state.projects, id)
    ensures Reduce(state, ProjectActions.Update(p)).projects == Replace(state.projects, p)
  {
  }

  lemma RemoveIdempotent(state: ProjectState, id: Id)
    ensures Reduce(Reduce(state, ProjectActions.Remove(id)), ProjectActions.Remove(id))
         == Reduce(state, ProjectActions.Remove(id))
  {
    WithoutIdempotent(state.projects, id);
  }

  lemma RemoveAbsentIsNoOp(state: ProjectState, id: Id)
    requires Absent(state.projects, id)
    ensures Reduce(state, ProjectActions.Remove(id)) == state
  {
    WithoutAbsent(state.projects, id);
  }

  lemma UpdateAbsentIsNoOp(state: ProjectState, p: Project)
    requires Absent(state.projects, p.id)
    ensures Reduce(state, ProjectActions.Update(p)) == state
  {
    ReplaceAbsent(state.projects, p);
  }

  /** Updating keeps every position's id, so the set of projects shown and
      their order do not move. */
  lemma UpdateKeepsIds(state: ProjectState, p: Project)
    ensures forall i :: 0 <= i < |state.projects| ==>
      Reduce(state, ProjectActions.Update(p)).projects[i].id == state.projects[i].id
    ensures Reduce(Reduce(state, ProjectActions.Update(p)), ProjectActions.Update(p))
         == Reduce(state, ProjectActions.Update(p))
  {
    ReplaceIdempotent(state.projects, p);
  }
}
