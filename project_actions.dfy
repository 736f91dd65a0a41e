/** The project action creators. */
module ProjectActions {
  import opened Records
  import opened Actions

  function Add(p: Project): (a: Action)
    ensures a.AddProject? && a.project == p && Type(a) == ADD_PROJECT
  {
    AddProject(p)
  }

  function Remove(id: Id): (a: Action)
    ensures a.RemoveProject? && a.id == id && Type(a) == REMOVE_PROJECT
  {
    RemoveProject(id)
  }

  function Update(p: Project): (a: Action)
    ensures a.UpdateProject? && a.project == p && Type(a) == UPDATE_PROJECT
  {
    UpdateProject(p)
  }
}
