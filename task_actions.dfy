/** The task action creators. */
module TaskActions {
  import opened Records
  import opened Actions

  function Add(t: Task): (a: Action)
    ensures a.AddTask? && a.task == t && Type(a) == ADD_TASK
  {
    AddTask(t)
  }

  function Remove(id: Id): (a: Action)
    ensures a.RemoveTask? && a.id == id && Type(a) == REMOVE_TASK
  {
    RemoveTask(id)
  }

  function Update(t: Task): (a: Action)
    ensures a.UpdateTask? && a.task == t && Type(a) == UPDATE_TASK
  {
    UpdateTask(t)
  }
}
