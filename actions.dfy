/** The actions the store understands and their `type` tags.

    The six tags are declared three in the project action file and three
    in the task action file; both are gathered here because one action
    value travels to both slice reducers. */
module Actions {
  import opened Records

  const ADD_PROJECT: string := "ADD_PROJECT"
  const REMOVE_PROJECT: string := "REMOVE_PROJECT"
  const UPDATE_PROJECT: string := "UPDATE_PROJECT"

  const ADD_TASK: string := "ADD_TASK"
  const REMOVE_TASK: string := "REMOVE_TASK"
  const UPDATE_TASK: string := "UPDATE_TASK"

  /** An action object `{ type, payload }`; `Other` is any action whose
      `type` is none of the six above (for instance the store's own
      initialisation action). */
  datatype Action =
    | AddProject(project: Project)
    | RemoveProject(id: Id)
    | UpdateProject(project: Project)
    | AddTask(task: Task)
    | RemoveTask(id: Id)
    | UpdateTask(task: Task)
    | Other(tag: string)
  {
    predicate IsProjectAction() {
      AddProject? || RemoveProject? || UpdateProject?
    }

    predicate IsTaskAction() {
      AddTask? || RemoveTask? || UpdateTask?
    }
  }

  /** Every tag one of the slice reducers has a case for. */
  const Tags: set<string> := {ADD_PROJECT, REMOVE_PROJECT, UPDATE_PROJECT, ADD_TASK, REMOVE_TASK, UPDATE_TASK}

  /** The `type` field of the action object: a reducer case tag for every
      action a creator builds, the action's own tag otherwise. */
  function Type(a: Action): (t: string)
    ensures a.Other? ==> t == a.tag
    ensures WellFormed(a) ==> (t in Tags <==> !a.Other?)
  {
    match a
    case AddProject(_) => ADD_PROJECT
    case RemoveProject(_) => REMOVE_PROJECT
    case UpdateProject(_) => UPDATE_PROJECT
    case AddTask(_) => ADD_TASK
    case RemoveTask(_) => REMOVE_TASK
    case UpdateTask(_) => UPDATE_TASK
    case Other(tag) => tag
  }

  /** An `Other` action really carries a tag no reducer case matches. An
      `Other` value with one of the six tags stands for no action the
      program can build, so the reducers accept only well-formed actions. */
  predicate WellFormed(a: Action) {
    a.Other? ==> a.tag !in Tags
  }

  /** The six tags are pairwise distinct, so on well-formed actions the
      `type` tag alone decides which reducer case runs. */
  lemma TypeDecidesCase(a: Action)
    requires WellFormed(a)
    ensures Type(a) == ADD_PROJECT <==> a.AddProject?
    ensures Type(a) == REMOVE_PROJECT <==> a.RemoveProject?
    ensures Type(a) == UPDATE_PROJECT <==> a.UpdateProject?
    ensures Type(a) == ADD_TASK <==> a.AddTask?
    ensures Type(a) == REMOVE_TASK <==> a.RemoveTask?
    ensures Type(a) == UPDATE_TASK <==> a.UpdateTask?
  {
  }
}
