# Todoist clone: the client-side store

This project models the Redux store of a browser client for Todoist
projects and tasks. The UI fetches and mutates projects and tasks through
the Todoist REST API. It mirrors the results into a store with two slices:

- `project` holds a list of projects;
- `task` holds a list of tasks.

Each slice has a reducer with four cases:

- `ADD_*` appends the payload;
- `REMOVE_*` keeps only the records whose `id` differs from the payload;
- `UPDATE_*` replaces, as a whole, every record whose `id` equals the payload's `id`;
- any other action leaves the slice as it is.

Action creators build the `{ type, payload }` objects. The root reducer
hands every action to both slice reducers.

The reducers never check ids for uniqueness. The task view dispatches
`addTask` again for every fetched task each time the open project changes.
So the model never assumes ids are unique: removal drops every copy of an
id, and an update replaces every copy.

Files, one module each:

- `records.dfy` (`Records`): ids, records, and the three list operations
  both reducers share: append, filter-by-id (`Without`) and
  replace-by-id (`Replace`). It also holds the facts about them.
- `actions.dfy` (`Actions`): the action datatype and the six `type` tags,
  gathered from both action files because one action value travels to
  both slice reducers.
- `project_actions.dfy` (`ProjectActions`) and `task_actions.dfy`
  (`TaskActions`): the creators.
- `project_reducer.dfy` (`ProjectReducer`) and `task_reducer.dfy`
  (`TaskReducer`): the slices, their initial states and reducers.
- `root_reducer.dfy` (`RootReducer`): the combined state and reducer.
- `task_view.dfy` (`TaskView`): how the task view component drives the
  store. This covers a run of dispatches, the fetch that dispatches one
  `addTask` per task, and the per-project selector.

Everything is a pure function, as in the source. Every reducer builds a
new state with spreads, `filter` and `map` and mutates nothing. A state
update `{ ...state, projects: e }` is the datatype update
`state.(projects := e)`.

The store is easy to read as two unordered arrays, but the code does keep
order: `filter` and `map` preserve the relative order of the survivors, and
`ADD_*` appends at the end. The model follows the code and proves that
order is kept.

## Model

| member | source | states |
|---|---|---|
| `Records.Without` | src/redux/reducers/projectReducer.ts:17 | the filtered list holds no record with the id, and its length is the old length minus the number of records that carried the id |
| `Records.WithoutKeepsOthers` | src/redux/reducers/taskReducer.ts:17 | the filter keeps every record whose id differs, adds nothing, and keeps the survivors in their old relative order |
| `Records.Replace` | src/redux/reducers/projectReducer.ts:21 | the mapped list has the same length; position i holds the payload exactly when the old record there carried the payload's id, and otherwise the old record unchanged |
| `Records.CountAppend` | src/redux/reducers/taskReducer.ts:15 | the number of copies of an id in a concatenation is the sum of the copies in both parts |
| `Records.WithoutAbsent` | src/redux/reducers/taskReducer.ts:17 | filtering out an id that no record carries returns the list unchanged |
| `Records.WithoutIdempotent` | src/redux/reducers/projectReducer.ts:17 | filtering the same id twice is filtering it once |
| `Records.WithoutAppend` | src/redux/reducers/taskReducer.ts:15-17 | filtering distributes over concatenation |
| `Records.AppendThenWithout` | src/redux/reducers/taskReducer.ts:14-17 | appending a record and then removing its id removes every copy, old and new, so the result is the old list with that id removed |
| `Records.WithoutCommutes` | src/redux/reducers/projectReducer.ts:16-17 | two removals give the same list in either order |
| `Records.ReplaceAbsent` | src/redux/reducers/projectReducer.ts:21 | replacing with a payload whose id no record carries returns the list unchanged |
| `Records.ReplaceKeepsIds` | src/redux/reducers/taskReducer.ts:21 | replacing keeps the id at every position and the number of copies of every id |
| `Records.ReplaceKeepsCount` | src/redux/reducers/taskReducer.ts:18-22 | replacing keeps the number of records carrying any given id |
| `Records.ReplaceIdempotent` | src/redux/reducers/projectReducer.ts:18-22 | replacing twice with the same payload is replacing once |
| `Records.ReplaceThenWithout` | src/redux/reducers/projectReducer.ts:16-22 | a removal and a replacement commute; replacing and then removing the payload's id equals removing it alone |
| `Actions.Type` | src/redux/actions/taskActions.ts:7-20 | the `type` field of every action a creator builds is one of the six reducer tags, and an action with any other tag keeps it; on well-formed actions a tag is a reducer tag exactly when the action is not `Other` |
| `Actions.TypeDecidesCase` | src/redux/actions/projectActions.ts:3-5 | the six type tags are pairwise distinct, so a tag selects exactly one kind of action (each direction of six equivalences) |
| `ProjectActions.Add` | src/redux/actions/projectActions.ts:7-10 | builds an action of type ADD_PROJECT whose payload is the given project |
| `ProjectActions.Remove` | src/redux/actions/projectActions.ts:12-15 | builds an action of type REMOVE_PROJECT whose payload is the given id |
| `ProjectActions.Update` | src/redux/actions/projectActions.ts:17-20 | builds an action of type UPDATE_PROJECT whose payload is the given project |
| `TaskActions.Add` | src/redux/actions/taskActions.ts:7-10 | builds an action of type ADD_TASK whose payload is the given task |
| `TaskActions.Remove` | src/redux/actions/taskActions.ts:12-15 | builds an action of type REMOVE_TASK whose payload is the given id |
| `TaskActions.Update` | src/redux/actions/taskActions.ts:17-20 | builds an action of type UPDATE_TASK whose payload is the given task |
| `ProjectReducer.Initial` | src/redux/reducers/projectReducer.ts:8-10 | the project slice starts with no projects |
| `ProjectReducer.Reduce` | src/redux/reducers/projectReducer.ts:12-26 | add: one longer, old list as prefix, payload last. Remove: no project with the id is left, the count drops by the copies removed, the others stay in order. Update: same length, matching positions become the payload whole, all others unchanged. Any other action: state unchanged |
| `ProjectReducer.CreatorsDriveReducer` | src/redux/actions/projectActions.ts:7-20 | dispatching each creator's action appends, filters or replaces accordingly |
| `ProjectReducer.RemoveIdempotent` | src/redux/reducers/projectReducer.ts:16-17 | dispatching the same REMOVE_PROJECT twice equals dispatching it once |
| `ProjectReducer.RemoveAbsentIsNoOp` | src/redux/reducers/projectReducer.ts:17 | removing an id no project carries leaves the state unchanged |
| `ProjectReducer.UpdateAbsentIsNoOp` | src/redux/reducers/projectReducer.ts:21 | updating with an id no project carries leaves the state unchanged |
| `ProjectReducer.UpdateKeepsIds` | src/redux/reducers/projectReducer.ts:18-22 | an update keeps every position's id, and repeating it changes nothing more |
| `TaskReducer.Initial` | src/redux/reducers/taskReducer.ts:8-10 | the task slice starts with no tasks |
| `TaskReducer.Reduce` | src/redux/reducers/taskReducer.ts:12-26 | add: one longer, old list as prefix, payload last, no duplicate check. Remove: no task with the id is left, the count drops by the copies removed, the others stay in order. Update: same length, matching positions become the payload whole (a partial payload drops the fields it lacks), others unchanged. Any other action: state unchanged |
| `TaskReducer.CreatorsDriveReducer` | src/redux/actions/taskActions.ts:7-20 | dispatching each creator's action appends, filters or replaces accordingly |
| `TaskReducer.RemoveIdempotent` | src/redux/reducers/taskReducer.ts:16-17 | dispatching the same REMOVE_TASK twice equals dispatching it once |
| `TaskReducer.RemoveAbsentIsNoOp` | src/redux/reducers/taskReducer.ts:17 | removing an id no task carries leaves the state unchanged |
| `TaskReducer.UpdateAbsentIsNoOp` | src/redux/reducers/taskReducer.ts:21 | updating with an id no task carries leaves the state unchanged |
| `TaskReducer.UpdateKeepsIds` | src/redux/reducers/taskReducer.ts:18-22 | an update keeps every position's id, and repeating it changes nothing more |
| `TaskReducer.AddThenRemoveRestores` | src/redux/actions/taskActions.ts:7-15 | removeTask(t.id) after addTask(t), on a list without that id, restores the original state |
| `TaskReducer.DuplicateAdd` | src/redux/reducers/taskReducer.ts:14-17 | adding a task whose id is already present still grows the list and the copies of that id by one; a later removal drops all copies |
| `RootReducer.Initial` | src/redux/reducers/index.ts:5-8 | the store starts with both slices empty |
| `RootReducer.Reduce` | src/redux/reducers/index.ts:5-8 | for every well-formed action: a project action leaves the task slice unchanged, a task action leaves the project slice unchanged, any other action leaves the whole state unchanged |
| `RootReducer.SliceWise` | src/redux/reducers/index.ts:5-8 | the targeted slice of the result is that slice's reducer applied to the old slice and the action, and the other slice is kept |
| `RootReducer.InitIsStable` | src/redux/reducers/index.ts:5-8 | an action with an unrecognised tag, such as the store's own initialisation, maps the initial state to itself |
| `RootReducer.CrossSliceCommute` | src/redux/reducers/index.ts:5-8 | a project action and a task action give the same state in either dispatch order |
| `TaskView.FetchActions` | src/components/Todoist.tsx:34-36 | a fetch dispatches one addTask per fetched task, in the fetched order |
| `TaskView.DispatchAll` | src/components/Todoist.tsx:34-36 | dispatching a run of actions one after another; a run of task actions leaves the project slice unchanged and a run of project actions leaves the task slice unchanged |
| `TaskView.DispatchAllConcat` | src/components/Todoist.tsx:34-36 | dispatching two runs one after the other equals dispatching their concatenation |
| `TaskView.DispatchAdd` | src/components/Todoist.tsx:35 | dispatching addTask(t) through the root reducer appends t to the task slice and changes nothing else |
| `TaskView.FetchStep` | src/components/Todoist.tsx:34-36 | the first dispatch of a fetch appends the first fetched task before the rest are dispatched |
| `TaskView.FetchAppends` | src/components/Todoist.tsx:31-36 | a whole fetch appends the fetched tasks after the ones held, whatever their ids, and leaves the project slice alone |
| `TaskView.Refetch` | src/components/Todoist.tsx:31-36 | two fetches of the same tasks back to back leave each fetched task twice in the list, since adding never checks for duplicates; the copies of every id grow by twice its count in the fetch |
| `TaskView.TasksOf` | src/components/Todoist.tsx:17 | the selector returns only tasks of the given project, drawn from the list in their order |
| `TaskView.TasksOfKeepsCopies` | src/components/Todoist.tsx:17 | the selection holds every copy of every task of the project and nothing else (equal multiplicities), so with `TasksOf` it is determined |
| `TaskView.TasksOfAppend` | src/components/Todoist.tsx:17 | selecting from a concatenation is concatenating the selections |
| `TaskView.TasksOfUniform` | src/components/Todoist.tsx:17 | selecting a project from tasks that all belong to it keeps them all, and from tasks none of which belongs to it keeps none |
| `TaskView.Reopen` | src/components/Todoist.tsx:27-36 | the fetch effect re-runs whenever the open project changes and appends into the shared store, so opening project A, then B, then A again fetches three times; A's view then shows each fetched task of A twice |
| `TaskView.SelectAfterRemove` | src/components/Todoist.tsx:17 | selecting after a removal equals removing from the selection |
| `TaskView.SelectAfterUpdate` | src/components/Todoist.tsx:94 | an edit dispatched with the open project's id appears, whole, among that project's tasks when some task carried its id |

## Left out

- The React components (`src/components/Sidebar.tsx`, `src/components/Todoist.tsx`) are left out, apart from the selector and the dispatches of the fetch. They consist of remote Todoist API calls, error banners and component-local state, and their behaviour depends on a server this model cannot see.
- The sidebar keeps its own project list in component state, with the same filter/map updates. That list is outside the store and is not modelled.
- Moving a task is not modelled: it issues a remote add and a remote delete concurrently, then dispatches only `removeTask`.
- `src/api/api.ts` (HTTP client configuration) and `src/App.tsx` (layout) are not modelled.
- The internals of Redux `combineReducers` are not modelled, such as its warnings about unexpected keys. The root reducer is modelled only as each slice reducer applied to its own slice.
- Object identity is not modelled. The source returns the same state object on the default branch and fresh objects otherwise; the model compares states by value.
- The reducers' `state = initialState` default argument, which applies when Redux passes `undefined`, is modelled by starting from `Initial()`.
- Malformed actions are not modelled. The reducers accept `action: any`; the source would append an `undefined` payload for a bare `ADD_TASK`, and would fail reading `payload.id` for a bare `UPDATE_TASK` on a non-empty list. The model's actions are typed, and every reducer requires `WellFormed`, which excludes an `Other` value carrying one of the six tags. `Other(tag)` stands for every action with any other tag.
- The `Project` and `Task` type definitions are not part of this model. Every field other than `id`, and `projectId` for tasks, is an uninterpreted string-to-string map.
