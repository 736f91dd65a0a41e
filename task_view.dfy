/** How the task view (the component that shows the open project's tasks)
    drives the store: a run of dispatches, the fetch that dispatches
    `addTask` once per fetched task, and the selector that picks the tasks
    of the open project. */
module TaskView {
  import opened Records
  import opened Actions
  import TaskActions
  import TaskReducer
  import opened RootReducer

  predicate AllWellFormed(actions: seq<Action>) {
    forall i :: 0 <= i < |actions| ==> WellFormed(actions[i])
  }

  /** The store's state after dispatching `actions` one after another.
      Task actions alone never touch the project slice, and project actions
      alone never touch the task slice. */
  function DispatchAll(state: RootState, actions: seq<Action>): (r: RootState)
    requires AllWellFormed(actions)
    ensures (forall i :: 0 <= i < |actions| ==> actions[i].IsTaskAction()) ==> r.project == state.project
    ensures (forall i :: 0 <= i < |actions| ==> actions[i].IsProjectAction()) ==> r.task == state.task
    decreases |actions|
  {
    if actions == [] then state
    else
      assert forall i :: 0 <= i < |actions[1..]| ==> actions[1..][i] == actions[i + 1];
      DispatchAll(Reduce(state, actions[0]), actions[1..])
  }

  /** Dispatching two runs one after the other is dispatching their
      concatenation. */
  lemma {:induction false} DispatchAllConcat(state: RootState, a: seq<Action>, b: seq<Action>)
    requires AllWellFormed(a) && AllWellFormed(b)
    ensures AllWellFormed(a + b)
    ensures DispatchAll(state, a + b) == DispatchAll(DispatchAll(state, a), b)
    decreases |a|
  {
    assert forall i :: 0 <= i < |a + b| ==> (a + b)[i] == if i < |a| then a[i] else b[i - |a|];
    if a == [] {
      assert a + b == b;
    } else {
      assert (a + b)[0] == a[0] && (a + b)[1..] == a[1..] + b;
      DispatchAllConcat(Reduce(state, a[0]), a[1..], b);
    }
  }

  /** The actions a fetch dispatches: one `addTask` per fetched task, in
      the order the tasks arrived. */
  function FetchActions(fetched: seq<Task>): (actions: seq<Action>)
    ensures |actions| == |fetched|
    ensures forall i :: 0 <= i < |fetched| ==> actions[i] == TaskActions.Add(fetched[i])
    ensures AllWellFormed(actions)
  {
    if fetched == [] then [] else [TaskActions.Add(fetched[0])] + FetchActions(fetched[1..])
  }

  /** Dispatching `addTask(t)` appends `t` to the task slice only. */
  lemma DispatchAdd(state: RootState, t: Task)
    ensures Reduce(state, TaskActions.Add(t)) == state.(task := state.task.(tasks := state.task.tasks + [t]))
  {
    TaskReducer.CreatorsDriveReducer(state.task, t, t.id);
  }

  /** The first dispatch of a fetch appends the first fetched task. */
  lemma FetchStep(state: RootState, fetched: seq<Task>)
    requires fetched != []
    ensures DispatchAll(state, FetchActions(fetched))
         == DispatchAll(state.(task := state.task.(tasks := state.task.tasks + [fetched[0]])), FetchActions(fetched[1..]))
  {
    var actions := FetchActions(fetched);
    assert actions[0] == TaskActions.Add(fetched[0]) && actions[1..] == FetchActions(fetched[1..]);
    DispatchAdd(state, fetched[0]);
  }

  /** A fetch appends the fetched tasks after those already held, whatever
      their ids, and leaves the project slice alone. */
  lemma {:induction false} FetchAppends(state: RootState, fetched: seq<Task>)
    ensures DispatchAll(state, FetchActions(fetched))
         == state.(task := state.task.(tasks := state.task.tasks + fetched))
    decreases |fetched|
  {
    if fetched == [] {
      assert state.task.tasks + fetched == state.task.tasks;
    } else {
      var next := state.(task := state.task.(tasks := state.task.tasks + [fetched[0]]));
      calc {
        DispatchAll(state, FetchActions(fetched));
      == { FetchStep(state, fetched); }
        DispatchAll(next, FetchActions(fetched[1..]));
      == { FetchAppends(next, fetched[1..]); }
        next.(task := next.task.(tasks := next.task.tasks + fetched[1..]));
      == { assert next.task.tasks + fetched[1..] == state.task.tasks + fetched; }
        state.(task := state.task.(tasks := state.task.tasks + fetched));
      }
    }
  }

  /** Two fetches of the same tasks back to back leave every fetched task
      twice over: the store never checks for duplicates. */
  lemma Refetch(state: RootState, fetched: seq<Task>, id: Id)
    ensures DispatchAll(DispatchAll(state, FetchActions(fetched)), FetchActions(fetched)).task.tasks
         == state.task.tasks + fetched + fetched
    ensures Count(DispatchAll(DispatchAll(state, FetchActions(fetched)), FetchActions(fetched)).task.tasks, id)
         == Count(state.task.tasks, id) + 2 * Count(fetched, id)
  {
    var once := DispatchAll(state, FetchActions(fetched));
    FetchAppends(state, fetched);
    FetchAppends(once, fetched);
    CountAppend(state.task.tasks + fetched, fetched, id);
    CountAppend(state.task.tasks, fetched, id);
  }

  /** `tasks.filter(task => task.projectId === projectId)`: the tasks of
      one project, in the order the store holds them. */
  function TasksOf(tasks: seq<Task>, projectId: Id): (r: seq<Task>)
    ensures forall i :: 0 <= i < |r| ==> r[i].fields.projectId == projectId
    ensures Subsequence(r, tasks)
  {
    if tasks == [] then []
    else
      var rest := TasksOf(tasks[1..], projectId);
      if tasks[0].fields.projectId == projectId then [tasks[0]] + rest else rest
  }

  /** The selection keeps every copy of every task of the project and
      nothing else; with `Subsequence` this determines it. */
  lemma {:induction false} TasksOfKeepsCopies(tasks: seq<Task>, projectId: Id)
    ensures forall x :: multiset(TasksOf(tasks, projectId))[x]
                     == if x.fields.projectId == projectId then multiset(tasks)[x] else 0
    ensures forall i :: 0 <= i < |tasks| && tasks[i].fields.projectId == projectId ==> tasks[i] in TasksOf(tasks, projectId)
    ensures forall x :: x in TasksOf(tasks, projectId) ==> x in tasks
  {
    if tasks != [] {
      TasksOfKeepsCopies(tasks[1..], projectId);
      assert tasks == [tasks[0]] + tasks[1..];
      assert multiset(tasks) == multiset([tasks[0]]) + multiset(tasks[1..]);
      var rest := TasksOf(tasks[1..], projectId);
      if tasks[0].fields.projectId == projectId {
        assert TasksOf(tasks, projectId) == [tasks[0]] + rest;
        assert multiset(TasksOf(tasks, projectId)) == multiset([tasks[0]]) + multiset(rest);
      } else {
        assert TasksOf(tasks, projectId) == rest;
      }
      forall x | x in TasksOf(tasks, projectId) ensures x in tasks {
        assert multiset(TasksOf(tasks, projectId))[x] > 0;
      }
      forall i | 0 <= i < |tasks| && tasks[i].fields.projectId == projectId
        ensures tasks[i] in TasksOf(tasks, projectId)
      {
        assert multiset(tasks)[tasks[i]] > 0;
      }
    }
  }

  /** Selecting distributes over concatenation. */
  lemma {:induction false} TasksOfAppend(s: seq<Task>, u: seq<Task>, projectId: Id)
    ensures TasksOf(s + u, projectId) == TasksOf(s, projectId) + TasksOf(u, projectId)
  {
    if s == [] {
      assert s + u == u;
    } else {
      var su := s + u;
      assert su[0] == s[0] && su[1..] == s[1..] + u;
      TasksOfAppend(s[1..], u, projectId);
      var rest, tail := TasksOf(s[1..], projectId), TasksOf(u, projectId);
      if s[0].fields.projectId == projectId {
        assert TasksOf(su, projectId) == [s[0]] + (rest + tail);
        assert [s[0]] + (rest + tail) == ([s[0]] + rest) + tail;
      } else {
        assert TasksOf(su, projectId) == rest + tail;
      }
    }
  }

  /** Selecting a project from tasks that all belong to it keeps them all;
      from tasks none of which belongs to it, keeps none. */
  lemma {:induction false} TasksOfUniform(tasks: seq<Task>, projectId: Id)
    ensures (forall i :: 0 <= i < |tasks| ==> tasks[i].fields.projectId == projectId) ==> TasksOf(tasks, projectId) == tasks
    ensures (forall i :: 0 <= i < |tasks| ==> tasks[i].fields.projectId != projectId) ==> TasksOf(tasks, projectId) == []
  {
    if tasks != [] {
      TasksOfUniform(tasks[1..], projectId);
    }
  }

  /** The fetch effect runs again whenever the open project changes, and
      it appends into the store, which outlives the view. So opening
      project A, then B, then A again runs the fetch three times on the
      same store: A's tasks, B's tasks, A's tasks once more. A's view then
      shows every fetched task of A twice. */
  lemma Reopen(state: RootState, a: Id, b: Id, ofA: seq<Task>, ofB: seq<Task>)
    requires a != b
    requires forall i :: 0 <= i < |ofA| ==> ofA[i].fields.projectId == a
    requires forall i :: 0 <= i < |ofB| ==> ofB[i].fields.projectId == b
    ensures TasksOf(DispatchAll(DispatchAll(DispatchAll(state, FetchActions(ofA)), FetchActions(ofB)), FetchActions(ofA)).task.tasks, a)
         == TasksOf(state.task.tasks, a) + ofA + ofA
  {
    var s1 := DispatchAll(state, FetchActions(ofA));
    var s2 := DispatchAll(s1, FetchActions(ofB));
    FetchAppends(state, ofA);
    FetchAppends(s1, ofB);
    FetchAppends(s2, ofA);
    TasksOfUniform(ofA, a);
    TasksOfUniform(ofB, a);
    var held := state.task.tasks;
    TasksOfAppend(held + ofA + ofB, ofA, a);
    TasksOfAppend(held + ofA, ofB, a);
    TasksOfAppend(held, ofA, a);
    assert TasksOf(held, a) + ofA + [] == TasksOf(held, a) + ofA;
  }

  /** Removing a task and then selecting a project's tasks gives the same
      view as removing it from that view. */
  lemma {:induction false} SelectAfterRemove(tasks: seq<Task>, projectId: Id, id: Id)
    ensures TasksOf(Without(tasks, id), projectId) == Without(TasksOf(tasks, projectId), id)
  {
    if tasks != [] {
      SelectAfterRemove(tasks[1..], projectId, id);
    }
  }

  /** An edit dispatched with the open project's id shows up, as a whole,
      in that project's view when some task carried its id. */
  lemma SelectAfterUpdate(tasks: seq<Task>, projectId: Id, edited: Task)
    requires !Absent(tasks, edited.id)
    requires edited.fields.projectId == projectId
    ensures edited in TasksOf(Replace(tasks, edited), projectId)
  {
    var i :| 0 <= i < |tasks| && tasks[i].id == edited.id;
    var updated := Replace(tasks, edited);
    assert updated[i] == edited;
    TasksOfKeepsCopies(updated, projectId);
  }
}
