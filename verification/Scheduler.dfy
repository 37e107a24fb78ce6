/** The dependency scheduler, under every order of its task map and of its completions. */
module Scheduler {
  import opened DependencyGraph

  datatype Event = Started(id: TaskID) | Completed(id: TaskID)

  function StartedIn(log: seq<Event>): set<TaskID> {
    set i | 0 <= i < |log| && log[i].Started? :: log[i].id
  }

  function CompletedIn(log: seq<Event>): set<TaskID> {
    set i | 0 <= i < |log| && log[i].Completed? :: log[i].id
  }

  predicate DepsIn(t: Task, done: set<TaskID>) {
    forall d | d in t.deps :: d in done
  }

  /** No registered task is left that could be started. */
  predicate AllEligibleStarted(tasks: Tasks, log: seq<Event>) {
    forall t | t in tasks && DepsIn(tasks[t], CompletedIn(log)) :: t in StartedIn(log)
  }

  /**
   What may come after `log`: a start of a task not started before, with its dependencies completed;
   or, when every eligible task has been started, the completion of one that is running.
   */
  predicate MayFollow(tasks: Tasks, log: seq<Event>, e: Event) {
    match e
    case Started(t) => t in tasks && t !in StartedIn(log) && DepsIn(tasks[t], CompletedIn(log))
    case Completed(t) => t in StartedIn(log) && t !in CompletedIn(log) && AllEligibleStarted(tasks, log)
  }

  predicate Legal(tasks: Tasks, log: seq<Event>) {
    forall i | 0 <= i < |log| :: MayFollow(tasks, log[..i], log[i])
  }

  lemma AppendEvent(tasks: Tasks, log: seq<Event>, e: Event)
    requires Legal(tasks, log) && MayFollow(tasks, log, e)
    ensures Legal(tasks, log + [e])
    ensures StartedIn(log + [e]) == StartedIn(log) + (if e.Started? then {e.id} else {})
    ensures CompletedIn(log + [e]) == CompletedIn(log) + (if e.Completed? then {e.id} else {})
  {
    var all := log + [e];
    assert all[|log|] == e && all[..|log|] == log;
    assert forall i | 0 <= i < |log| :: all[i] == log[i] && all[..i] == log[..i];
  }

  // ---- what a legal log says ----

  /** A task starts only after all its dependencies have completed. */
  lemma StartsAfterDependencies(tasks: Tasks, log: seq<Event>, i: nat, d: TaskID) returns (j: nat)
    requires Legal(tasks, log) && i < |log| && log[i].Started? && log[i].id in tasks && d in tasks[log[i].id].deps
    ensures j < i && log[j] == Completed(d)
  {
    assert MayFollow(tasks, log[..i], log[i]);
    assert d in CompletedIn(log[..i]);
    j :| 0 <= j < i && log[..i][j].Completed? && log[..i][j].id == d;
  }

  /** Nothing happens twice: a task starts at most once and completes at most once. */
  lemma HappensOnce(tasks: Tasks, log: seq<Event>, i: nat, j: nat)
    requires Legal(tasks, log) && i < j < |log|
    ensures log[i] != log[j]
  {
    assert MayFollow(tasks, log[..j], log[j]);
    assert log[..j][i] == log[i];
  }

  /** A task completes only after it has started. */
  lemma CompletesAfterStart(tasks: Tasks, log: seq<Event>, i: nat) returns (j: nat)
    requires Legal(tasks, log) && i < |log| && log[i].Completed?
    ensures j < i && log[j] == Started(log[i].id)
  {
    assert MayFollow(tasks, log[..i], log[i]);
    j :| 0 <= j < i && log[..i][j].Started? && log[..i][j].id == log[i].id;
  }

  // ---- when the scheduler gets stuck ----

  /** Nothing is running, everything eligible has been started, and something is left: there is a cycle or a dangling dependency. */
  lemma StuckMeansNotRunnable(tasks: Tasks, log: seq<Event>)
    requires AllEligibleStarted(tasks, log) && StartedIn(log) == CompletedIn(log)
    requires tasks.Keys - CompletedIn(log) != {}
    ensures !Runnable(tasks)
  {
    if ClosedUnderDeps(tasks) {
      var left := tasks.Keys - CompletedIn(log);
      forall t | t in left
        ensures HasDepIn(tasks, t, left)
      {
        assert !DepsIn(tasks[t], CompletedIn(log));
      }
      var c := StuckSetHasCycle(tasks, left);
    }
  }

  function IndexOf(log: seq<Event>, e: Event): (i: nat)
    requires e in log
    ensures i < |log| && log[i] == e
  {
    if log[0] == e then 0 else 1 + IndexOf(log[1..], e)
  }

  lemma FinishedMeansRunnable(tasks: Tasks, log: seq<Event>)
    requires Legal(tasks, log) && CompletedIn(log) == tasks.Keys
    ensures Runnable(tasks)
  {
    hide Legal, CompletedIn, IsNumbering, ClosedUnderDeps;
    var rank := CompletionsNumber(tasks, log);
    NumberingRulesOutCycles(tasks, rank);
  }

  /** A log in which every task completes numbers the tasks by their completions. */
  lemma CompletionsNumber(tasks: Tasks, log: seq<Event>) returns (rank: map<TaskID, nat>)
    requires Legal(tasks, log) && CompletedIn(log) == tasks.Keys
    ensures ClosedUnderDeps(tasks) && IsNumbering(tasks, rank)
  {
    hide Legal, IndexOf;
    forall t | t in tasks
      ensures Completed(t) in log
    {
      assert t in CompletedIn(log);
    }
    hide CompletedIn;
    rank := map t | t in tasks :: IndexOf(log, Completed(t));
    forall t, d | DependsOn(tasks, t, d)
      ensures d in tasks && rank[d] < rank[t]
    {
      DependencyCompletesFirst(tasks, log, t, d);
    }
    assert forall t, d | t in tasks && d in tasks[t].deps :: DependsOn(tasks, t, d);
  }

  lemma DependencyCompletesFirst(tasks: Tasks, log: seq<Event>, t: TaskID, d: TaskID)
    requires Legal(tasks, log) && t in tasks && d in tasks[t].deps && Completed(t) in log
    ensures Completed(d) in log && d in CompletedIn(log)
    ensures IndexOf(log, Completed(d)) < IndexOf(log, Completed(t))
  {
    var i := IndexOf(log, Completed(t));
    var j := CompletesAfterStart(tasks, log, i);
    var k := StartsAfterDependencies(tasks, log, j, d);
    var m := IndexOf(log, Completed(d));
    if k < m {
      HappensOnce(tasks, log, k, m);
    } else if m < k {
      HappensOnce(tasks, log, m, k);
    }
  }

  // ---- the scheduler ----

  /** One of the first `n` new tasks has the ID. */
  predicate Named(newTasks: seq<(TaskID, Task)>, n: nat, id: TaskID)
    requires n <= |newTasks|
  {
    exists i | 0 <= i < n :: newTasks[i].0 == id
  }

  /** Of the first `n`, the one at `i` is the last with its ID. */
  predicate IsLast(newTasks: seq<(TaskID, Task)>, n: nat, i: nat)
    requires n <= |newTasks|
  {
    i < n && forall j | i < j < n :: newTasks[j].0 != newTasks[i].0
  }

  /** `now` is `was` with the first `n` new tasks in it, later ones in the place of earlier ones. */
  ghost predicate Registers(was: Tasks, newTasks: seq<(TaskID, Task)>, n: nat, now: Tasks)
    requires n <= |newTasks|
  {
    && (forall id :: id in now <==> id in was || Named(newTasks, n, id))
    && (forall i: nat | IsLast(newTasks, n, i) :: newTasks[i].0 in now && now[newTasks[i].0] == newTasks[i].1)
    && forall id | id in was && !Named(newTasks, n, id) :: now[id] == was[id]
  }

  lemma RegistersOneMore(was: Tasks, newTasks: seq<(TaskID, Task)>, n: nat, now: Tasks)
    requires n < |newTasks| && Registers(was, newTasks, n, now)
    ensures Registers(was, newTasks, n + 1, now[newTasks[n].0 := newTasks[n].1])
  {
    OneMoreTask(newTasks, n);
    hide Named, IsLast;
  }

  class Scheduler {
    var tasks: Tasks
    var started: set<TaskID>
    var competedTasks: set<TaskID>
    ghost var log: seq<Event>

    ghost predicate Valid()
      reads this
    {
      && Legal(tasks, log)
      && started == StartedIn(log) && competedTasks == CompletedIn(log)
      && competedTasks <= started <= tasks.Keys
    }

    constructor ()
      ensures Valid() && tasks == map[] && log == []
    {
      tasks, started, competedTasks, log := map[], {}, {}, [];
    }

    method RegisterTasks(newTasks: seq<(TaskID, Task)>)
      requires Valid() && log == []
      modifies this`tasks
      ensures Valid()
      ensures forall id :: id in tasks <==> id in old(tasks) || Named(newTasks, |newTasks|, id)
      ensures forall i: nat | IsLast(newTasks, |newTasks|, i) :: newTasks[i].0 in tasks && tasks[newTasks[i].0] == newTasks[i].1
      ensures forall id | id in old(tasks) && !Named(newTasks, |newTasks|, id) :: tasks[id] == old(tasks)[id]
    {
      hide Legal, StartedIn, CompletedIn;
      assert Registers(tasks, newTasks, 0, tasks);
      for i := 0 to |newTasks|
        invariant Valid() && Registers(old(tasks), newTasks, i, tasks)
      {
        hide Legal, StartedIn, CompletedIn, Registers;
        RegistersOneMore(old(tasks), newTasks, i, tasks);
        NothingLogged();
        NothingIsLegal(tasks[newTasks[i].0 := newTasks[i].1]);
        tasks := tasks[newTasks[i].0 := newTasks[i].1];
      }
    }

    /** Counts the dependencies of a task that have not completed. */
    method UncompletedDeps(task: Task) returns (count: nat)
      ensures count == 0 <==> DepsIn(task, competedTasks)
    {
      count := 0;
      for i := 0 to |task.deps|
        invariant count == 0 <==> forall k | 0 <= k < i :: task.deps[k] in competedTasks
      {
        if task.deps[i] !in competedTasks {
          count := count + 1;
        }
      }
      assert count == 0 <==> DepsIn(task, competedTasks);
    }

    /** The scan over the task map before each wait, in whatever order the map gives. */
    method StartEligible()
      requires Valid()
      modifies this`started, this`log
      ensures Valid() && AllEligibleStarted(tasks, log)
      ensures forall t | t in tasks && (forall d | d in tasks[t].deps :: d in competedTasks) :: t in started
      ensures old(log) <= log
    {
      hide Legal, StartedIn, CompletedIn;
      var todo := tasks.Keys;
      while todo != {}
        invariant todo <= tasks.Keys && Valid() && old(log) <= log
        invariant forall t | t in tasks && t !in todo && DepsIn(tasks[t], competedTasks) :: t in started
        decreases |todo|
      {
        var id :| id in todo;
        todo := todo - {id};
        var uncompletedDepsCount := UncompletedDeps(tasks[id]);
        if id !in started && uncompletedDepsCount == 0 {
          AppendEvent(tasks, log, Started(id));
          started := started + {id};
          log := log + [Started(id)];
        }
      }
    }

    /**
     `Run` ends, after exactly one completion of every task, if and only if the dependencies are
     registered and have no cycle; otherwise it comes to wait with nothing running, and blocks.
     */
    method Run() returns (blocked: bool)
      requires Valid() && log == []
      modifies this
      ensures tasks == old(tasks) && Legal(tasks, log)
      ensures !blocked <==> Runnable(tasks)
      ensures !blocked ==> StartedIn(log) == CompletedIn(log) == tasks.Keys
      ensures blocked ==> AllEligibleStarted(tasks, log) && StartedIn(log) == CompletedIn(log) < tasks.Keys
    {
      NothingLogged();
      hide Legal, StartedIn, CompletedIn, AllEligibleStarted, Runnable;
      var completedTasks := 0;
      while completedTasks != |tasks|
        invariant Valid() && tasks == old(tasks)
        invariant completedTasks == |competedTasks|
        decreases |tasks| - completedTasks
      {
        StartEligible();
        if started == competedTasks {
          // <-notifyComplete with nobody to send
          assert competedTasks != tasks.Keys;
          StuckMeansNotRunnable(tasks, log);
          return true;
        }
        assert started - competedTasks != {};
        var taskID :| taskID in started - competedTasks;
        AppendEvent(tasks, log, Completed(taskID));
        completedTasks := completedTasks + 1;
        competedTasks := competedTasks + {taskID};
        log := log + [Completed(taskID)];
        SizeOfPart(competedTasks, tasks.Keys);
      }
      SizeOfPart(competedTasks, tasks.Keys);
      FinishedMeansRunnable(tasks, log);
      blocked := false;
    }
  }

  lemma OneMoreTask(newTasks: seq<(TaskID, Task)>, n: nat)
    requires n < |newTasks|
    ensures forall id :: Named(newTasks, n + 1, id) <==> Named(newTasks, n, id) || id == newTasks[n].0
    ensures forall i: nat :: IsLast(newTasks, n + 1, i) <==>
      i == n || (IsLast(newTasks, n, i) && newTasks[i].0 != newTasks[n].0)
  {
    forall id
      ensures Named(newTasks, n + 1, id) <==> Named(newTasks, n, id) || id == newTasks[n].0
    {
      if Named(newTasks, n, id) {
        var i :| 0 <= i < n && newTasks[i].0 == id;
        assert i < n + 1;
      }
    }
  }

  lemma NothingIsLegal(tasks: Tasks)
    ensures Legal(tasks, [])
  {
  }

  /**
   Registering tasks and running them: whatever the order, a task starts only after each dependency it
   was registered with has completed; and it comes to a standstill, with a task that never starts,
   exactly if the dependencies are not all registered or have a cycle.
   */
  method RegisterAndRun(newTasks: seq<(TaskID, Task)>) returns (blocked: bool, tasks: Tasks, ghost log: seq<Event>)
    ensures forall id :: id in tasks <==> Named(newTasks, |newTasks|, id)
    ensures forall i: nat | IsLast(newTasks, |newTasks|, i) :: newTasks[i].0 in tasks && tasks[newTasks[i].0] == newTasks[i].1
    ensures forall i: nat, k, d | IsLast(newTasks, |newTasks|, i) && d in newTasks[i].1.deps
      && 0 <= k < |log| && log[k] == Started(newTasks[i].0) :: Completed(d) in log[..k]
    ensures blocked <==> !Runnable(tasks)
    ensures blocked <==> exists id :: id in tasks && Started(id) !in log
  {
    var s := new Scheduler();
    s.RegisterTasks(newTasks);
    blocked := s.Run();
    tasks, log := s.tasks, s.log;
    forall i: nat, k, d | IsLast(newTasks, |newTasks|, i) && d in newTasks[i].1.deps
      && 0 <= k < |log| && log[k] == Started(newTasks[i].0)
      ensures Completed(d) in log[..k]
    {
      var j := StartsAfterDependencies(tasks, log, k, d);
      assert log[..k][j] == Completed(d);
    }
    StartedIsInLog(log);
  }

  lemma StartedIsInLog(log: seq<Event>)
    ensures forall id :: id in StartedIn(log) <==> Started(id) in log
  {
    forall id | Started(id) in log
      ensures id in StartedIn(log)
    {
      var i :| 0 <= i < |log| && log[i] == Started(id);
    }
  }

  lemma NothingLogged()
    ensures StartedIn([]) == {} && CompletedIn([]) == {}
  {
  }

  lemma {:induction false} SizeOfPart<T>(a: set<T>, b: set<T>)
    requires a <= b
    ensures |a| <= |b| && (|a| == |b| ==> a == b)
  {
    var c := b - a;
    assert b == a + c && |b| == |a| + |c|;
  }
}
