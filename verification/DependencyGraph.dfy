/** Dependency graphs: a finite set in which everything depends on something in it holds a cycle. */
module DependencyGraph {
  datatype TaskID = TaskID(uuid: string)

  datatype Task = Task(description: string, deps: seq<TaskID>)

  type Tasks = map<TaskID, Task>

  predicate DependsOn(tasks: Tasks, t: TaskID, d: TaskID) {
    t in tasks && d in tasks[t].deps
  }

  /** Each task depends on the next one. */
  predicate IsPath(tasks: Tasks, p: seq<TaskID>) {
    forall i, j | 0 <= i < |p| && j == i + 1 < |p| :: DependsOn(tasks, p[i], p[j])
  }

  predicate IsCycle(tasks: Tasks, p: seq<TaskID>) {
    |p| > 1 && IsPath(tasks, p) && p[0] == p[|p| - 1]
  }

  ghost predicate Acyclic(tasks: Tasks) {
    forall p :: !IsCycle(tasks, p)
  }

  /** Every dependency is a registered task. */
  predicate ClosedUnderDeps(tasks: Tasks) {
    forall t, d | t in tasks && d in tasks[t].deps :: d in tasks
  }

  ghost predicate Runnable(tasks: Tasks) {
    ClosedUnderDeps(tasks) && Acyclic(tasks)
  }

  predicate HasDepIn(tasks: Tasks, t: TaskID, s: set<TaskID>) {
    t in tasks && exists d | d in s :: d in tasks[t].deps
  }

  lemma {:induction false} WalkIn(tasks: Tasks, s: set<TaskID>, n: nat) returns (p: seq<TaskID>)
    requires s != {} && forall t | t in s :: HasDepIn(tasks, t, s)
    ensures |p| == n + 1 && IsPath(tasks, p) && forall i | 0 <= i < |p| :: p[i] in s
  {
    if n == 0 {
      var t :| t in s;
      p := [t];
    } else {
      var q := WalkIn(tasks, s, n - 1);
      var last := q[|q| - 1];
      assert HasDepIn(tasks, last, s);
      var d :| d in s && d in tasks[last].deps;
      assert DependsOn(tasks, last, d);
      p := q + [d];
    }
  }

  /** More items than there are members: one of them twice. */
  lemma {:induction false} Repeats(s: set<TaskID>, p: seq<TaskID>) returns (i: nat, j: nat)
    requires |p| > |s| && forall k | 0 <= k < |p| :: p[k] in s
    ensures i < j < |p| && p[i] == p[j]
    decreases |s|
  {
    var last := |p| - 1;
    if k :| 0 <= k < last && p[k] == p[last] {
      i, j := k, last;
    } else {
      i, j := Repeats(s - {p[last]}, p[..last]);
    }
  }

  lemma PartOfPath(tasks: Tasks, p: seq<TaskID>, i: nat, j: nat)
    requires IsPath(tasks, p) && i <= j <= |p|
    ensures IsPath(tasks, p[i..j])
  {
    var q := p[i..j];
    forall a, b | 0 <= a < |q| && b == a + 1 < |q|
      ensures DependsOn(tasks, q[a], q[b])
    {
      assert q[a] == p[i + a] && q[b] == p[i + b];
    }
  }

  lemma StuckSetHasCycle(tasks: Tasks, s: set<TaskID>) returns (c: seq<TaskID>)
    requires s != {} && forall t | t in s :: HasDepIn(tasks, t, s)
    ensures IsCycle(tasks, c)
  {
    var p := WalkIn(tasks, s, |s|);
    var i, j := Repeats(s, p);
    c := p[i..j + 1];
    PartOfPath(tasks, p, i, j + 1);
  }

  /** A numbering under which every dependency comes before its task rules out cycles. */
  lemma NumberingRulesOutCycles(tasks: Tasks, rank: map<TaskID, nat>)
    requires IsNumbering(tasks, rank)
    ensures Acyclic(tasks)
  {
    forall p
      ensures !IsCycle(tasks, p)
    {
      if |p| > 1 && IsPath(tasks, p) {
        RanksFall(tasks, rank, p);
      }
    }
  }

  ghost predicate IsNumbering(tasks: Tasks, rank: map<TaskID, nat>) {
    forall t, d | DependsOn(tasks, t, d) :: d in rank && t in rank && rank[d] < rank[t]
  }

  lemma {:induction false} RanksFall(tasks: Tasks, rank: map<TaskID, nat>, p: seq<TaskID>)
    requires IsNumbering(tasks, rank) && |p| > 1 && IsPath(tasks, p)
    ensures p[0] in rank && p[|p| - 1] in rank && rank[p[|p| - 1]] < rank[p[0]]
  {
    var n := |p| - 1;
    assert DependsOn(tasks, p[n - 1], p[n]);
    if n > 1 {
      PartOfPath(tasks, p, 0, n);
      assert p[0..n][n - 1] == p[n - 1];
      RanksFall(tasks, rank, p[0..n]);
    }
  }
}
