/** The task lists of the multi-level round-robin scheduler, and how each operation changes them. */
module TaskLists {
  const MAX_TASKS: nat := 1000
  const MAX_TASKS_LV: nat := 100
  const MAX_TASKLEVELS: nat := 10

  datatype Task = Task(flags: int, level: int, priority: int)

  /** Pointers to tasks are positions in the table of all tasks. */
  datatype TaskLevel = TaskLevel(running: nat, now: nat, tasks: seq<nat>)

  ghost predicate LevelHolds(l: TaskLevel, v: int, ts: seq<Task>) {
    && |l.tasks| == MAX_TASKS_LV && l.running <= MAX_TASKS_LV
    && l.now < MAX_TASKS_LV && (l.running > 0 ==> l.now < l.running)
    && (forall i :: 0 <= i < l.running ==> l.tasks[i] < |ts| && ts[l.tasks[i]].flags == 2 && ts[l.tasks[i]].level == v)
    && (forall i, j :: 0 <= i < j < l.running ==> l.tasks[i] != l.tasks[j])
  }

  ghost predicate ListedAt(t: nat, l: TaskLevel) {
    exists i :: 0 <= i < l.running && i < |l.tasks| && l.tasks[i] == t
  }

  /**
   * Every level lists running tasks of that level, each once, and its `now` is the place of one of them unless
   * there are none; and every running task is listed at its level.
   */
  ghost predicate Lists(lv: seq<TaskLevel>, ts: seq<Task>) {
    && |lv| == MAX_TASKLEVELS && |ts| == MAX_TASKS
    && (forall v :: 0 <= v < |lv| ==> LevelHolds(lv[v], v, ts))
    && (forall t :: 0 <= t < |ts| && ts[t].flags == 2 ==> 0 <= ts[t].level < |lv| && ListedAt(t, lv[ts[t].level]))
  }

  ghost predicate PlacedAt(lv: seq<TaskLevel>, t: nat, v: int, i: int) {
    0 <= v < |lv| && 0 <= i < lv[v].running && i < |lv[v].tasks| && lv[v].tasks[i] == t
  }

  /** A task is marked running exactly when it is listed, and then in just one place, at its own level. */
  lemma ListedIffRunning(lv: seq<TaskLevel>, ts: seq<Task>, t: nat)
    requires Lists(lv, ts) && t < |ts|
    ensures ts[t].flags == 2 <==> exists v, i :: PlacedAt(lv, t, v, i)
    ensures forall v, i, w, j :: PlacedAt(lv, t, v, i) && PlacedAt(lv, t, w, j) ==> v == w == ts[t].level && i == j
  {
    forall v, i | PlacedAt(lv, t, v, i) ensures ts[t].flags == 2 && ts[t].level == v {
      assert LevelHolds(lv[v], v, ts);
    }
    if ts[t].flags == 2 {
      var v := ts[t].level;
      var i :| 0 <= i < lv[v].running && i < |lv[v].tasks| && lv[v].tasks[i] == t;
      assert PlacedAt(lv, t, v, i);
    }
  }

  function Position(s: seq<nat>, t: nat): (i: nat)
    ensures i <= |s| && (i < |s| ==> s[i] == t) && forall k :: 0 <= k < i ==> s[k] != t
  {
    if s == [] || s[0] == t then 0 else 1 + Position(s[1..], t)
  }

  function Enlisted(l: TaskLevel, t: nat): TaskLevel
    requires l.running < |l.tasks|
  {
    TaskLevel(l.running + 1, l.now, l.tasks[l.running := t])
  }

  /** Entries i + 1 to running are one place further down. */
  function Closed(l: TaskLevel, i: nat): TaskLevel
    requires i <= l.running < |l.tasks|
  {
    l.(tasks := l.tasks[..i] + l.tasks[i + 1..l.running + 1] + l.tasks[l.running..])
  }

  function Delisted(l: TaskLevel, i: nat): TaskLevel
    requires i < l.running <= |l.tasks|
  {
    var now := if i < l.now then l.now - 1 else l.now;
    Closed(TaskLevel(l.running - 1, if now >= l.running - 1 then 0 else now, l.tasks), i)
  }

  function Advanced(l: TaskLevel): TaskLevel {
    l.(now := if l.now + 1 == l.running then 0 else l.now + 1)
  }

  /** The level's tasks in the order in which they will have their turns, the current one first. */
  function Cycle(l: TaskLevel): (c: seq<nat>)
    requires l.now <= l.running <= |l.tasks|
    ensures |c| == l.running
  {
    l.tasks[l.now..l.running] + l.tasks[..l.now]
  }

  /** How many turns from now the task at position i comes. */
  function Turn(l: TaskLevel, i: nat): (k: nat)
    requires l.now < l.running <= |l.tasks| && i < l.running
    ensures k < l.running && Cycle(l)[k] == l.tasks[i] && (k == 0 <==> i == l.now)
  {
    if l.now <= i then i - l.now else l.running - l.now + i
  }

  lemma CutRotation(q: seq<nat>, n: nat, i: nat)
    requires n < |q| && i < |q|
    ensures var r, cut := q[n..] + q[..n], q[..i] + q[i + 1..];
            var k, n' := if n <= i then i - n else |q| - n + i, if i < n then n - 1 else n;
            cut[n'..] + cut[..n'] == r[..k] + r[k + 1..]
  {
    var cut := q[..i] + q[i + 1..];
    if i < n {
      assert cut[n - 1..] == q[n..] && cut[..n - 1] == q[..i] + q[i + 1..n];
    } else {
      assert cut[n..] == q[n..i] + q[i + 1..] && cut[..n] == q[..n];
    }
  }

  lemma CycleOfQueue(l: TaskLevel, q: seq<nat>)
    requires l.now <= l.running <= |l.tasks| && q == l.tasks[..l.running]
    ensures Cycle(l) == q[l.now..] + q[..l.now]
  {
    assert q[l.now..] == l.tasks[l.now..l.running] && q[..l.now] == l.tasks[..l.now];
  }

  lemma DelistedQueue(l: TaskLevel, i: nat)
    requires i < l.running <= |l.tasks|
    ensures var q, d := l.tasks[..l.running], Delisted(l, i); d.tasks[..d.running] == q[..i] + q[i + 1..]
  {
  }

  lemma Whole(q: seq<nat>)
    ensures q[|q|..] + q[..|q|] == q[0..] + q[..0]
  {
  }

  lemma DelistedIsClosed(l: TaskLevel, i: nat)
    requires i < l.running <= |l.tasks|
    ensures var now := if i < l.now then l.now - 1 else l.now;
            Delisted(l, i) == Closed(TaskLevel(l.running - 1, if now >= l.running - 1 then 0 else now, l.tasks), i)
  {
  }

  /** The task is off the list, the others are in their order, and `now` stays with its task unless that was the one. */
  ghost predicate TakenOff(l: TaskLevel, l': TaskLevel, t: nat) {
    exists i :: 0 <= i < l.running <= |l.tasks| && l.tasks[i] == t && TakenFrom(l, l', i)
  }

  ghost predicate TakenFrom(l: TaskLevel, l': TaskLevel, i: nat)
    requires i < l.running <= |l.tasks|
  {
    && l'.running == l.running - 1 <= |l'.tasks| && l'.tasks[..l'.running] == l.tasks[..i] + l.tasks[i + 1..l.running]
    && l'.now == if i < l.now then l.now - 1 else if l.now < l'.running then l.now else 0
  }

  lemma DelistedTakenOff(l: TaskLevel, i: nat)
    requires i < l.running <= |l.tasks| && l.now < l.running
    ensures TakenOff(l, Delisted(l, i), l.tasks[i])
  {
    DelistedQueue(l, i);
    assert TakenFrom(l, Delisted(l, i), i);
  }

  /** Taking a task off leaves the others' turns in their order; if it was current, the next one becomes so. */
  lemma DelistedKeepsCycle(l: TaskLevel, i: nat)
    requires l.now < l.running <= |l.tasks| && i < l.running
    ensures var k := Turn(l, i); Cycle(Delisted(l, i)) == Cycle(l)[..k] + Cycle(l)[k + 1..]
  {
    var q, d := l.tasks[..l.running], Delisted(l, i);
    var cut, n := q[..i] + q[i + 1..], if i < l.now then l.now - 1 else l.now;
    DelistedQueue(l, i);
    CycleOfQueue(l, q);
    CycleOfQueue(d, cut);
    Whole(cut);
    CutRotation(q, l.now, i);
  }

  /** A new task waits for the turns up to the end of the list; nobody else's order changes. */
  lemma EnlistedKeepsCycle(l: TaskLevel, t: nat)
    requires l.running < |l.tasks| && l.now <= l.running
    ensures var k := l.running - l.now; Cycle(Enlisted(l, t)) == Cycle(l)[..k] + [t] + Cycle(l)[k..]
  {
  }

  lemma AddKeepsLists(lv: seq<TaskLevel>, ts: seq<Task>, t: nat, v: nat, task: Task)
    requires Lists(lv, ts) && t < |ts| && ts[t].flags != 2 && v < |lv| && lv[v].running < MAX_TASKS_LV
    requires task.flags == 2 && task.level == v
    ensures Lists(lv[v := Enlisted(lv[v], t)], ts[t := task]) <==> lv[v].now <= lv[v].running
  {
    var lv', ts' := lv[v := Enlisted(lv[v], t)], ts[t := task];
    assert LevelHolds(lv[v], v, ts);
    if lv[v].now <= lv[v].running {
      EnlistedHolds(lv, ts, t, v, task);
    } else {
      assert !LevelHolds(lv'[v], v, ts');
    }
  }

  lemma EnlistedHolds(lv: seq<TaskLevel>, ts: seq<Task>, t: nat, v: nat, task: Task)
    requires Lists(lv, ts) && t < |ts| && ts[t].flags != 2 && v < |lv| && lv[v].now <= lv[v].running < MAX_TASKS_LV
    requires task.flags == 2 && task.level == v
    ensures Lists(lv[v := Enlisted(lv[v], t)], ts[t := task])
  {
    var lv', ts' := lv[v := Enlisted(lv[v], t)], ts[t := task];
    forall w | 0 <= w < |lv| ensures LevelHolds(lv'[w], w, ts') {
      assert LevelHolds(lv[w], w, ts);
    }
    forall u | 0 <= u < |ts'| && ts'[u].flags == 2 ensures 0 <= ts'[u].level < |lv'| && ListedAt(u, lv'[ts'[u].level]) {
      if u == t {
        assert lv'[v].tasks[lv[v].running] == t;
      } else {
        StillListed(lv, ts, t, v, u);
      }
    }
  }

  lemma StillListed(lv: seq<TaskLevel>, ts: seq<Task>, t: nat, v: nat, u: nat)
    requires Lists(lv, ts) && v < |lv| && lv[v].running < |lv[v].tasks| && u < |ts| && ts[u].flags == 2
    ensures 0 <= ts[u].level < |lv| && ListedAt(u, lv[v := Enlisted(lv[v], t)][ts[u].level])
  {
    var i :| 0 <= i < lv[ts[u].level].running && lv[ts[u].level].tasks[i] == u;
    assert LevelHolds(lv[ts[u].level], ts[u].level, ts);
    assert lv[v := Enlisted(lv[v], t)][ts[u].level].tasks[i] == u;
  }

  lemma RemoveKeepsLists(lv: seq<TaskLevel>, ts: seq<Task>, t: nat, i: nat, task: Task)
    requires Lists(lv, ts) && t < |ts| && ts[t].flags == 2 && task.flags != 2
    requires i < lv[ts[t].level].running && lv[ts[t].level].tasks[i] == t
    ensures Lists(lv[ts[t].level := Delisted(lv[ts[t].level], i)], ts[t := task])
  {
    var v := ts[t].level;
    var lv', ts' := lv[v := Delisted(lv[v], i)], ts[t := task];
    forall w | 0 <= w < |lv| ensures LevelHolds(lv'[w], w, ts') {
      assert LevelHolds(lv[w], w, ts);
      if w == v {
        DelistedHolds(lv[v], v, ts, i, task);
      }
    }
    forall u | 0 <= u < |ts'| && ts'[u].flags == 2 ensures 0 <= ts'[u].level < |lv'| && ListedAt(u, lv'[ts'[u].level]) {
      if ts[u].level == v {
        StaysListed(lv[v], i, u);
      }
    }
  }

  lemma StaysListed(l: TaskLevel, i: nat, u: nat)
    requires i < l.running <= |l.tasks| && ListedAt(u, l) && l.tasks[i] != u
    ensures ListedAt(u, Delisted(l, i))
  {
    var j :| 0 <= j < l.running && l.tasks[j] == u;
    assert Delisted(l, i).tasks[if i < j then j - 1 else j] == u;
  }

  lemma DelistedHolds(l: TaskLevel, v: int, ts: seq<Task>, i: nat, task: Task)
    requires LevelHolds(l, v, ts) && i < l.running
    ensures LevelHolds(Delisted(l, i), v, ts[l.tasks[i] := task])
  {
    var d := Delisted(l, i);
    assert forall j :: 0 <= j < i ==> d.tasks[j] == l.tasks[j];
    assert forall j :: i <= j < d.running ==> d.tasks[j] == l.tasks[j + 1];
  }

  /** The first level that has a task to run. */
  ghost predicate Lowest(lv: seq<TaskLevel>, v: nat) {
    v < |lv| && lv[v].running > 0 && forall w :: 0 <= w < v ==> lv[w].running == 0
  }

  ghost predicate SomeRunning(lv: seq<TaskLevel>) { exists v :: 0 <= v < |lv| && lv[v].running > 0 }

  ghost function Removed(lv: seq<TaskLevel>, v: int, t: nat): (r: seq<TaskLevel>)
    requires 0 <= v < |lv| && lv[v].running <= |lv[v].tasks|
    ensures |r| == |lv|
  {
    var i := Position(lv[v].tasks[..lv[v].running], t);
    if i < lv[v].running then lv[v := Delisted(lv[v], i)] else lv
  }

  /** The entry that the scheduler takes for the current task. */
  function Current(lv: seq<TaskLevel>, v: nat): nat
    requires v < |lv| && lv[v].now < |lv[v].tasks|
  {
    lv[v].tasks[lv[v].now]
  }

  /** Entering or moving a task: off its list if it is running, and to the end of the list of its new level. */
  ghost function Moved(lv: seq<TaskLevel>, task: Task, t: nat, target: nat): (r: seq<TaskLevel>)
    requires target < |lv| && lv[target].running < |lv[target].tasks|
    requires task.flags == 2 ==> 0 <= task.level < |lv| && task.level != target && lv[task.level].running <= |lv[task.level].tasks|
    ensures |r| == |lv|
  {
    var off := if task.flags == 2 then Removed(lv, task.level, t) else lv;
    off[target := Enlisted(off[target], t)]
  }

  /**
   * The moves after which the lists no longer tell which task is current: the current task leaves others
   * behind at its level; a task joins an empty level whose `now` was left past the end; or a task takes the
   * place of the current one in the list that it has just left empty.
   */
  ghost predicate Upsets(lv: seq<TaskLevel>, task: Task, t: nat, target: nat, now_lv: nat, tr: nat)
    requires target < |lv| && now_lv < |lv|
  {
    || (task.flags == 2 && t == tr && task.level == now_lv && lv[now_lv].running > 1)
    || (lv[target].running == 0 && (lv[target].now > 0 || (target == now_lv && t != tr)))
  }

  /** Removing any task but the current one leaves the current one where the scheduler looks for it. */
  lemma DelistedKeepsNow(l: TaskLevel, i: nat)
    requires i < l.running <= |l.tasks| && l.now < l.running
    requires forall i, j :: 0 <= i < j < l.running ==> l.tasks[i] != l.tasks[j]
    ensures var d := Delisted(l, i);
            d.now <= d.running && (d.tasks[d.now] == l.tasks[l.now] <==> i != l.now || l.running == 1)
  {
    var d := Delisted(l, i);
    assert d.tasks[d.now] == l.tasks[if d.now < i then d.now else if d.now < d.running then d.now + 1 else d.now];
  }

  lemma RemovedKeepsCurrent(lv: seq<TaskLevel>, ts: seq<Task>, t: nat, now_lv: nat)
    requires Lists(lv, ts) && t < |ts| && ts[t].flags == 2 && now_lv < |lv| && lv[now_lv].now <= lv[now_lv].running
    ensures var r := Removed(lv, ts[t].level, t);
            && r[now_lv].now < MAX_TASKS_LV == |r[now_lv].tasks| && r[now_lv].now <= r[now_lv].running
            && (Current(r, now_lv) == Current(lv, now_lv)
                <==> !(Current(lv, now_lv) == t && ts[t].level == now_lv && lv[now_lv].running > 1))
  {
    var v := ts[t].level;
    assert LevelHolds(lv[now_lv], now_lv, ts);
    assert ListedAt(t, lv[v]) && LevelHolds(lv[v], v, ts);
    if v == now_lv {
      var i := Position(lv[v].tasks[..lv[v].running], t);
      assert i < lv[v].running && lv[v].tasks[i] == t;
      DelistedKeepsNow(lv[v], i);
    }
  }

  lemma RemovedLists(lv: seq<TaskLevel>, ts: seq<Task>, t: nat, task: Task)
    requires Lists(lv, ts) && t < |ts| && ts[t].flags == 2 && task.flags != 2
    ensures Lists(Removed(lv, ts[t].level, t), ts[t := task])
    ensures forall w :: 0 <= w < |lv| ==> Removed(lv, ts[t].level, t)[w].running == lv[w].running - if w == ts[t].level then 1 else 0
  {
    var v := ts[t].level;
    assert ListedAt(t, lv[v]) && LevelHolds(lv[v], v, ts);
    var i := Position(lv[v].tasks[..lv[v].running], t);
    assert i < lv[v].running && lv[v].tasks[i] == t;
    RemoveKeepsLists(lv, ts, t, i, task);
  }

  /**
   * The lists are in order, and the entry they call current is the task that the processor executes. The level
   * of that entry is empty only between a move of its one task elsewhere and the next switch.
   */
  ghost predicate Consistent(lv: seq<TaskLevel>, ts: seq<Task>, now_lv: nat, lv_change: bool, tr: nat) {
    && Lists(lv, ts) && now_lv < |lv| && (!lv_change ==> Lowest(lv, now_lv))
    && lv[now_lv].now <= lv[now_lv].running && lv[now_lv].now < |lv[now_lv].tasks|
    && Current(lv, now_lv) == tr < |ts| && ts[tr].flags == 2
  }

  lemma RunningListed(lv: seq<TaskLevel>, ts: seq<Task>, t: nat)
    requires Lists(lv, ts) && t < |ts| && ts[t].flags == 2
    ensures SomeRunning(lv) && lv[ts[t].level].running > 0
  {
    assert ListedAt(t, lv[ts[t].level]);
  }

  /** The lists depend on no priority, and on no level of a task that is not running. */
  lemma RelabelKeeps(lv: seq<TaskLevel>, ts: seq<Task>, t: nat, task: Task)
    requires Lists(lv, ts) && t < |ts| && task.flags == ts[t].flags && (task.flags == 2 ==> task.level == ts[t].level)
    ensures Lists(lv, ts[t := task])
  {
    forall w | 0 <= w < |lv| ensures LevelHolds(lv[w], w, ts[t := task]) {
      assert LevelHolds(lv[w], w, ts);
    }
  }

  lemma AdvancedKeeps(lv: seq<TaskLevel>, ts: seq<Task>, v: nat, changed: bool, tr: nat)
    requires Consistent(lv, ts, v, changed, tr)
    ensures var lv' := lv[v := Advanced(lv[v])]; Lists(lv', ts) && SomeRunning(lv') && (!changed ==> Lowest(lv', v))
  {
    var lv' := lv[v := Advanced(lv[v])];
    RunningListed(lv, ts, tr);
    assert lv'[ts[tr].level].running > 0;
    hide LevelHolds, ListedAt;
    forall w | 0 <= w < |lv| ensures LevelHolds(lv'[w], w, ts) {
      assert LevelHolds(lv[w], w, ts);
      if w == v {
        AdvancedHolds(lv[v], v, ts);
      }
    }
    forall t | 0 <= t < |ts| && ts[t].flags == 2 ensures ListedAt(t, lv'[ts[t].level]) {
      AdvancedLists(lv[ts[t].level], t);
    }
  }

  lemma AdvancedHolds(l: TaskLevel, v: int, ts: seq<Task>)
    requires LevelHolds(l, v, ts) && l.now <= l.running
    ensures LevelHolds(Advanced(l), v, ts)
  {
  }

  lemma AdvancedLists(l: TaskLevel, t: nat)
    requires ListedAt(t, l)
    ensures ListedAt(t, Advanced(l))
  {
    var i :| 0 <= i < l.running && i < |l.tasks| && l.tasks[i] == t;
    assert Advanced(l).tasks[i] == t;
  }

  /** A switch from a consistent state ends in one, wherever the search for a level leads. */
  lemma SwitchKeeps(lv: seq<TaskLevel>, ts: seq<Task>, v: nat, changed: bool, tr: nat)
    requires Consistent(lv, ts, v, changed, tr)
    ensures var lv' := lv[v := Advanced(lv[v])];
            && Lists(lv', ts) && SomeRunning(lv') && (!changed ==> Lowest(lv', v))
            && forall v': nat :: Lowest(lv', v') ==> Consistent(lv', ts, v', false, Current(lv', v'))
  {
    var lv' := lv[v := Advanced(lv[v])];
    AdvancedKeeps(lv, ts, v, changed, tr);
    forall v': nat | Lowest(lv', v') ensures Consistent(lv', ts, v', false, Current(lv', v')) {
      LowestConsistent(lv', ts, v');
    }
  }

  lemma LowestConsistent(lv: seq<TaskLevel>, ts: seq<Task>, v: nat)
    requires Lists(lv, ts) && Lowest(lv, v)
    ensures lv[v].now < |lv[v].tasks| && Consistent(lv, ts, v, false, Current(lv, v))
  {
    assert LevelHolds(lv[v], v, ts);
  }

  /** When another task falls asleep, the current one stays where it is. */
  lemma SleepKeepsCurrent(lv: seq<TaskLevel>, ts: seq<Task>, t: nat, task: Task, v: nat, changed: bool, tr: nat)
    requires Consistent(lv, ts, v, changed, tr) && t < |ts| && t != tr && ts[t].flags == 2 && task.flags != 2
    ensures Consistent(Removed(lv, ts[t].level, t), ts[t := task], v, changed, tr)
  {
    var lv', ts' := Removed(lv, ts[t].level, t), ts[t := task];
    RemovedLists(lv, ts, t, task);
    RemovedKeepsCurrent(lv, ts, t, v);
    if !changed {
      assert LevelHolds(lv[v], v, ts);
      RunningListed(lv', ts', tr);
    }
  }

  /** Entering a task at the end of a list, seen from the place where the scheduler looks for the current task. */
  lemma EnterKeeps(lv: seq<TaskLevel>, ts: seq<Task>, t: nat, target: nat, task: Task, v: nat, tr: nat)
    requires Lists(lv, ts) && t < |ts| && ts[t].flags != 2 && target < |lv| && lv[target].running < MAX_TASKS_LV
    requires task.flags == 2 && task.level == target
    requires v < |lv| && lv[v].now <= lv[v].running && lv[v].now < |lv[v].tasks| && tr < |ts|
    requires t == tr || ts[tr].flags == 2
    ensures Consistent(lv[target := Enlisted(lv[target], t)], ts[t := task], v, true, tr)
            <==> lv[target].now <= lv[target].running && tr == if target == v && lv[v].running == 0 then t else Current(lv, v)
  {
    AddKeepsLists(lv, ts, t, target, task);
    assert LevelHolds(lv[v], v, ts);
  }

  lemma MoveKeeps(lv: seq<TaskLevel>, ts: seq<Task>, t: nat, target: nat, task: Task, v: nat, changed: bool, tr: nat)
    requires Consistent(lv, ts, v, changed, tr) && t < |ts| && target < |lv| && lv[target].running < MAX_TASKS_LV
    requires task.flags == 2 && task.level == target && (ts[t].flags == 2 ==> ts[t].level != target)
    ensures Consistent(Moved(lv, ts[t], t, target), ts[t := task], v, true, tr) <==> !Upsets(lv, ts[t], t, target, v, tr)
  {
    assert LevelHolds(lv[target], target, ts);
    if ts[t].flags == 2 {
      var off, ts1 := Removed(lv, ts[t].level, t), ts[t := ts[t].(flags := 1)];
      RemovedLists(lv, ts, t, ts1[t]);
      RemovedKeepsCurrent(lv, ts, t, v);
      EnterKeeps(off, ts1, t, target, task, v, tr);
      assert ts1[t := task] == ts[t := task];
      assert off[target] == lv[target];
    } else {
      EnterKeeps(lv, ts, t, target, task, v, tr);
    }
  }

  /** Marking a task that was not running, with any mark but that of a running one, is no matter of the lists. */
  lemma MarkKeeps(lv: seq<TaskLevel>, ts: seq<Task>, t: nat, task: Task)
    requires Lists(lv, ts) && t < |ts| && ts[t].flags != 2 && task.flags != 2
    ensures Lists(lv, ts[t := task])
  {
    forall w | 0 <= w < |lv| ensures LevelHolds(lv[w], w, ts[t := task]) {
      assert LevelHolds(lv[w], w, ts);
    }
  }

  lemma EmptyLists(lv: seq<TaskLevel>, ts: seq<Task>)
    requires |lv| == MAX_TASKLEVELS && |ts| == MAX_TASKS
    requires forall v :: 0 <= v < |lv| ==> lv[v].running == lv[v].now == 0 && |lv[v].tasks| == MAX_TASKS_LV
    requires forall t :: 0 <= t < |ts| ==> ts[t].flags != 2
    ensures Lists(lv, ts)
  {
  }

  lemma CycleHoldsAll(l: TaskLevel)
    requires l.now <= l.running <= |l.tasks|
    ensures multiset(Cycle(l)) == multiset(l.tasks[..l.running])
  {
    assert l.tasks[..l.running] == l.tasks[..l.now] + l.tasks[l.now..l.running];
  }

  lemma ConsistentNow(lv: seq<TaskLevel>, ts: seq<Task>, v: nat, tr: nat)
    requires Consistent(lv, ts, v, false, tr)
    ensures lv[v].now < lv[v].running <= |lv[v].tasks| && tr == lv[v].tasks[lv[v].now]
  {
    assert LevelHolds(lv[v], v, ts);
  }

  /** The level k turns on. */
  function After(l: TaskLevel, k: nat): (r: TaskLevel)
    requires l.now < l.running && k <= l.running
    ensures r.now < r.running
  {
    l.(now := if l.now + k < l.running then l.now + k else l.now + k - l.running)
  }

  /** The tasks of the first turns, from the current task's successor on. */
  ghost predicate InTurn(l: TaskLevel, order: seq<nat>) {
    && l.now < l.running <= |l.tasks| && |order| <= l.running
    && forall j :: 0 <= j < |order| ==> order[j] == l.tasks[After(l, j + 1).now]
  }

  /** From entry `from` of the queue to its end, then from its beginning. */
  ghost predicate TakesTurns(queue: seq<nat>, from: nat, order: seq<nat>) {
    && |order| == |queue|
    && (forall k :: 0 <= k < |queue| && from + k < |queue| ==> order[k] == queue[from + k])
    && (forall k :: 0 <= k < |queue| && 0 <= from + k - |queue| < |queue| ==> order[k] == queue[from + k - |queue|])
  }

  lemma RoundIsCycle(l: TaskLevel, order: seq<nat>)
    requires InTurn(l, order) && |order| == l.running
    ensures TakesTurns(l.tasks[..l.running], l.now + 1, order)
    ensures order == Cycle(l)[1..] + Cycle(l)[..1]
    ensures multiset(order) == multiset(l.tasks[..l.running])
  {
    var c := Cycle(l);
    assert order == c[1..] + c[..1];
    assert c == c[..1] + c[1..];
    CycleHoldsAll(l);
  }

  lemma InTurnNone(l: TaskLevel)
    ensures l.now < l.running <= |l.tasks| ==> InTurn(l, [])
  {
  }

  lemma InTurnNext(l: TaskLevel, order: seq<nat>, t: nat)
    requires InTurn(l, order) && |order| < l.running && t == l.tasks[After(l, |order| + 1).now]
    ensures InTurn(l, order + [t])
  {
  }

  /** The one task of level 0 is the first. */
  lemma OnlyTask(lv: seq<TaskLevel>, ts: seq<Task>)
    requires Lists(lv, ts) && ts[0] == Task(2, 0, 2) && lv[0].running == 1
    ensures lv[0].tasks[..1] == [0]
  {
    assert ListedAt(0, lv[0]);
  }

  lemma MovedOut(lv: seq<TaskLevel>, moved: seq<TaskLevel>)
    requires |lv| == MAX_TASKLEVELS && lv[0].running == 1 && lv[0].tasks != [] && lv[0].tasks[..1] == [0]
    requires lv[1].running < |lv[1].tasks| && moved == Moved(lv, Task(2, 0, 2), 0, 1)
    ensures moved[0].running == moved[0].now == 0
  {
    assert Position([0], 0) == 0;
  }
}
