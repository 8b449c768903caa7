/** The scheduler's operations on its level lists and its table of tasks. */
module Scheduler {
  import opened TaskLists

  class TaskCtl {
    const level: array<TaskLevel>
    const tasks0: array<Task>
    var now_lv: nat
    var lv_change: bool
    var tr: nat             // the task that the processor executes, changed by the far jumps

    function TaskNow(): nat
      reads this, level
      requires now_lv < level.Length && level[now_lv].now < |level[now_lv].tasks|
    {
      level[now_lv].tasks[level[now_lv].now]
    }

    ghost predicate Valid()
      reads this, level, tasks0
    {
      Consistent(level[..], tasks0[..], now_lv, lv_change, tr)
    }

    method SwitchSub()
      requires level.Length == MAX_TASKLEVELS
      modifies this`now_lv, this`lv_change
      ensures !lv_change && now_lv <= MAX_TASKLEVELS && (now_lv == MAX_TASKLEVELS <==> !SomeRunning(level[..]))
      ensures now_lv < MAX_TASKLEVELS ==> level[now_lv].running > 0
      ensures forall w :: 0 <= w < now_lv ==> level[w].running == 0
    {
      var i := 0;
      while i < MAX_TASKLEVELS && level[i].running == 0
        invariant i <= MAX_TASKLEVELS
        invariant forall w :: 0 <= w < i ==> level[w].running == 0
      {
        i := i + 1;
      }
      now_lv := i;
      lv_change := false;
    }

    method Add(t: nat)
      requires Lists(level[..], tasks0[..]) && t < MAX_TASKS && tasks0[t].flags != 2
      requires 0 <= tasks0[t].level < MAX_TASKLEVELS && level[tasks0[t].level].running < MAX_TASKS_LV
      modifies level, tasks0
      ensures tasks0[..] == old(tasks0[..][t := tasks0[t].(flags := 2)])
      ensures var v := old(tasks0[t].level); level[..] == old(level[..])[v := Enlisted(old(level[..])[v], t)]
      ensures var l, l' := old(level[tasks0[t].level]), level[old(tasks0[t].level)];
              l'.now == l.now && l'.running == l.running + 1 && l'.tasks[..l'.running] == l.tasks[..l.running] + [t]
      ensures Lists(level[..], tasks0[..]) <==> old(level[tasks0[t].level].now <= level[tasks0[t].level].running)
    {
      ghost var lv, ts := level[..], tasks0[..];
      var v := tasks0[t].level;
      AddKeepsLists(lv, ts, t, v, ts[t].(flags := 2));
      level[v] := level[v].(tasks := level[v].tasks[level[v].running := t]);
      level[v] := level[v].(running := level[v].running + 1);
      tasks0[t] := tasks0[t].(flags := 2);
      assert level[..] == lv[v := Enlisted(lv[v], t)] && tasks0[..] == ts[t := ts[t].(flags := 2)];
    }

    method Remove(t: nat)
      requires Lists(level[..], tasks0[..]) && t < MAX_TASKS && tasks0[t].flags == 2
      modifies level, tasks0
      ensures tasks0[..] == old(tasks0[..][t := tasks0[t].(flags := 1)])
      ensures level[..] == Removed(old(level[..]), old(tasks0[t].level), t)
      ensures TakenOff(old(level[tasks0[t].level]), level[old(tasks0[t].level)], t)
      ensures Lists(level[..], tasks0[..])
    {
      ghost var lv, ts := level[..], tasks0[..];
      var v := tasks0[t].level;
      var i := Find(v, t);
      hide LevelHolds, ListedAt, TakenOff, Delisted, Closed;
      DelistedTakenOff(lv[v], i);
      RemoveKeepsLists(lv, ts, t, i, ts[t].(flags := 1));
      Shrink(v, i);
      tasks0[t] := tasks0[t].(flags := 1);
      DelistedIsClosed(lv[v], i);
      CloseGap(v, i);
      assert level[..] == lv[v := Delisted(lv[v], i)] && tasks0[..] == ts[t := ts[t].(flags := 1)];
    }

    method Find(v: nat, t: nat) returns (i: nat)
      requires Lists(level[..], tasks0[..]) && t < MAX_TASKS && tasks0[t].flags == 2 && tasks0[t].level == v
      ensures v < MAX_TASKLEVELS && level[v].running <= MAX_TASKS_LV && i < level[v].running && level[v].tasks[i] == t
      ensures i == Position(level[v].tasks[..level[v].running], t)
    {
      assert LevelHolds(level[..][v], v, tasks0[..]);
      assert ListedAt(t, level[..][v]);
      i := 0;
      while i < level[v].running
        invariant i <= level[v].running
        invariant forall k :: 0 <= k < i ==> level[v].tasks[k] != t
      {
        if level[v].tasks[i] == t {
          break;
        }
        i := i + 1;
      }
    }

    /** One task fewer; the current one is found where it will be without entry i. */
    method Shrink(v: nat, i: nat)
      requires v < level.Length && level[v].running > 0
      modifies level
      ensures var l := old(level[v]);
              var now := if i < l.now then l.now - 1 else l.now;
              level[..] == old(level[..])[v := TaskLevel(l.running - 1, if now >= l.running - 1 then 0 else now, l.tasks)]
    {
      level[v] := level[v].(running := level[v].running - 1);
      if i < level[v].now {
        level[v] := level[v].(now := level[v].now - 1);
      }
      if level[v].now >= level[v].running {
        level[v] := level[v].(now := 0);
      }
    }

    /** Entries i + 1 to running of the level move down one place. */
    method CloseGap(v: nat, i0: nat)
      requires v < level.Length && i0 <= level[v].running < |level[v].tasks|
      modifies level
      ensures level[..] == old(level[..])[v := Closed(old(level[v]), i0)]
    {
      ghost var lv := level[..];
      ghost var was := level[v].tasks;
      var i := i0;
      while i < level[v].running
        invariant i0 <= i <= lv[v].running && |level[v].tasks| == |was|
        invariant level[..] == lv[v := lv[v].(tasks := level[v].tasks)]
        invariant forall k :: 0 <= k < i0 || i <= k < |was| ==> level[v].tasks[k] == was[k]
        invariant forall k :: i0 <= k < i ==> level[v].tasks[k] == was[k + 1]
        decreases lv[v].running - i
      {
        level[v] := level[v].(tasks := level[v].tasks[i := level[v].tasks[i + 1]]);
        i := i + 1;
      }
      assert level[v].tasks == was[..i0] + was[i0 + 1..i + 1] + was[i..];
    }

    /**
     * The task is entered, or moved to another level, or only its priority changes; the change takes effect at
     * the next switch. The lists still tell the current task exactly when the move is none of those in Upsets.
     */
    method Run(t: nat, toLevel: int, priority: int)
      requires Valid() && t < MAX_TASKS
      requires toLevel < MAX_TASKLEVELS && (toLevel < 0 ==> 0 <= tasks0[t].level < MAX_TASKLEVELS)
      requires var target := if toLevel < 0 then tasks0[t].level else toLevel;
               (tasks0[t].flags == 2 && tasks0[t].level == target) || level[target].running < MAX_TASKS_LV
      modifies this`lv_change, level, tasks0
      ensures lv_change
      ensures var was := old(tasks0[t]); var target := if toLevel < 0 then was.level else toLevel;
              && tasks0[..] == old(tasks0[..])[t := Task(2, target, if priority > 0 then priority else was.priority)]
              && if was.flags == 2 && was.level == target then level[..] == old(level[..]) && Valid()
                 else && level[..] == Moved(old(level[..]), was, t, target)
                      && (Valid() <==> !Upsets(old(level[..]), was, t, target, now_lv, tr))
    {
      ghost var lv, ts := level[..], tasks0[..];
      var target := if toLevel < 0 then tasks0[t].level else toLevel;
      if priority > 0 {
        tasks0[t] := tasks0[t].(priority := priority);
        RelabelKeeps(lv, ts, t, tasks0[t]);
      }
      assert tasks0[..] == ts[t := tasks0[t]];
      if tasks0[t].flags != 2 || tasks0[t].level != target {
        MoveKeeps(lv, ts, t, target, tasks0[t].(flags := 2, level := target), now_lv, lv_change, tr);
        Relocate(t, target);
        assert tasks0[..] == ts[t := tasks0[t]];
      }
      lv_change := true;
    }

    method Relocate(t: nat, target: nat)
      requires Lists(level[..], tasks0[..]) && t < MAX_TASKS && (tasks0[t].flags == 2 ==> tasks0[t].level != target)
      requires target < MAX_TASKLEVELS && level[target].running < MAX_TASKS_LV
      modifies level, tasks0
      ensures tasks0[..] == old(tasks0[..][t := tasks0[t].(flags := 2, level := target)])
      ensures level[..] == Moved(old(level[..]), old(tasks0[t]), t, target)
    {
      ghost var ts := tasks0[..];
      if tasks0[t].flags == 2 {
        Remove(t);
      }
      ghost var off := tasks0[..];
      tasks0[t] := tasks0[t].(level := target);
      RelabelKeeps(level[..], off, t, tasks0[t]);
      assert tasks0[..] == off[t := tasks0[t]];
      Add(t);
      assert tasks0[..] == ts[t := tasks0[t]];
    }

    /** A sleeping task is on no list; if it is the current one, the processor goes on with another. */
    method Sleep(t: nat)
      requires Valid() && t < MAX_TASKS
      requires t == tr ==> exists u: nat :: u < MAX_TASKS && u != t && tasks0[..][u].flags == 2
      modifies this, level, tasks0
      ensures Valid()
      ensures old(tasks0[t].flags) != 2 ==> tasks0[..] == old(tasks0[..]) && level[..] == old(level[..])
      ensures old(tasks0[t].flags) == 2 ==>
                && tasks0[..] == old(tasks0[..][t := tasks0[t].(flags := 1)])
                && level[..] == Removed(old(level[..]), old(tasks0[t].level), t)
      ensures t != old(tr) ==> tr == old(tr) && now_lv == old(now_lv) && lv_change == old(lv_change)
      ensures t == old(tr) ==> !lv_change && level[now_lv].running > 0 && forall w :: 0 <= w < now_lv ==> level[w].running == 0
    {
      hide LevelHolds, ListedAt, Removed, TakenOff;
      if tasks0[t].flags == 2 {
        ghost var lv, ts := level[..], tasks0[..];
        ghost var u: nat :| t == tr ==> u < MAX_TASKS && u != t && ts[u].flags == 2;
        if t != tr {
          SleepKeepsCurrent(lv, ts, t, ts[t].(flags := 1), now_lv, lv_change, tr);
        }
        var now_task := TaskNow();
        Remove(t);
        if t == now_task {
          RunningListed(level[..], tasks0[..], u);
          SwitchAway();
        }
      }
    }

    method SwitchAway()
      requires Lists(level[..], tasks0[..]) && SomeRunning(level[..])
      modifies this
      ensures Valid() && Lowest(level[..], now_lv) && !lv_change
    {
      SwitchSub();
      LowestConsistent(level[..], tasks0[..], now_lv);
      var now_task := TaskNow();
      tr := now_task;
    }

    method Advance(tl: nat)
      requires tl < level.Length
      modifies level
      ensures level[..] == old(level[..])[tl := Advanced(old(level[..])[tl])]
    {
      level[tl] := level[tl].(now := level[tl].now + 1);
      if level[tl].now == level[tl].running {
        level[tl] := level[tl].(now := 0);
      }
    }

    /** The far jump to the current task of level tl, unless the processor executes it already. */
    method GoOn(tl: nat, now_task: nat) returns (quantum: int)
      requires Lists(level[..], tasks0[..]) && Lowest(level[..], tl) && tl == now_lv && !lv_change && now_task == tr
      modifies this`tr
      ensures Valid() && quantum == tasks0[tr].priority
    {
      LowestConsistent(level[..], tasks0[..], tl);
      assert level[tl] == level[..][tl];
      var new_task := level[tl].tasks[level[tl].now];
      quantum := tasks0[new_task].priority;
      if new_task != now_task {
        tr := new_task;
      }
    }

    /** The next task of the level has its turn, or the next of the first level with any when levels have changed. */
    method Switch() returns (quantum: int)
      requires Valid()
      modifies this, level
      ensures Valid() && !lv_change && level[now_lv].running > 0 && forall w :: 0 <= w < now_lv ==> level[w].running == 0
      ensures tr == level[now_lv].tasks[level[now_lv].now]
      ensures var l, l' := old(level[now_lv]), level[old(now_lv)];
              && l'.now == (if l.now + 1 == l.running then 0 else l.now + 1)
              && l'.tasks == l.tasks && l'.running == l.running
      ensures quantum == tasks0[tr].priority
      ensures level[..] == old(level[..])[old(now_lv) := Advanced(old(level[..])[old(now_lv)])]
      ensures !old(lv_change) ==> now_lv == old(now_lv)
    {
      hide LevelHolds, ListedAt;
      AdvancedKeeps(level[..], tasks0[..], now_lv, lv_change, tr);
      var tl := now_lv;
      var now_task := level[tl].tasks[level[tl].now];
      assert now_task == tr;
      Advance(tl);
      if lv_change {
        SwitchSub();
        tl := now_lv;
      }
      quantum := GoOn(tl, now_task);
    }

    /** k turns on in a round of level v that began with the lists lv. */
    ghost predicate AtTurn(lv: seq<TaskLevel>, v: nat, k: nat)
      reads this, level, tasks0
    {
      && Valid() && !lv_change && now_lv == v < |lv| && lv[v].now < lv[v].running <= |lv[v].tasks| && k <= lv[v].running
      && level[..] == lv[v := After(lv[v], k)] && tr == lv[v].tasks[After(lv[v], k).now]
    }

    method NextTurn(ghost lv: seq<TaskLevel>, ghost v: nat, ghost k: nat) returns (t: nat)
      requires AtTurn(lv, v, k) && k < lv[v].running
      modifies this, level
      ensures AtTurn(lv, v, k + 1) && t == lv[v].tasks[After(lv[v], k + 1).now]
    {
      hide LevelHolds, ListedAt, Lists;
      var quantum := Switch();
      assert level[..] == lv[v := After(lv[v], k + 1)];
      ConsistentNow(level[..], tasks0[..], now_lv, tr);
      return tr;
    }

    /**
     * With no task entering or leaving, as many switches as the current level has tasks give each of them one
     * turn, in the order of the list from the current task's successor on, and end where they began.
     */
    method Round() returns (order: seq<nat>)
      requires Valid() && !lv_change
      modifies this, level
      ensures Valid() && level[..] == old(level[..]) && now_lv == old(now_lv) && tr == old(tr)
      ensures var c := Cycle(level[now_lv]); order == c[1..] + c[..1]
      ensures |order| == level[now_lv].running
      ensures TakesTurns(level[now_lv].tasks[..level[now_lv].running], level[now_lv].now + 1, order)
      ensures multiset(order) == multiset(level[now_lv].tasks[..level[now_lv].running])
    {
      hide LevelHolds, ListedAt, TakesTurns, InTurn, Cycle;
      ghost var lv, v := level[..], now_lv;
      InTurnNone(level[v]);
      ConsistentNow(lv, tasks0[..], v, tr);
      assert level[..] == lv[v := After(lv[v], 0)];
      order := [];
      while |order| < level[now_lv].running
        invariant AtTurn(lv, v, |order|) && InTurn(lv[v], order)
        decreases lv[v].running - |order|
      {
        var t := NextTurn(lv, v, |order|);
        InTurnNext(lv[v], order, t);
        order := order + [t];
      }
      RoundIsCycle(lv[v], order);
      assert level[..] == lv;
    }

    /** The lowest free entry of the table, marked as in use. */
    method Alloc() returns (t: nat)
      requires Lists(level[..], tasks0[..])
      modifies tasks0
      ensures t <= MAX_TASKS && forall u :: 0 <= u < t ==> old(tasks0[u].flags) != 0
      ensures t < MAX_TASKS ==> old(tasks0[t].flags) == 0 && tasks0[..] == old(tasks0[..][t := tasks0[t].(flags := 1)])
      ensures t == MAX_TASKS ==> tasks0[..] == old(tasks0[..])
      ensures Lists(level[..], tasks0[..])
    {
      t := 0;
      while t < MAX_TASKS && tasks0[t].flags != 0
        invariant t <= MAX_TASKS
        invariant forall u :: 0 <= u < t ==> tasks0[u].flags != 0
      {
        t := t + 1;
      }
      if t < MAX_TASKS {
        MarkKeeps(level[..], tasks0[..], t, tasks0[t].(flags := 1));
        tasks0[t] := tasks0[t].(flags := 1);
      }
    }

    /** The first task runs at level 0, and the idle task, which never sleeps, at the last level. */
    constructor ()
      ensures Valid() && fresh(level) && fresh(tasks0)
      ensures tr == 0 && now_lv == 0 && tasks0[0] == Task(2, 0, 2) && tasks0[1] == Task(2, MAX_TASKLEVELS - 1, 1)
      ensures forall t :: 2 <= t < MAX_TASKS ==> tasks0[t].flags == 0
      ensures level[0].running == 1 && forall v :: 0 < v < MAX_TASKLEVELS - 1 ==> level[v].running == level[v].now == 0
    {
      level := new TaskLevel[MAX_TASKLEVELS](_ => TaskLevel(0, 0, seq(MAX_TASKS_LV, _ => 0)));
      tasks0 := new Task[MAX_TASKS](_ => Task(0, 0, 0));
      now_lv, lv_change, tr := 0, true, 0;
      new;
      EmptyLists(level[..], tasks0[..]);
      Begin();
      BeginIdle();
    }

    method Begin()
      requires Lists(level[..], tasks0[..])
      requires forall t :: 0 <= t < MAX_TASKS ==> tasks0[t].flags == 0
      requires forall v :: 0 <= v < MAX_TASKLEVELS ==> level[v].running == level[v].now == 0
      modifies this, level, tasks0
      ensures Valid() && tr == 0 && now_lv == 0 && tasks0[0] == Task(2, 0, 2) && level[0].running == 1
      ensures forall v :: 0 < v < MAX_TASKLEVELS ==> level[v].running == level[v].now == 0
      ensures forall t :: 1 <= t < MAX_TASKS ==> tasks0[t].flags == 0
    {
      assert tasks0[0].flags == 0;
      var task := Alloc();
      assert task == 0;
      ghost var ts := tasks0[..];
      RelabelKeeps(level[..], ts, task, Task(1, 0, 2));
      tasks0[task] := tasks0[task].(level := 0, priority := 2);
      assert tasks0[..] == ts[task := Task(1, 0, 2)];
      Add(task);
      assert level[0].running == 1 && level[..][0] == level[0];
      SwitchSub();
      tr := task;
    }

    method BeginIdle()
      requires Valid() && tr == 0 && now_lv == 0 && tasks0[0] == Task(2, 0, 2) && level[0].running == 1
      requires forall v :: 0 < v < MAX_TASKLEVELS ==> level[v].running == level[v].now == 0
      requires forall t :: 1 <= t < MAX_TASKS ==> tasks0[t].flags == 0
      modifies this, level, tasks0
      ensures Valid() && tr == 0 && now_lv == 0 && tasks0[0] == Task(2, 0, 2) && tasks0[1] == Task(2, MAX_TASKLEVELS - 1, 1)
      ensures forall t :: 2 <= t < MAX_TASKS ==> tasks0[t].flags == 0
      ensures level[0].running == 1 && forall v :: 0 < v < MAX_TASKLEVELS - 1 ==> level[v].running == level[v].now == 0
    {
      assert tasks0[1].flags == 0;
      var idle := Alloc();
      assert idle == 1;
      Run(idle, MAX_TASKLEVELS - 1, 1);
    }
  }

  /** The first task moves to level 1; the switch that follows leaves `now` of the emptied level at 1. */
  method LeaveLevel(ctl: TaskCtl)
    requires ctl.Valid() && ctl.tr == 0 && ctl.now_lv == 0 && ctl.tasks0[0] == Task(2, 0, 2) && ctl.tasks0[2].flags == 0
    requires ctl.level[0].running == 1 && ctl.level[1].running == ctl.level[1].now == 0
    modifies ctl, ctl.level, ctl.tasks0
    ensures ctl.Valid() && ctl.level[0].running == 0 && ctl.level[0].now == 1 && ctl.tasks0[2].flags == 0
  {
    ghost var lv := ctl.level[..];
    OnlyTask(lv, ctl.tasks0[..]);
    ctl.Run(0, 1, 2);
    ghost var moved := ctl.level[..];
    MovedOut(lv, moved);
    var quantum := ctl.Switch();
    assert ctl.level[..][0] == Advanced(moved[0]);
  }

  /** From the start on: a task that is run at a level emptied in this way upsets the lists. */
  method EmptiedLevelUpset() returns (ctl: TaskCtl)
    ensures fresh(ctl) && !ctl.Valid()
  {
    ctl := new TaskCtl();
    LeaveLevel(ctl);
    ghost var ts := ctl.tasks0[..];
    var t := ctl.Alloc();
    assert ts[2].flags == 0;
    assert ctl.Valid();
    ctl.Run(t, 0, 2);
  }
}
