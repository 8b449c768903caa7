/**
 * The lock demonstrations: any number of tasks, each in the loop of test_race_condition0, 1 or 2, interleaved
 * at every access to shared memory; test_and_set and Swap run with interrupts off and are one step each.
 */
module Locks {
  import opened Basics

  datatype Kind = Unlocked | TestAndSet | Swapping

  datatype Pc = SetKey | Acquire | Read | Load | Store | Delay | Check | Leave

  datatype Task = Task(pc: Pc, key: int, tmp: int, reg: int, i: nat)

  /** `increments` counts the increments of x that have been completed; no task reads it. */
  datatype State = State(tasks: seq<Task>, lock: int, x: int, z: int, increments: nat)

  function Top(k: Kind): Pc {
    match k
    case Unlocked => Read
    case TestAndSet => Acquire
    case Swapping => SetKey
  }

  function Step(k: Kind, s: State, t: nat): (r: State)
    requires t < |s.tasks|
    ensures |r.tasks| == |s.tasks|
  {
    var a := s.tasks[t];
    match a.pc
    case SetKey => s.(tasks := s.tasks[t := a.(pc := Acquire, key := 0xff)])
    case Acquire =>
      var was := s.lock;
      var next := a.(pc := if was != 0 then Acquire else Read);
      if k == Swapping then s.(lock := a.key, tasks := s.tasks[t := next.(key := was)])
      else s.(lock := 0xff, tasks := s.tasks[t := next])
    case Read => s.(tasks := s.tasks[t := a.(pc := Load, tmp := s.x)])
    case Load => s.(tasks := s.tasks[t := a.(pc := Store, reg := s.x)])
    case Store =>
      s.(x := (a.reg + 1) % WORD, increments := s.increments + 1, tasks := s.tasks[t := a.(pc := Delay, i := 5)])
    case Delay => s.(tasks := s.tasks[t := if a.i > 0 then a.(i := a.i - 1) else a.(pc := Check)])
    case Check => s.(z := if Signed(s.x - a.tmp) > 1 then 1 else s.z, tasks := s.tasks[t := a.(pc := Leave)])
    case Leave => s.(lock := 0, tasks := s.tasks[t := a.(pc := Top(k))])
  }

  ghost predicate Schedule(s: State, order: seq<nat>) { forall i :: 0 <= i < |order| ==> order[i] < |s.tasks| }

  /** The state after the tasks named in `order` have taken one step each, in that order. */
  ghost function Run(k: Kind, s: State, order: seq<nat>): State
    requires Schedule(s, order)
    decreases |order|
  {
    if order == [] then s else Run(k, Step(k, s, order[0]), order[1..])
  }

  ghost predicate Inside(a: Task) { a.pc !in {SetKey, Acquire} }

  ghost predicate Start(k: Kind, s: State, x0: int) {
    && s.lock == 0 && s.x == x0 % WORD && s.increments == 0
    && forall t :: 0 <= t < |s.tasks| ==> s.tasks[t].pc == Top(k)
  }

  ghost predicate AtMostOneInside(s: State) {
    forall t, u :: 0 <= t < |s.tasks| && 0 <= u < |s.tasks| && Inside(s.tasks[t]) && Inside(s.tasks[u]) ==> t == u
  }

  /** Nobody holds a key to the lock but the task inside, and nobody but that task has read x for its increment. */
  ghost predicate Local(k: Kind, a: Task, x: int) {
    match a.pc
    case SetKey => true
    case Acquire => k == Swapping ==> a.key != 0
    case Read => true
    case Load => a.tmp == x
    case Store => a.tmp == x && a.reg == x
    case Delay => x == (a.tmp + 1) % WORD
    case Check => x == (a.tmp + 1) % WORD
    case Leave => true
  }

  ghost predicate Inv(k: Kind, s: State, x0: int, z0: int) {
    && AtMostOneInside(s)
    && (s.lock == 0 <==> forall t :: 0 <= t < |s.tasks| ==> !Inside(s.tasks[t]))
    && (forall t :: 0 <= t < |s.tasks| ==> Local(k, s.tasks[t], s.x))
    && s.x == (x0 + s.increments) % WORD && s.z == z0
  }

  lemma NoRaceSeen(x: int, tmp: int)
    requires x == (tmp + 1) % WORD
    ensures Signed(x - tmp) == 1
  {
    assert (x - tmp) % WORD == 1;
  }

  lemma NextWord(x: int, n: int)
    ensures (x % WORD + n) % WORD == (x + n) % WORD
  {
  }

  lemma OutsideKeeps(k: Kind, s: State, t: nat, x0: int, z0: int)
    requires k != Unlocked && t < |s.tasks| && Inv(k, s, x0, z0) && !Inside(s.tasks[t])
    ensures Inv(k, Step(k, s, t), x0, z0)
  {
    var r := Step(k, s, t);
    if s.lock != 0 {
      var u :| 0 <= u < |s.tasks| && Inside(s.tasks[u]);
      assert Inside(r.tasks[u]);
    } else if s.tasks[t].pc == Acquire {
      assert Inside(r.tasks[t]);
    }
  }

  lemma InsideKeeps(k: Kind, s: State, t: nat, x0: int, z0: int)
    requires k != Unlocked && t < |s.tasks| && Inv(k, s, x0, z0) && Inside(s.tasks[t])
    ensures Inv(k, Step(k, s, t), x0, z0)
  {
    var r, a := Step(k, s, t), s.tasks[t];
    if a.pc != Leave {
      assert Inside(r.tasks[t]);
    }
    if a.pc == Check {
      NoRaceSeen(s.x, a.tmp);
    } else if a.pc == Store {
      NextWord(x0 + s.increments, 1);
    }
  }

  /**
   * From an open lock, whatever the interleaving: at most one task is between acquiring and releasing, no
   * increment is lost, and no task ever sees that another has incremented x beside it.
   */
  lemma LockExcludes(k: Kind, s: State, order: seq<nat>, x0: int)
    requires k != Unlocked && Start(k, s, x0) && Schedule(s, order)
    ensures var r := Run(k, s, order); AtMostOneInside(r) && r.x == (x0 + r.increments) % WORD && r.z == s.z
  {
    RunKeeps(k, s, order, x0, s.z);
  }

  lemma {:induction false} RunKeeps(k: Kind, s: State, order: seq<nat>, x0: int, z0: int)
    requires k != Unlocked && Inv(k, s, x0, z0) && Schedule(s, order)
    ensures Inv(k, Run(k, s, order), x0, z0)
    decreases |order|
  {
    if order != [] {
      if Inside(s.tasks[order[0]]) {
        InsideKeeps(k, s, order[0], x0, z0);
      } else {
        OutsideKeeps(k, s, order[0], x0, z0);
      }
      RunKeeps(k, Step(k, s, order[0]), order[1..], x0, z0);
    }
  }

  ghost predicate Spins(s: State, t: nat)
    requires t < |s.tasks|
  {
    s.tasks[t].pc == Acquire && s.lock != 0
  }

  /** In every reachable state some task is not kept waiting. */
  lemma SomeTaskMoves(k: Kind, s: State, order: seq<nat>, x0: int)
    requires k != Unlocked && Start(k, s, x0) && Schedule(s, order) && s.tasks != []
    ensures var r := Run(k, s, order); exists t: nat :: t < |r.tasks| && !Spins(r, t) && Step(k, r, t).tasks[t] != r.tasks[t]
  {
    hide Run;
    RunKeeps(k, s, order, x0, s.z);
    RunLength(k, s, order);
    var r := Run(k, s, order);
    if r.lock == 0 {
      assert !Spins(r, 0);
    } else {
      var u :| 0 <= u < |r.tasks| && Inside(r.tasks[u]);
      assert !Spins(r, u);
    }
  }

  lemma {:induction false} RunLength(k: Kind, s: State, order: seq<nat>)
    requires Schedule(s, order)
    ensures |Run(k, s, order).tasks| == |s.tasks|
    decreases |order|
  {
    if order != [] {
      RunLength(k, Step(k, s, order[0]), order[1..]);
    }
  }

  /** Without the lock two tasks can read the same x, and then one of the two increments is lost. */
  lemma UnlockedLoses(s: State)
    requires Start(Unlocked, s, 0) && |s.tasks| == 2
    ensures exists order :: Schedule(s, order) && Run(Unlocked, s, order).increments == 2 && Run(Unlocked, s, order).x == 1
  {
    var s1 := Step(Unlocked, s, 0);
    var s2 := Step(Unlocked, s1, 0);
    var s3 := Step(Unlocked, s2, 1);
    var s4 := Step(Unlocked, s3, 1);
    var s5 := Step(Unlocked, s4, 0);
    var s6 := Step(Unlocked, s5, 1);
    RunFirst(Unlocked, s5, 1, []);
    RunFirst(Unlocked, s4, 0, [1]);
    RunFirst(Unlocked, s3, 1, [0, 1]);
    RunFirst(Unlocked, s2, 1, [1, 0, 1]);
    RunFirst(Unlocked, s1, 0, [1, 1, 0, 1]);
    RunFirst(Unlocked, s, 0, [0, 1, 1, 0, 1]);
    assert s6.increments == 2 && s6.x == 1;
  }

  /** A task in its delay loop comes to the check while nobody else steps. */
  lemma {:induction false} DelayEnds(k: Kind, s: State, t: nat) returns (order: seq<nat>)
    requires t < |s.tasks| && s.tasks[t].pc == Delay
    ensures (forall i :: 0 <= i < |order| ==> order[i] == t) && Schedule(s, order)
    ensures Run(k, s, order) == s.(tasks := s.tasks[t := s.tasks[t].(pc := Check, i := 0)])
    decreases s.tasks[t].i
  {
    var r := Step(k, s, t);
    order := [];
    if s.tasks[t].i > 0 {
      order := DelayEnds(k, r, t);
    }
    RunFirst(k, s, t, order);
    order := [t] + order;
  }

  /** Without the lock a task can find at its check that another has incremented x as well, and then z is set. */
  lemma UnlockedSees(s: State)
    requires Start(Unlocked, s, 0) && |s.tasks| == 2
    ensures exists order :: Schedule(s, order) && Run(Unlocked, s, order).increments == 2 && Run(Unlocked, s, order).z == 1
  {
    hide Step, Run;
    var s3 := Counted(Unlocked, s, 0, 0);
    var s6 := Counted(Unlocked, s3, 1, 1);
    var wait := DelayEnds(Unlocked, s6, 0);
    var s7 := Run(Unlocked, s6, wait);
    SeesRace(Unlocked, s7, 0);
    var rest := wait + [0];
    RunAppend(Unlocked, s6, wait, [0]);
    ThreeFirst(Unlocked, s3, 1, rest);
    ThreeFirst(Unlocked, s, 0, [1, 1, 1] + rest);
  }

  /** Reading, loading and storing, with nobody in between. */
  lemma Counted(k: Kind, s: State, t: nat, x: int) returns (r: State)
    requires t < |s.tasks| && s.tasks[t].pc == Read && s.x == x && 0 <= x < WORD - 1
    ensures r == Step(k, Step(k, Step(k, s, t), t), t)
    ensures r == s.(x := x + 1, increments := s.increments + 1, tasks := s.tasks[t := Task(Delay, s.tasks[t].key, x, x, 5)])
  {
    r := Step(k, Step(k, Step(k, s, t), t), t);
  }

  /** At the check: somebody else has incremented x. */
  lemma SeesRace(k: Kind, s: State, t: nat)
    requires t < |s.tasks| && s.tasks[t].pc == Check && s.x == s.tasks[t].tmp + 2 < WORD / 2 && s.tasks[t].tmp >= 0
    ensures Schedule(s, [t]) && Run(k, s, [t]) == s.(z := 1, tasks := s.tasks[t := s.tasks[t].(pc := Leave)])
  {
    RunFirst(k, s, t, []);
    assert [t] + [] == [t] && s.x - s.tasks[t].tmp == 2;
  }

  /** A task that nobody disturbs goes round its loop: x is one more, z as it was, the lock open again. */
  lemma AloneCompletes(k: Kind, s: State, t: nat, x0: int) returns (order: seq<nat>)
    requires Start(k, s, x0) && t < |s.tasks|
    ensures (forall i :: 0 <= i < |order| ==> order[i] == t) && Schedule(s, order)
    ensures var r := Run(k, s, order);
            |r.tasks| == |s.tasks| && r.tasks[t].pc == Top(k) && r.lock == 0 && r.x == (x0 + 1) % WORD && r.increments == 1 && r.z == s.z
  {
    hide Step, Run;
    var reach := ToRead(k, s, t);
    var rest := FromRead(k, Run(k, s, reach), t);
    NextWord(x0, 1);
    order := reach + rest;
    RunAppend(k, s, reach, rest);
  }

  /** From the first reading of x round to the top. */
  lemma FromRead(k: Kind, s: State, t: nat) returns (order: seq<nat>)
    requires t < |s.tasks| && s.tasks[t].pc == Read && 0 <= s.x < WORD
    ensures (forall i :: 0 <= i < |order| ==> order[i] == t) && Schedule(s, order)
    ensures var r := Run(k, s, order);
            && |r.tasks| == |s.tasks| && r.tasks[t].pc == Top(k) && r.lock == 0
            && r.x == (s.x + 1) % WORD && r.increments == s.increments + 1 && r.z == s.z
  {
    hide Run;
    var s3 := Step(k, Step(k, Step(k, s, t), t), t);
    assert s3.tasks[t].pc == Delay && s3.tasks[t].tmp == s.x && s3.x == (s.x + 1) % WORD;
    var wait := DelayEnds(k, s3, t);
    var end := CheckAndLeave(k, Run(k, s3, wait), t);
    RunAppend(k, s3, wait, end);
    ThreeFirst(k, s, t, wait + end);
    order := [t, t, t] + (wait + end);
  }

  lemma CheckAndLeave(k: Kind, s: State, t: nat) returns (order: seq<nat>)
    requires t < |s.tasks| && s.tasks[t].pc == Check && s.x == (s.tasks[t].tmp + 1) % WORD
    ensures (forall i :: 0 <= i < |order| ==> order[i] == t) && Schedule(s, order)
    ensures var r := Run(k, s, order); r == s.(lock := 0, tasks := s.tasks[t := s.tasks[t].(pc := Top(k))])
  {
    NoRaceSeen(s.x, s.tasks[t].tmp);
    order := [t, t];
    RunFirst(k, Step(k, s, t), t, []);
    RunFirst(k, s, t, [t]);
    assert [t] + [t] == order && [t] + [] == [t];
  }

  /** Up to the first reading of x, by way of the open lock. */
  lemma ToRead(k: Kind, s: State, t: nat) returns (order: seq<nat>)
    requires t < |s.tasks| && s.tasks[t].pc == Top(k) && s.lock == 0
    ensures (forall i :: 0 <= i < |order| ==> order[i] == t) && Schedule(s, order)
    ensures var r := Run(k, s, order);
            |r.tasks| == |s.tasks| && r.tasks[t].pc == Read && r.x == s.x && r.z == s.z && r.increments == s.increments
  {
    match k
    case Unlocked => order := [];
    case TestAndSet =>
      order := [t];
      RunFirst(k, s, t, []);
      assert [t] + [] == order;
    case Swapping =>
      order := [t, t];
      RunFirst(k, s, t, [t]);
      RunFirst(k, Step(k, s, t), t, []);
      assert [t] + [t] == order && [t] + [] == [t];
  }

  lemma {:induction false} RunAppend(k: Kind, s: State, a: seq<nat>, b: seq<nat>)
    requires Schedule(s, a + b) && Schedule(s, a)
    ensures |Run(k, s, a).tasks| == |s.tasks| && Schedule(Run(k, s, a), b) && Run(k, s, a + b) == Run(k, Run(k, s, a), b)
    decreases |a|
  {
    assert forall i :: 0 <= i < |b| ==> b[i] == (a + b)[|a| + i];
    if a == [] {
      assert a + b == b;
    } else {
      assert (a + b)[1..] == a[1..] + b;
      RunAppend(k, Step(k, s, a[0]), a[1..], b);
    }
  }

  lemma ThreeFirst(k: Kind, s: State, t: nat, rest: seq<nat>)
    requires t < |s.tasks| && Schedule(s, rest)
    ensures Schedule(s, [t, t, t] + rest)
    ensures Run(k, s, [t, t, t] + rest) == Run(k, Step(k, Step(k, Step(k, s, t), t), t), rest)
  {
    var s1 := Step(k, s, t);
    RunFirst(k, Step(k, s1, t), t, rest);
    RunFirst(k, s1, t, [t] + rest);
    RunFirst(k, s, t, [t] + ([t] + rest));
    assert [t] + ([t] + ([t] + rest)) == [t, t, t] + rest;
  }

  lemma RunFirst(k: Kind, s: State, t: nat, rest: seq<nat>)
    requires t < |s.tasks| && Schedule(s, rest)
    ensures Schedule(s, [t] + rest) && Run(k, s, [t] + rest) == Run(k, Step(k, s, t), rest)
  {
    assert ([t] + rest)[1..] == rest;
  }
}
