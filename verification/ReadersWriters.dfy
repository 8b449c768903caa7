/**
 * The reader and writer programs over the kernel's shared words and semaphores. One step is one system call of
 * a task; a store call is two, since the kernel writes the word and then reads it back.
 */
module ReadersWriters {
  import opened Basics

  datatype ReaderPc =
    | EnterWait | EnterLoad | EnterStore | EnterReload | EnterLock | EnterSignal
    | Reading
    | ExitWait | ExitLoad | ExitStore | ExitReload | ExitUnlock | ExitSignal

  datatype WriterPc = WriteWait | Write | WriteReload | WriteSignal | Ended

  datatype Reader = Reader(pc: ReaderPc, count: int, seen: int)

  datatype Writer = Writer(pc: WriterPc, x: int)

  datatype State = State(readers: seq<Reader>, writers: seq<Writer>, rwMutex: int, mutex: int, readCount: int, content: int)

  datatype Who = R(i: nat) | W(j: nat)

  predicate Present(s: State, who: Who) {
    match who
    case R(i) => i < |s.readers|
    case W(j) => j < |s.writers|
  }

  /** A wait on a semaphore that is not positive leaves everything as it is. */
  predicate Spins(s: State, who: Who)
    requires Present(s, who)
  {
    match who
    case R(i) => (s.readers[i].pc in {EnterWait, ExitWait} && s.mutex <= 0) || (s.readers[i].pc == EnterLock && s.rwMutex <= 0)
    case W(j) => s.writers[j].pc == WriteWait && s.rwMutex <= 0
  }

  function ReaderStep(s: State, i: nat): (t: State)
    requires i < |s.readers|
    ensures |t.readers| == |s.readers| && t.writers == s.writers && t.content == s.content
  {
    var r := s.readers[i];
    match r.pc
    case EnterWait => s.(mutex := s.mutex - 1, readers := s.readers[i := r.(pc := EnterLoad)])
    case EnterLoad => s.(readers := s.readers[i := r.(pc := EnterStore, count := s.readCount)])
    case EnterStore => s.(readCount := r.count + 1, readers := s.readers[i := r.(pc := EnterReload)])
    case EnterReload =>
      s.(readers := s.readers[i := r.(pc := if s.readCount == 1 then EnterLock else EnterSignal, count := s.readCount)])
    case EnterLock => s.(rwMutex := s.rwMutex - 1, readers := s.readers[i := r.(pc := EnterSignal)])
    case EnterSignal => s.(mutex := s.mutex + 1, readers := s.readers[i := r.(pc := Reading)])
    case Reading => s.(readers := s.readers[i := r.(pc := ExitWait, seen := s.content)])
    case ExitWait => s.(mutex := s.mutex - 1, readers := s.readers[i := r.(pc := ExitLoad)])
    case ExitLoad => s.(readers := s.readers[i := r.(pc := ExitStore, count := s.readCount)])
    case ExitStore => s.(readCount := r.count - 1, readers := s.readers[i := r.(pc := ExitReload)])
    case ExitReload =>
      s.(readers := s.readers[i := r.(pc := if s.readCount == 0 then ExitUnlock else ExitSignal, count := s.readCount)])
    case ExitUnlock => s.(rwMutex := s.rwMutex + 1, readers := s.readers[i := r.(pc := ExitSignal)])
    case ExitSignal => s.(mutex := s.mutex + 1, readers := s.readers[i := r.(pc := EnterWait)])
  }

  function WriterStep(s: State, j: nat): (t: State)
    requires j < |s.writers|
    ensures |t.writers| == |s.writers| && t.readers == s.readers && t.mutex == s.mutex && t.readCount == s.readCount
  {
    var w := s.writers[j];
    match w.pc
    case WriteWait => s.(rwMutex := s.rwMutex - 1, writers := s.writers[j := w.(pc := Write)])
    case Write => s.(content := w.x, writers := s.writers[j := w.(pc := WriteReload)])
    case WriteReload => s.(writers := s.writers[j := w.(pc := WriteSignal)])
    case WriteSignal =>
      var x := (w.x + 1) % WORD;
      s.(rwMutex := s.rwMutex + 1, writers := s.writers[j := Writer(if x != 0 then WriteWait else Ended, x)])
    case Ended => s
  }

  function Step(s: State, who: Who): (t: State)
    requires Present(s, who)
    ensures |t.readers| == |s.readers| && |t.writers| == |s.writers|
  {
    if Spins(s, who) then s
    else match who
      case R(i) => ReaderStep(s, i)
      case W(j) => WriterStep(s, j)
  }

  ghost predicate Schedule(s: State, order: seq<Who>) { forall k :: 0 <= k < |order| ==> Present(s, order[k]) }

  /** The state after the tasks named in `order` have taken one step each, in that order. */
  ghost function Run(s: State, order: seq<Who>): State
    requires Schedule(s, order)
    decreases |order|
  {
    if order == [] then s else Run(Step(s, order[0]), order[1..])
  }

  /** Any numbers of readers and writers at the top of their programs, with both semaphores open. */
  ghost predicate Start(s: State, readCount: int) {
    && s.rwMutex == 1 && s.mutex == 1 && s.readCount == readCount
    && (forall i :: 0 <= i < |s.readers| ==> s.readers[i].pc == EnterWait)
    && (forall j :: 0 <= j < |s.writers| ==> s.writers[j].pc == WriteWait)
  }

  /** In possession of `mutex`. */
  predicate Counting(r: Reader) {
    r.pc in {EnterLoad, EnterStore, EnterReload, EnterLock, EnterSignal, ExitLoad, ExitStore, ExitReload, ExitUnlock, ExitSignal}
  }

  /** Between the entry protocol's last decision and the exit protocol's decrement: free to read. */
  predicate Entered(r: Reader) { r.pc in {EnterSignal, Reading, ExitWait, ExitLoad, ExitStore} }

  predicate Counted(r: Reader) { Entered(r) || r.pc in {EnterReload, EnterLock} }

  predicate Writing(w: Writer) { w.pc in {Write, WriteReload, WriteSignal} }

  ghost function CountOf(rs: seq<Reader>): (n: nat)
    ensures n <= |rs|
  {
    if rs == [] then 0 else CountOf(rs[..|rs| - 1]) + if Counted(rs[|rs| - 1]) then 1 else 0
  }

  lemma {:induction false} CountUpdated(rs: seq<Reader>, i: nat, r: Reader)
    requires i < |rs|
    ensures CountOf(rs[i := r]) == CountOf(rs) - (if Counted(rs[i]) then 1 else 0) + if Counted(r) then 1 else 0
  {
    var n := |rs| - 1;
    if i == n {
      assert rs[i := r][..n] == rs[..n];
    } else {
      CountUpdated(rs[..n], i, r);
      assert rs[i := r][..n] == rs[..n][i := r];
    }
  }

  lemma {:induction false} CountNone(rs: seq<Reader>)
    ensures CountOf(rs) == 0 <==> forall i :: 0 <= i < |rs| ==> !Counted(rs[i])
  {
    if rs != [] {
      var n := |rs| - 1;
      CountNone(rs[..n]);
      assert forall i :: 0 <= i < n ==> rs[..n][i] == rs[i];
    }
  }

  /** With more than one counted there is another. */
  lemma CountOthers(rs: seq<Reader>, i: nat)
    requires i < |rs| && Counted(rs[i])
    ensures CountOf(rs) > 1 <==> exists k :: 0 <= k < |rs| && k != i && Counted(rs[k])
  {
    var gone := rs[i].(pc := EnterWait);
    var without := rs[i := gone];
    CountUpdated(rs, i, gone);
    assert CountOf(without) == CountOf(rs) - 1;
    CountNone(without);
    if k :| 0 <= k < |rs| && Counted(without[k]) {
      assert k != i && Counted(rs[k]);
    }
    if k :| 0 <= k < |rs| && k != i && Counted(rs[k]) {
      assert Counted(without[k]);
    }
  }

  predicate Holder(r: Reader, readCount: int) {
    Entered(r) || r.pc == ExitUnlock || (r.pc == ExitReload && readCount == 0)
  }

  /** The readers together hold `rwMutex`. */
  ghost predicate ReadersHold(s: State) {
    exists i :: 0 <= i < |s.readers| && Holder(s.readers[i], s.readCount)
  }

  /** What the reader in possession of `mutex` knows of the count. */
  predicate Knows(r: Reader, readCount: int) {
    match r.pc
    case EnterStore => r.count == readCount
    case ExitStore => r.count == readCount
    case EnterLock => readCount == 1
    case ExitUnlock => readCount == 0
    case _ => true
  }

  /** Reader h possesses `mutex`, or none does when h is -1. */
  ghost predicate MutexHeld(s: State, h: int) {
    && -1 <= h < |s.readers|
    && (forall i :: 0 <= i < |s.readers| ==> (Counting(s.readers[i]) <==> i == h))
    && s.mutex == (if h == -1 then 1 else 0)
    && (h != -1 ==> Knows(s.readers[h], s.readCount))
  }

  /** Writer w holds `rwMutex`, or none does when w is -1 and then the readers may. */
  ghost predicate RwMutexHeld(s: State, w: int) {
    && -1 <= w < |s.writers|
    && (forall j :: 0 <= j < |s.writers| ==> (Writing(s.writers[j]) <==> j == w))
    && s.rwMutex == (if w == -1 && !ReadersHold(s) then 1 else 0)
    && (w != -1 ==> !ReadersHold(s))
  }

  ghost predicate Inv(s: State, h: int, w: int) {
    MutexHeld(s, h) && RwMutexHeld(s, w) && s.readCount == CountOf(s.readers)
  }

  lemma WriterKeeps(s: State, j: nat, h: int, w: int) returns (w': int)
    requires Inv(s, h, w) && j < |s.writers| && !Spins(s, W(j))
    ensures Inv(WriterStep(s, j), h, w')
  {
    assert ReadersHold(WriterStep(s, j)) == ReadersHold(s);
    return if s.writers[j].pc == WriteWait then j else if s.writers[j].pc == WriteSignal then -1 else w;
  }

  /** The readers keep or lose their hold with the reader that steps, unless another holds as well. */
  lemma HoldAfter(s: State, t: State, i: nat)
    requires i < |s.readers| == |t.readers| && forall k :: 0 <= k < |s.readers| && k != i ==> t.readers[k] == s.readers[k]
    requires s.readCount == t.readCount || forall k :: 0 <= k < |s.readers| && k != i ==> s.readers[k].pc != ExitReload
    ensures ReadersHold(s) <==> Holder(s.readers[i], s.readCount)
                                || exists k :: 0 <= k < |s.readers| && k != i && Holder(s.readers[k], s.readCount)
    ensures ReadersHold(t) <==> Holder(t.readers[i], t.readCount)
                                || exists k :: 0 <= k < |s.readers| && k != i && Holder(s.readers[k], s.readCount)
  {
    if k :| 0 <= k < |s.readers| && k != i && Holder(s.readers[k], s.readCount) {
      assert Holder(t.readers[k], t.readCount);
    }
    if k :| 0 <= k < |t.readers| && k != i && Holder(t.readers[k], t.readCount) {
      assert Holder(s.readers[k], s.readCount);
    }
  }

  /** While one reader possesses `mutex`, the others that are counted have entered. */
  lemma OthersEntered(s: State, i: nat, h: int, w: int)
    requires Inv(s, h, w) && h == i && Counted(s.readers[i])
    ensures s.readCount > 0
    ensures s.readCount > 1 <==> exists k :: 0 <= k < |s.readers| && k != i && Holder(s.readers[k], s.readCount)
  {
    CountOthers(s.readers, i);
    CountNone(s.readers);
    if k :| 0 <= k < |s.readers| && k != i && Holder(s.readers[k], s.readCount) {
      assert !Counting(s.readers[k]) && Counted(s.readers[k]);
    }
    if k :| 0 <= k < |s.readers| && k != i && Counted(s.readers[k]) {
      assert !Counting(s.readers[k]) && Holder(s.readers[k], s.readCount);
    }
  }

  lemma ReaderKeepsMutex(s: State, i: nat, h: int, w: int) returns (h': int)
    requires Inv(s, h, w) && i < |s.readers| && !Spins(s, R(i))
    ensures MutexHeld(ReaderStep(s, i), h')
  {
    var pc := s.readers[i].pc;
    CountNone(s.readers);
    return if pc in {EnterWait, ExitWait} then i else if pc in {EnterSignal, ExitSignal} then -1 else h;
  }

  lemma ReaderKeepsRwMutex(s: State, i: nat, h: int, w: int)
    requires Inv(s, h, w) && i < |s.readers| && !Spins(s, R(i))
    ensures RwMutexHeld(ReaderStep(s, i), w)
  {
    var t, pc := ReaderStep(s, i), s.readers[i].pc;
    HoldAfter(s, t, i);
    if pc in {EnterReload, ExitStore, EnterLock} {
      OthersEntered(s, i, h, w);
    } else if pc == ExitUnlock {
      CountNone(s.readers);
    }
  }

  lemma ReaderKeepsCount(s: State, i: nat, h: int, w: int)
    requires Inv(s, h, w) && i < |s.readers|
    ensures ReaderStep(s, i).readCount == CountOf(ReaderStep(s, i).readers)
  {
    var t := ReaderStep(s, i);
    assert t.readers == s.readers[i := t.readers[i]];
    CountUpdated(s.readers, i, t.readers[i]);
  }

  lemma StepKeeps(s: State, who: Who, h: int, w: int) returns (h': int, w': int)
    requires Inv(s, h, w) && Present(s, who)
    ensures Inv(Step(s, who), h', w')
  {
    h', w' := h, w;
    if !Spins(s, who) {
      match who
      case R(i) =>
        ReaderKeepsCount(s, i, h, w);
        h' := ReaderKeepsMutex(s, i, h, w);
        ReaderKeepsRwMutex(s, i, h, w);
      case W(j) =>
        w' := WriterKeeps(s, j, h, w);
    }
  }

  lemma {:induction false} RunKeeps(s: State, order: seq<Who>, h: int, w: int) returns (h': int, w': int)
    requires Inv(s, h, w) && Schedule(s, order)
    ensures Inv(Run(s, order), h', w')
    ensures |Run(s, order).readers| == |s.readers| && |Run(s, order).writers| == |s.writers|
    decreases |order|
  {
    h', w' := h, w;
    if order != [] {
      h', w' := StepKeeps(s, order[0], h, w);
      h', w' := RunKeeps(Step(s, order[0]), order[1..], h', w');
    }
  }

  lemma {:induction false} StartHolds(s: State)
    requires Start(s, 0)
    ensures Inv(s, -1, -1)
  {
    CountNone(s.readers);
  }

  /** At most one writer writes, and none while a reader has entered and not left. */
  ghost predicate Exclusion(s: State) {
    && (forall j, k :: 0 <= j < |s.writers| && 0 <= k < |s.writers| && Writing(s.writers[j]) && Writing(s.writers[k]) ==> j == k)
    && (forall i, j :: 0 <= i < |s.readers| && 0 <= j < |s.writers| && Entered(s.readers[i]) ==> !Writing(s.writers[j]))
  }

  ghost predicate Moves(s: State, who: Who) {
    Present(s, who) && !Spins(s, who) && (who.W? ==> s.writers[who.j].pc != Ended)
  }

  /** A task that has a step to take is somewhere else after it. */
  lemma StepMoves(s: State, who: Who)
    requires Moves(s, who)
    ensures match who
            case R(i) => Step(s, who).readers[i].pc != s.readers[i].pc
            case W(j) => Step(s, who).writers[j].pc != s.writers[j].pc
  {
  }

  lemma SomeMoves(s: State, h: int, w: int)
    requires Inv(s, h, w) && (s.readers != [] || exists j :: 0 <= j < |s.writers| && s.writers[j].pc != Ended)
    ensures exists who :: Moves(s, who)
  {
    if h == -1 && s.readers != [] {
      assert !Counting(s.readers[0]);
      assert Moves(s, R(0));
    } else if w != -1 {
      assert Moves(s, W(w));
    } else if h != -1 {
      if s.readers[h].pc == EnterLock {
        OthersEntered(s, h, h, w);
        HoldAfter(s, s, h);
      }
      assert Moves(s, R(h));
    } else {
      var j :| 0 <= j < |s.writers| && s.writers[j].pc != Ended;
      assert Moves(s, W(j));
    }
  }

  /**
   * In every interleaving from a count of 0: exclusion, a count that is the number of readers counted in and
   * not yet out, semaphores that are never negative, and always a task with a step other than spinning.
   */
  lemma AlwaysSafe(s: State, order: seq<Who>)
    requires Start(s, 0) && Schedule(s, order)
    ensures var t := Run(s, order);
            && Exclusion(t) && t.readCount == CountOf(t.readers) && t.rwMutex >= 0 && t.mutex >= 0
            && (s.readers != [] || (exists j :: 0 <= j < |t.writers| && t.writers[j].pc != Ended) ==> exists who :: Moves(t, who))
  {
    StartHolds(s);
    var t := Run(s, order);
    var h, w := RunKeeps(s, order, -1, -1);
    forall i, j | 0 <= i < |t.readers| && 0 <= j < |t.writers| && Entered(t.readers[i]) ensures !Writing(t.writers[j]) {
      assert Holder(t.readers[i], t.readCount);
    }
    if s.readers != [] || exists j :: 0 <= j < |t.writers| && t.writers[j].pc != Ended {
      SomeMoves(t, h, w);
    }
  }

  /** What is read does not change under a reader: no step writes the content while one has entered. */
  lemma ContentStable(s: State, order: seq<Who>, i: nat, who: Who)
    requires Start(s, 0) && Schedule(s, order) && i < |Run(s, order).readers| && Entered(Run(s, order).readers[i])
    requires Present(Run(s, order), who)
    ensures Step(Run(s, order), who).content == Run(s, order).content
  {
    AlwaysSafe(s, order);
  }

  /** One store to the content: by writer j, of the value. */
  datatype Stored = Stored(j: nat, value: int)

  /** The stores of a run, in their order. */
  ghost function Stores(s: State, order: seq<Who>): seq<Stored>
    requires Schedule(s, order)
    decreases |order|
  {
    if order == [] then []
    else
      var who := order[0];
      (if who.W? && s.writers[who.j].pc == Write then [Stored(who.j, s.writers[who.j].x)] else [])
      + Stores(Step(s, who), order[1..])
  }

  /** The content is the value of the last store. */
  lemma {:induction false} ContentIsLast(s: State, order: seq<Who>)
    requires Schedule(s, order)
    ensures var ws := Stores(s, order);
            Run(s, order).content == if ws == [] then s.content else ws[|ws| - 1].value
    decreases |order|
  {
    if order != [] {
      ContentIsLast(Step(s, order[0]), order[1..]);
    }
  }

  /** A reader that reads sees the value of the last store, and the write it belongs to is complete. */
  lemma ReaderSees(s: State, order: seq<Who>, i: nat)
    requires Start(s, 0) && Schedule(s, order) && i < |Run(s, order).readers| && Run(s, order).readers[i].pc == Reading
    ensures var ws := Stores(s, order);
            Step(Run(s, order), R(i)).readers[i].seen == if ws == [] then s.content else ws[|ws| - 1].value
    ensures forall j :: 0 <= j < |Run(s, order).writers| ==> !Writing(Run(s, order).writers[j])
  {
    AlwaysSafe(s, order);
    ContentIsLast(s, order);
    assert Entered(Run(s, order).readers[i]);
  }

  /** The values that writer j stored. */
  ghost function By(ws: seq<Stored>, j: nat): seq<int> {
    if ws == [] then [] else (if ws[0].j == j then [ws[0].value] else []) + By(ws[1..], j)
  }

  lemma ByFirst(w: Stored, ws: seq<Stored>, j: nat)
    ensures By([w] + ws, j) == if w.j == j then [w.value] + By(ws, j) else By(ws, j)
  {
    assert ([w] + ws)[1..] == ws;
    var none: seq<int> := [];
    assert none + By(ws, j) == By(ws, j);
  }

  /** The value the writer stores next, if it stores another. */
  function NextStored(w: Writer): int { if w.pc in {WriteReload, WriteSignal} then w.x + 1 else w.x }

  lemma NextAfter(s: State, who: Who, j: nat)
    requires Present(s, who) && j < |s.writers| && 0 <= s.writers[j].x < WORD
    ensures var w, w' := s.writers[j], Step(s, who).writers[j];
            && 0 <= w'.x < WORD && (w.pc == Ended ==> w'.pc == Ended)
            && (w'.pc != Ended ==> NextStored(w') == NextStored(w) + if who == W(j) && w.pc == Write then 1 else 0)
  {
    if who == W(j) && s.writers[j].pc == WriteSignal {
      var x := s.writers[j].x + 1;
      assert x < WORD ==> x % WORD == x;
    }
  }

  /** Consecutive values from the writer's next on, each once, up to the largest word at most. */
  ghost predicate CountsOn(vs: seq<int>, w: Writer) {
    forall k :: 0 <= k < |vs| ==> w.pc != Ended && vs[k] == NextStored(w) + k < WORD
  }

  /** A writer stores consecutive values and stops before 0 comes round again. */
  lemma {:induction false} WriterCounts(s: State, order: seq<Who>, j: nat)
    requires Schedule(s, order) && j < |s.writers| && 0 <= s.writers[j].x < WORD
    ensures CountsOn(By(Stores(s, order), j), s.writers[j])
    decreases |order|
  {
    hide Step, CountsOn, NextStored;
    if order == [] {
      NothingCounts(s.writers[j]);
    } else {
      var who := order[0];
      var t := Step(s, who);
      NextAfter(s, who, j);
      WriterCounts(t, order[1..], j);
      var ws := Stores(t, order[1..]);
      StoresFirst(s, order);
      if who.W? && s.writers[who.j].pc == Write {
        ByFirst(Stored(who.j, s.writers[who.j].x), ws, j);
      }
      if who == W(j) && s.writers[j].pc == Write {
        CountsBefore(By(ws, j), s.writers[j], t.writers[j]);
      } else {
        assert By(Stores(s, order), j) == By(ws, j);
        CountsStill(By(ws, j), s.writers[j], t.writers[j]);
      }
    }
  }

  lemma StoresFirst(s: State, order: seq<Who>)
    requires Schedule(s, order) && order != []
    ensures var who, ws := order[0], Stores(Step(s, order[0]), order[1..]);
            Stores(s, order) == if who.W? && s.writers[who.j].pc == Write then [Stored(who.j, s.writers[who.j].x)] + ws else ws
  {
    var ws := Stores(Step(s, order[0]), order[1..]);
    assert [] + ws == ws;
  }

  lemma NothingCounts(w: Writer)
    ensures CountsOn([], w)
  {
  }

  /** With its next store put in front. */
  lemma CountsBefore(vs: seq<int>, w: Writer, w': Writer)
    requires CountsOn(vs, w') && w.pc == Write && 0 <= w.x < WORD
    requires w'.pc != Ended ==> NextStored(w') == NextStored(w) + 1
    ensures CountsOn([w.x] + vs, w)
  {
    forall k | 0 <= k < |[w.x] + vs| ensures ([w.x] + vs)[k] == NextStored(w) + k < WORD {
      if k > 0 {
        assert ([w.x] + vs)[k] == vs[k - 1];
      }
    }
  }

  lemma CountsStill(vs: seq<int>, w: Writer, w': Writer)
    requires CountsOn(vs, w') && (w.pc == Ended ==> w'.pc == Ended) && (w'.pc != Ended ==> NextStored(w') == NextStored(w))
    ensures CountsOn(vs, w)
  {
    forall k | 0 <= k < |vs| ensures w.pc != Ended && vs[k] == NextStored(w) + k < WORD {
      assert vs[k] == NextStored(w') + k;
    }
  }

  /** Exclusion in every interleaving is had from a count of 0 and from no other. */
  lemma SafeIffCountStartsAtZero(s: State, readCount: int)
    requires Start(s, readCount) && s.readers != [] && s.writers != []
    ensures (forall order :: Schedule(s, order) ==> Exclusion(Run(s, order))) <==> readCount == 0
  {
    if readCount == 0 {
      forall order | Schedule(s, order) ensures Exclusion(Run(s, order)) {
        AlwaysSafe(s, order);
      }
    } else {
      var s1 := Step(s, R(0));
      var s2 := Step(s1, R(0));
      var s3 := Step(s2, R(0));
      var s4 := Step(s3, R(0));
      var s5 := Step(s4, W(0));
      RunFirst(s4, W(0), []);
      RunFirst(s3, R(0), [W(0)]);
      RunFirst(s2, R(0), [R(0), W(0)]);
      RunFirst(s1, R(0), [R(0), R(0), W(0)]);
      RunFirst(s, R(0), [R(0), R(0), R(0), W(0)]);
      assert Entered(s5.readers[0]) && Writing(s5.writers[0]);
      assert !Exclusion(s5);
    }
  }

  /** What the set-up program does: both semaphores set to 1, and one added to the word that holds the count. */
  function SetUp(s: State): State {
    s.(rwMutex := 1, mutex := 1, readCount := s.readCount + 1)
  }

  /** So shared memory that starts at 0 does not give exclusion after it. */
  lemma SetUpSafeIff(s: State)
    requires s.readers != [] && s.writers != []
    requires forall i :: 0 <= i < |s.readers| ==> s.readers[i].pc == EnterWait
    requires forall j :: 0 <= j < |s.writers| ==> s.writers[j].pc == WriteWait
    ensures (forall order :: Schedule(SetUp(s), order) ==> Exclusion(Run(SetUp(s), order))) <==> s.readCount == -1
  {
    SafeIffCountStartsAtZero(SetUp(s), s.readCount + 1);
  }

  /** The state after n steps of one task. */
  ghost function Alone(s: State, who: Who, n: nat): State
    requires Present(s, who)
    decreases n
  {
    if n == 0 then s else Alone(Step(s, who), who, n - 1)
  }

  lemma {:induction false} AloneIsRun(s: State, who: Who, n: nat) returns (order: seq<Who>)
    requires Present(s, who)
    ensures |order| == n && (forall k :: 0 <= k < n ==> order[k] == who) && Schedule(s, order) && Run(s, order) == Alone(s, who, n)
    decreases n
  {
    order := [];
    if n > 0 {
      order := AloneIsRun(Step(s, who), who, n - 1);
      RunFirst(s, who, order);
      order := [who] + order;
    }
  }

  lemma Next(s: State, who: Who, n: nat, t: State)
    requires Present(s, who) && n > 0 && t == Step(s, who)
    ensures Alone(s, who, n) == Alone(t, who, n - 1)
  {
  }

  /** A reader whom nobody disturbs enters, reads the content, and leaves count and semaphores as they were. */
  lemma ReaderRound(s: State, i: nat)
    requires Start(s, 0) && i < |s.readers|
    ensures Alone(s, R(i), 13) == s.(readers := s.readers[i := Reader(EnterWait, 0, s.content)])
  {
    hide Alone, Step;
    var s1 := Enter(s, i);
    var s2 := Read(s1, i, 7);
    Leave(s2, i);
  }

  lemma Enter(s: State, i: nat) returns (t: State)
    requires i < |s.readers| && s.readers[i].pc == EnterWait && s.mutex == s.rwMutex == 1 && s.readCount == 0
    ensures t == s.(rwMutex := 0, readCount := 1, readers := s.readers[i := s.readers[i].(pc := Reading, count := 1)])
    ensures Alone(s, R(i), 13) == Alone(t, R(i), 7)
  {
    hide Alone;
    var s1 := Step(s, R(i));
    var s2 := Step(s1, R(i));
    var s3 := Step(s2, R(i));
    var s4 := Step(s3, R(i));
    var s5 := Step(s4, R(i));
    t := Step(s5, R(i));
    Next(s, R(i), 13, s1);
    Next(s1, R(i), 12, s2);
    Next(s2, R(i), 11, s3);
    Next(s3, R(i), 10, s4);
    Next(s4, R(i), 9, s5);
    Next(s5, R(i), 8, t);
  }

  lemma Read(s: State, i: nat, n: nat) returns (t: State)
    requires i < |s.readers| && s.readers[i].pc == Reading && n > 0
    ensures t == s.(readers := s.readers[i := s.readers[i].(pc := ExitWait, seen := s.content)])
    ensures Alone(s, R(i), n) == Alone(t, R(i), n - 1)
  {
    t := Step(s, R(i));
  }

  lemma Leave(s: State, i: nat)
    requires i < |s.readers| && s.readers[i].pc == ExitWait && s.mutex == 1 && s.rwMutex == 0 && s.readCount == 1
    ensures Alone(s, R(i), 6)
            == s.(rwMutex := 1, readCount := 0, readers := s.readers[i := s.readers[i].(pc := EnterWait, count := 0)])
  {
    hide Alone, Step;
    var s3 := CountOut(s, i);
    SignalLast(s3, i);
  }

  lemma CountOut(s: State, i: nat) returns (t: State)
    requires i < |s.readers| && s.readers[i].pc == ExitWait && s.mutex == 1 && s.readCount == 1
    ensures t == s.(mutex := 0, readCount := 0, readers := s.readers[i := s.readers[i].(pc := ExitReload, count := 1)])
    ensures Alone(s, R(i), 6) == Alone(t, R(i), 3)
  {
    hide Alone;
    var s1 := Step(s, R(i));
    var s2 := Step(s1, R(i));
    t := Step(s2, R(i));
    Next(s, R(i), 6, s1);
    Next(s1, R(i), 5, s2);
    Next(s2, R(i), 4, t);
  }

  lemma SignalLast(s: State, i: nat)
    requires i < |s.readers| && s.readers[i].pc == ExitReload && s.mutex == 0 && s.rwMutex == 0 && s.readCount == 0
    ensures Alone(s, R(i), 3)
            == s.(rwMutex := 1, mutex := 1, readers := s.readers[i := s.readers[i].(pc := EnterWait, count := 0)])
  {
    hide Alone;
    var s1 := Step(s, R(i));
    var s2 := Step(s1, R(i));
    var t := Step(s2, R(i));
    Next(s, R(i), 3, s1);
    Next(s1, R(i), 2, s2);
    Next(s2, R(i), 1, t);
    NoStep(t, R(i));
  }

  lemma NoStep(s: State, who: Who)
    requires Present(s, who)
    ensures Alone(s, who, 0) == s
  {
  }

  /** And a writer writes its number and goes on with the next, or ends after the largest. */
  lemma WriterRound(s: State, j: nat, x: int)
    requires j < |s.writers| && s.writers[j] == Writer(WriteWait, x) && s.rwMutex == 1 && 0 <= x < WORD
    ensures Alone(s, W(j), 4) == s.(content := x,
              writers := s.writers[j := if x < WORD - 1 then Writer(WriteWait, x + 1) else Writer(Ended, 0)])
  {
    hide Alone, Step;
    var s3 := ThreeOfWriter(s, j);
    var t := Signal(s3, j);
    Next(s3, W(j), 1, t);
    NoStep(t, W(j));
  }

  lemma ThreeOfWriter(s: State, j: nat) returns (t: State)
    requires j < |s.writers| && s.writers[j].pc == WriteWait && s.rwMutex == 1
    ensures t == s.(rwMutex := 0, content := s.writers[j].x, writers := s.writers[j := s.writers[j].(pc := WriteSignal)])
    ensures Alone(s, W(j), 4) == Alone(t, W(j), 1)
  {
    hide Alone;
    var s1 := Step(s, W(j));
    var s2 := Step(s1, W(j));
    t := Step(s2, W(j));
    Next(s, W(j), 4, s1);
    Next(s1, W(j), 3, s2);
    Next(s2, W(j), 2, t);
  }

  lemma Signal(s: State, j: nat) returns (t: State)
    requires j < |s.writers| && s.writers[j].pc == WriteSignal && 0 <= s.writers[j].x < WORD
    ensures var x := s.writers[j].x;
            t == Step(s, W(j)) == s.(rwMutex := s.rwMutex + 1,
              writers := s.writers[j := if x < WORD - 1 then Writer(WriteWait, x + 1) else Writer(Ended, 0)])
  {
    var x := s.writers[j].x + 1;
    assert x < WORD ==> x % WORD == x;
    t := Step(s, W(j));
  }

  lemma RunFirst(s: State, who: Who, rest: seq<Who>)
    requires Present(s, who) && Schedule(s, rest)
    ensures Schedule(s, [who] + rest) && Run(s, [who] + rest) == Run(Step(s, who), rest)
  {
    assert ([who] + rest)[1..] == rest;
  }
}
