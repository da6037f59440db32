/** The thread counter of `greyd_server`: `nthread` is incremented and
    decremented under a mutex but compared with its limit without it. One step
    below is one memory access or one mutex operation of one thread, and a run
    is any schedule of such steps. */
module GreydThreads {
  import opened CText

  const MAX_THREAD := 64

  type Tid = nat

  /** Where a thread is. `reg` is the value its `nthread++` or `nthread--` has
      loaded and not yet stored. */
  datatype Pc =
    | Starting                 // before GREY_LOCK
    | Entering                 // holds the lock, about to load nthread
    | Incrementing(reg: int)   // loaded, about to store reg + 1
    | Entered                  // stored, about to unlock
    | TestingLow               // about to read nthread for `nthread < 0`
    | TestingHigh              // about to read nthread for `nthread >= MAX_THREAD`
    | Serving                  // past the busy check
    | Closing                  // at `fin`, before GREY_LOCK
    | Leaving                  // holds the lock, about to load nthread
    | Decrementing(reg: int)   // loaded, about to store reg - 1
    | Left                     // stored, about to unlock
    | Finished

  datatype State = State(nthread: int, holder: Option<Tid>, pc: map<Tid, Pc>)

  const Start := State(0, None, map[])

  function At(s: State, t: Tid, pc: Pc): State {
    s.(pc := s.pc[t := pc])
  }

  /** One step of thread t; a thread that waits for the mutex stays put, and
      scheduling an unknown thread creates it. */
  function Step(s: State, t: Tid): State {
    if t !in s.pc then At(s, t, Starting)
    else
      match s.pc[t]
      case Starting => if s.holder == None then At(s, t, Entering).(holder := Some(t)) else s
      case Entering => At(s, t, Incrementing(s.nthread))
      case Incrementing(reg) => At(s, t, Entered).(nthread := reg + 1)
      case Entered => At(s, t, TestingLow).(holder := None)
      case TestingLow => At(s, t, if s.nthread < 0 then Closing else TestingHigh)
      case TestingHigh => At(s, t, if s.nthread >= MAX_THREAD then Closing else Serving)
      case Serving => At(s, t, Closing)
      case Closing => if s.holder == None then At(s, t, Leaving).(holder := Some(t)) else s
      case Leaving => At(s, t, Decrementing(s.nthread))
      case Decrementing(reg) => At(s, t, Left).(nthread := reg - 1)
      case Left => At(s, t, Finished).(holder := None)
      case Finished => s
  }

  function Run(s: State, schedule: seq<Tid>): State {
    if schedule == [] then s else Step(Run(s, schedule[..|schedule| - 1]), schedule[|schedule| - 1])
  }

  // ----- what every schedule keeps -------------------------------------------

  /** Between its increment and its decrement. */
  predicate Counted(pc: Pc) {
    pc.Entered? || pc.TestingLow? || pc.TestingHigh? || pc.Serving? || pc.Closing? || pc.Leaving? || pc.Decrementing?
  }

  predicate Holds(pc: Pc) {
    pc.Entering? || pc.Incrementing? || pc.Entered? || pc.Leaving? || pc.Decrementing? || pc.Left?
  }

  function CountedIn(s: State): set<Tid> {
    set t | t in s.pc && Counted(s.pc[t])
  }

  function ServingIn(s: State): set<Tid> {
    set t | t in s.pc && s.pc[t].Serving?
  }

  predicate CountInv(s: State) {
    s.nthread == |CountedIn(s)| && |ServingIn(s)| < MAX_THREAD
  }

  /** The mutex has the one holder that thinks so, and what the holder has loaded
      is still the counter. */
  predicate LockInv(s: State) {
    && (s.holder.Some? ==> s.holder.value in s.pc)
    && (forall t :: t in s.pc ==> (Holds(s.pc[t]) <==> s.holder == Some(t)))
    && (forall t :: t in s.pc && (s.pc[t].Incrementing? || s.pc[t].Decrementing?) ==> s.pc[t].reg == s.nthread)
  }

  predicate Inv(s: State) { CountInv(s) && LockInv(s) }

  lemma SubsetSize<T>(a: set<T>, b: set<T>)
    requires a <= b
    ensures |a| <= |b|
  {
    assert b == a + (b - a);
  }

  /** A step changes the counted set by the stepping thread alone. */
  lemma CountedAt(s: State, s': State, t: Tid, pc: Pc)
    requires s'.pc == s.pc[t := pc]
    ensures CountedIn(s') == if Counted(pc) then CountedIn(s) + {t} else CountedIn(s) - {t}
    ensures ServingIn(s') == if pc.Serving? then ServingIn(s) + {t} else ServingIn(s) - {t}
    ensures t in CountedIn(s) <==> t in s.pc && Counted(s.pc[t])
  {
  }

  lemma LockStep(s: State, t: Tid)
    requires LockInv(s)
    ensures LockInv(Step(s, t))
  {
    var s' := Step(s, t);
    assert forall u :: u in s'.pc && u != t ==> u in s.pc && s'.pc[u] == s.pc[u];
  }

  lemma SizeAfter(a: set<Tid>, t: Tid, into: bool)
    ensures |if into then a + {t} else a - {t}| ==
            |a| + if into && t !in a then 1 else if !into && t in a then -1 else 0
  {
    if into && t in a {
      assert a + {t} == a;
    } else if !into && t !in a {
      assert a - {t} == a;
    }
  }

  /** How a step moves the stepping thread in or out of the counted set. */
  function Change(s: State, t: Tid): int {
    if t !in s.pc then 0 else if s.pc[t].Incrementing? then 1 else if s.pc[t].Decrementing? then -1 else 0
  }

  lemma StepMoves(s: State, t: Tid)
    ensures
      var s' := Step(s, t);
      t in s'.pc && s'.pc == s.pc[t := s'.pc[t]] &&
      (if Counted(s'.pc[t]) then 1 else 0) == (if t in s.pc && Counted(s.pc[t]) then 1 else 0) + Change(s, t)
  {
  }

  lemma CountChange(s: State, t: Tid)
    ensures |CountedIn(Step(s, t))| == |CountedIn(s)| + Change(s, t)
  {
    var s' := Step(s, t);
    StepMoves(s, t);
    CountedAt(s, s', t, s'.pc[t]);
    SizeAfter(CountedIn(s), t, Counted(s'.pc[t]));
  }

  lemma ServingChange(s: State, t: Tid)
    requires CountInv(s)
    ensures |ServingIn(Step(s, t))| < MAX_THREAD
  {
    var s' := Step(s, t);
    StepMoves(s, t);
    CountedAt(s, s', t, s'.pc[t]);
    if s'.pc[t].Serving? {
      assert ServingIn(s) + {t} <= CountedIn(s);
      SubsetSize(ServingIn(s) + {t}, CountedIn(s));
    } else {
      SubsetSize(ServingIn(s) - {t}, ServingIn(s));
    }
  }

  lemma CountStep(s: State, t: Tid)
    requires Inv(s)
    ensures CountInv(Step(s, t))
  {
    CountChange(s, t);
    ServingChange(s, t);
  }

  /** Over every interleaving, `nthread` is the number of threads between their
      increment and their decrement, and at most MAX_THREAD - 1 threads are past
      the busy check, although it reads the counter without the lock. */
  lemma {:induction false} ThreadLimit(schedule: seq<Tid>)
    ensures
      var s := Run(Start, schedule);
      s.nthread == |CountedIn(s)| && s.nthread >= 0 && |ServingIn(s)| <= 63
    ensures Inv(Run(Start, schedule))
  {
    if schedule == [] {
      assert CountedIn(Start) == {} && ServingIn(Start) == {};
    } else {
      var n := |schedule| - 1;
      ThreadLimit(schedule[..n]);
      LockStep(Run(Start, schedule[..n]), schedule[n]);
      CountStep(Run(Start, schedule[..n]), schedule[n]);
    }
  }

  /** A thread is told to come back later if and only if, at its second read, at
      least MAX_THREAD threads are between increment and decrement: the test for
      a negative counter never refuses anyone. */
  lemma RefusedIff(schedule: seq<Tid>, t: Tid)
    requires t in Run(Start, schedule).pc
    ensures
      var s := Run(Start, schedule);
      (s.pc[t].TestingLow? ==> Step(s, t).pc[t] == TestingHigh) &&
      (s.pc[t].TestingHigh? ==> (Step(s, t).pc[t].Closing? <==> |CountedIn(s)| >= 64))
  {
    ThreadLimit(schedule);
  }

  /** Mutual exclusion: at most one thread is between lock and unlock. */
  lemma OneHolder(schedule: seq<Tid>, t: Tid, u: Tid)
    ensures
      var s := Run(Start, schedule);
      t in s.pc && u in s.pc && Holds(s.pc[t]) && Holds(s.pc[u]) ==> t == u
  {
    ThreadLimit(schedule);
  }

  // ----- the limit is reached ------------------------------------------------

  lemma {:induction false} RunAppend(s: State, a: seq<Tid>, b: seq<Tid>)
    ensures Run(s, a + b) == Run(Run(s, a), b)
    decreases |b|
  {
    if b == [] {
      assert a + b == a;
    } else {
      assert (a + b)[..|a + b| - 1] == a + b[..|b| - 1];
      RunAppend(s, a, b[..|b| - 1]);
    }
  }

  /** Thread t scheduled k times in a row. */
  function Repeat(t: Tid, k: nat): seq<Tid> { seq(k, i => t) }

  function Advance(s: State, t: Tid, k: nat): State {
    if k == 0 then s else Step(Advance(s, t, k - 1), t)
  }

  lemma {:induction false} RunRepeat(s: State, t: Tid, k: nat)
    ensures Run(s, Repeat(t, k)) == Advance(s, t, k)
  {
    if k > 0 {
      RunRepeat(s, t, k - 1);
      assert Repeat(t, k)[..k - 1] == Repeat(t, k - 1);
    }
  }

  /** Seven steps alone take a new thread past the busy check. */
  lemma OneMore(s: State, t: Tid)
    requires t !in s.pc && s.holder == None && 0 <= s.nthread < MAX_THREAD - 1
    ensures Advance(s, t, 7) == State(s.nthread + 1, None, s.pc[t := Serving])
  {
    var n, pc := s.nthread, s.pc;
    assert Advance(s, t, 1) == State(n, None, pc[t := Starting]);
    assert Advance(s, t, 2) == State(n, Some(t), pc[t := Entering]);
    assert Advance(s, t, 3) == State(n, Some(t), pc[t := Incrementing(n)]);
    assert Advance(s, t, 4) == State(n + 1, Some(t), pc[t := Entered]);
    assert Advance(s, t, 5) == State(n + 1, None, pc[t := TestingLow]);
    assert Advance(s, t, 6) == State(n + 1, None, pc[t := TestingHigh]);
  }

  /** Any number of threads below the limit can be served at once. */
  lemma {:induction false} LimitReached(n: nat) returns (schedule: seq<Tid>)
    requires n <= 63
    ensures
      var s := Run(Start, schedule);
      s.nthread == n && s.holder == None && (forall t :: t in s.pc ==> t < n) && |ServingIn(s)| == n
  {
    if n == 0 {
      schedule := [];
      assert ServingIn(Start) == {};
    } else {
      var before := LimitReached(n - 1);
      var s, t := Run(Start, before), n - 1;
      schedule := before + Repeat(t, 7);
      RunAppend(Start, before, Repeat(t, 7));
      RunRepeat(s, t, 7);
      OneMore(s, t);
      CountedAt(s, Run(Start, schedule), t, Serving);
      SizeAfter(ServingIn(s), t, true);
    }
  }
}
