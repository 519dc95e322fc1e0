// The latch as a state machine of interleaved thread steps over one atomic
// counter, with the happens-before knowledge of every thread.
module Latches {
  import opened Options

  type Thread = nat
  type Event = nat
  type HandleId = nat
  type Closure = nat

  // -------- The atomic counter: section 6.9.2.1 [intro.races] of C++20 --------

  datatype Order = Relaxed | AcquireRelease

  // One side effect in the modification order of the counter, with everything that
  // happens before it (itself included).
  datatype SideEffect = SideEffect(readModifyWrite: bool, order: Order, past: set<Event>)

  // `i` belongs to the release sequence headed by `head`.
  ghost predicate InReleaseSequence(mods: seq<SideEffect>, head: nat, i: int) {
    && head <= i < |mods|
    && mods[head].order == AcquireRelease
    && forall j | head < j <= i :: mods[j].readModifyWrite
  }

  // What an acquire operation that reads side effect `i` synchronizes with.
  ghost function Acquired(mods: seq<SideEffect>, i: int): set<Event> {
    set head: nat, e: Event | head < |mods| && InReleaseSequence(mods, head, i) && e in mods[head].past :: e
  }

  // -------- States --------

  datatype State = State(
    count: int,                       // `count_`
    mods: seq<SideEffect>,            // its modification order
    know: map<Thread, set<Event>>,    // what happens before each thread's next step
    past: map<Event, set<Event>>,     // what happens before each event, itself included
    live: map<HandleId, Event>,       // handles with a non-null `latch_`, and the increment each owns
    onZero: Closure,                  // `on_zero_`
    onZeroWrite: Event,               // the write of `on_zero_` in the last `Init`
    finishing: Option<Thread>,        // saw zero and has not run the closure yet
    lastExchange: Option<Event>,      // the exchange that ended the last cycle
    inits: seq<Closure>,              // the closure of each `Init`
    runs: seq<Closure>)               // the closures run

  ghost function Know(s: State, t: Thread): set<Event> {
    if t in s.know then s.know[t] else {}
  }

  ghost function FreshEvent(s: State): Event {
    |s.past|
  }

  ghost function Initial(): State {
    State(0, [SideEffect(false, Relaxed, {})], map[], map[], map[], 0, 0, None, None, [], [])
  }

  // A thread performs a new event after learning `extra`.
  ghost function Perform(s: State, t: Thread, extra: set<Event>): State {
    var known := Know(s, t) + extra + {FreshEvent(s)};
    s.(know := s.know[t := known], past := s.past[FreshEvent(s) := known])
  }

  // -------- The member functions --------

  // `Latch::Inc`: a relaxed increment, owned by handle `h`.
  ghost function Inc(s: State, t: Thread, h: HandleId): State {
    var s' := Perform(s, t, {});
    s'.(count := s.count + 1,
        mods := s.mods + [SideEffect(true, Relaxed, Know(s', t))],
        live := s.live[h := FreshEvent(s)])
  }

  // `Latch::Dec` up to its test for zero: an acquire and release decrement.
  ghost function Dec(s: State, t: Thread, h: HandleId): State {
    var s' := Perform(s, t, Acquired(s.mods, |s.mods| - 1));
    s'.(count := s.count - 1,
        mods := s.mods + [SideEffect(true, AcquireRelease, Know(s', t))],
        live := s.live - {h},
        finishing := if s.count == 1 then Some(t) else s.finishing)
  }

  // `Latch::Init`: writes the closure, then constructs the first handle.
  ghost function Init(s: State, t: Thread, c: Closure, h: HandleId): State {
    var s' := Perform(s, t, {});
    Inc(s'.(onZero := c, onZeroWrite := FreshEvent(s), inits := s.inits + [c]), t, h)
  }

  // The rest of `Dec` after reaching zero: exchanges the closure and runs it.
  ghost function Finish(s: State, t: Thread): State {
    var s' := Perform(s, t, {});
    s'.(finishing := None, lastExchange := Some(FreshEvent(s)), runs := s.runs + [s.onZero], onZero := 0)
  }

  datatype Step =
    | Work(t: Thread)                                // anything the program does
    | Signal(e: Event, to: Thread)                   // synchronization outside the latch
    | InitLatch(t: Thread, c: Closure, h: HandleId)
    | Copy(t: Thread, h: HandleId, copy: HandleId)   // `Handle(const Handle&)`
    | Move(t: Thread, h: HandleId, to: HandleId)     // `Handle(Handle&&)`
    | Drop(t: Thread, h: HandleId)                   // `Drop`, or the destructor of a live handle
    | RunClosure(t: Thread)

  // The obligations of the callers. A handle may be used only by a thread for which its
  // increment happened before; `Init` only once the previous cycle is finished. Synchronization
  // outside the latch may acquire at any event so far, however much its thread has done since.
  ghost predicate Enabled(s: State, step: Step) {
    match step
    case Work(_) => true
    case Signal(e, _) => e in s.past
    case InitLatch(t, _, h) =>
      && s.live == map[] && s.finishing == None
      && (s.lastExchange.Some? ==> s.lastExchange.value in Know(s, t))
    case Copy(t, h, copy) => h in s.live && s.live[h] in Know(s, t) && copy !in s.live
    case Move(t, h, to) => h in s.live && s.live[h] in Know(s, t) && to !in s.live
    case Drop(t, h) => h in s.live && s.live[h] in Know(s, t)
    case RunClosure(t) => s.finishing == Some(t)
  }

  ghost function After(s: State, step: Step): State
    requires Enabled(s, step)
  {
    match step
    case Work(t) => Perform(s, t, {})
    case Signal(e, to) => s.(know := s.know[to := Know(s, to) + s.past[e]])
    case InitLatch(t, c, h) => Init(s, t, c, h)
    case Copy(t, h, copy) => Inc(s, t, copy)
    case Move(t, h, to) => s.(live := (s.live - {h})[to := s.live[h]])
    case Drop(t, h) => Dec(s, t, h)
    case RunClosure(t) => Finish(s, t)
  }

  // -------- The invariant --------

  // Knowing an event means knowing everything that happens before it.
  ghost predicate ClosedSet(s: State, known: set<Event>) {
    forall e :: e in known ==> e in s.past && s.past[e] <= known
  }

  ghost predicate Causal(s: State) {
    && (forall t :: t in s.know ==> ClosedSet(s, s.know[t]))
    && (forall e :: e in s.past ==> e < |s.past| && e in s.past[e] && ClosedSet(s, s.past[e]))
    && (forall i | 0 <= i < |s.mods| :: ClosedSet(s, s.mods[i].past))
  }

  // Every modification after the initialization is an atomic read-modify-write.
  ghost predicate Atomic(s: State) {
    |s.mods| > 0 && forall i | 0 < i < |s.mods| :: s.mods[i].readModifyWrite
  }

  // The thread that saw zero has acquired everything that a decrement released.
  ghost predicate Gathered(s: State) {
    s.finishing.Some? ==> forall i | 0 <= i < |s.mods| ::
      s.mods[i].order == AcquireRelease ==> s.mods[i].past <= Know(s, s.finishing.value)
  }

  // Every live handle's increment happens after the write of the closure.
  ghost predicate ClosureKnown(s: State) {
    forall h :: h in s.live ==> s.live[h] in s.past && s.onZeroWrite in s.past[s.live[h]]
  }

  ghost predicate Cycles(s: State) {
    && (s.finishing.Some? ==> s.live == map[] && s.onZeroWrite in Know(s, s.finishing.value))
    && (s.live != map[] || s.finishing.Some? ==> s.inits == s.runs + [s.onZero])
    && (s.live == map[] && s.finishing.None? ==> s.inits == s.runs)
  }

  ghost predicate Invariant(s: State) {
    && s.count == |s.live|
    && Causal(s)
    && Atomic(s)
    && Gathered(s)
    && ClosureKnown(s)
    && Cycles(s)
  }

  lemma InitialInvariant()
    ensures Invariant(Initial())
  {
  }

  // -------- Each step keeps the invariant --------

  lemma ClosedLater(s: State, t: Thread, extra: set<Event>, known: set<Event>)
    requires Causal(s) && ClosedSet(s, known)
    ensures ClosedSet(Perform(s, t, extra), known)
  {
    assert FreshEvent(s) !in s.past;
  }

  lemma PerformKnown(s: State, t: Thread, extra: set<Event>)
    requires Causal(s) && ClosedSet(s, extra)
    ensures ClosedSet(Perform(s, t, extra), Know(Perform(s, t, extra), t))
    ensures FreshEvent(s) in Know(Perform(s, t, extra), t)
    ensures Know(s, t) + extra <= Know(Perform(s, t, extra), t)
  {
    ClosedLater(s, t, extra, extra);
    ClosedLater(s, t, extra, Know(s, t));
  }

  lemma PerformCausal(s: State, t: Thread, extra: set<Event>)
    requires Causal(s) && ClosedSet(s, extra)
    ensures Causal(Perform(s, t, extra))
  {
    var s' := Perform(s, t, extra);
    PerformKnown(s, t, extra);
    forall u | u in s'.know ensures ClosedSet(s', s'.know[u]) {
      if u != t {
        ClosedLater(s, t, extra, s.know[u]);
      }
    }
    forall e | e in s'.past ensures e < |s'.past| && e in s'.past[e] && ClosedSet(s', s'.past[e]) {
      if e in s.past {
        ClosedLater(s, t, extra, s.past[e]);
      }
    }
    forall i | 0 <= i < |s'.mods| ensures ClosedSet(s', s'.mods[i].past) {
      ClosedLater(s, t, extra, s.mods[i].past);
    }
  }

  lemma AppendCausal(s: State, m: SideEffect)
    requires Causal(s) && ClosedSet(s, m.past)
    ensures Causal(s.(mods := s.mods + [m]))
  {
    var s' := s.(mods := s.mods + [m]);
    assert forall k: set<Event> | ClosedSet(s, k) :: ClosedSet(s', k);
  }

  lemma SameCausal(s: State, s': State)
    requires Causal(s) && s'.know == s.know && s'.past == s.past && s'.mods == s.mods
    ensures Causal(s')
  {
    assert forall k: set<Event> | ClosedSet(s, k) :: ClosedSet(s', k);
  }

  lemma AcquiredClosed(s: State, i: int)
    requires Causal(s)
    ensures ClosedSet(s, Acquired(s.mods, i))
  {
    var known := Acquired(s.mods, i);
    forall e | e in known ensures e in s.past && s.past[e] <= known {
      var head: nat :| head < |s.mods| && InReleaseSequence(s.mods, head, i) && e in s.mods[head].past;
      assert ClosedSet(s, s.mods[head].past);
    }
  }

  // Increments are relaxed and still continue every release sequence: the decrement that
  // reads the last side effect acquires from every earlier decrement.
  lemma AcquiresEveryRelease(s: State, i: nat)
    requires Atomic(s) && i < |s.mods| && s.mods[i].order == AcquireRelease
    ensures s.mods[i].past <= Acquired(s.mods, |s.mods| - 1)
  {
    assert InReleaseSequence(s.mods, i, |s.mods| - 1);
  }

  lemma IncCausal(s: State, t: Thread, h: HandleId)
    requires Causal(s)
    ensures Causal(Inc(s, t, h))
  {
    hide ClosedSet, Causal;
    var s' := Perform(s, t, {});
    EmptyClosed(s);
    PerformCausal(s, t, {});
    PerformKnown(s, t, {});
    AppendCausal(s', SideEffect(true, Relaxed, Know(s', t)));
    SameCausal(s'.(mods := Inc(s, t, h).mods), Inc(s, t, h));
  }

  lemma EmptyClosed(s: State)
    ensures ClosedSet(s, {})
  {
  }

  lemma DecCausal(s: State, t: Thread, h: HandleId)
    requires Causal(s)
    ensures Causal(Dec(s, t, h))
  {
    hide ClosedSet, Causal, Acquired;
    var extra := Acquired(s.mods, |s.mods| - 1);
    var s' := Perform(s, t, extra);
    AcquiredClosed(s, |s.mods| - 1);
    PerformCausal(s, t, extra);
    PerformKnown(s, t, extra);
    AppendCausal(s', SideEffect(true, AcquireRelease, Know(s', t)));
    SameCausal(s'.(mods := Dec(s, t, h).mods), Dec(s, t, h));
  }

  lemma PerformKeeps(s: State, t: Thread, extra: set<Event>)
    requires Invariant(s) && ClosedSet(s, extra)
    ensures Invariant(Perform(s, t, extra))
  {
    hide ClosedSet;
    PerformCausal(s, t, extra);
    FreshIsNew(s);
  }

  lemma FreshIsNew(s: State)
    requires Causal(s)
    ensures FreshEvent(s) !in s.past
  {
  }

  lemma SignalKeeps(s: State, e: Event, to: Thread)
    requires Invariant(s) && Enabled(s, Signal(e, to))
    ensures Invariant(After(s, Signal(e, to)))
  {
    hide Causal;
    SignalCausal(s, e, to);
  }

  lemma SignalCausal(s: State, e: Event, to: Thread)
    requires Causal(s) && e in s.past
    ensures Causal(After(s, Signal(e, to)))
  {
    var s' := After(s, Signal(e, to));
    ClosedUnion(s, Know(s, to), s.past[e]);
    forall u | u in s'.know ensures ClosedSet(s', s'.know[u]) {
      SamePast(s, s', s'.know[u]);
    }
    forall d | d in s'.past ensures ClosedSet(s', s'.past[d]) {
      SamePast(s, s', s.past[d]);
    }
    forall i | 0 <= i < |s'.mods| ensures ClosedSet(s', s'.mods[i].past) {
      SamePast(s, s', s.mods[i].past);
    }
  }

  lemma ClosedUnion(s: State, a: set<Event>, b: set<Event>)
    requires ClosedSet(s, a) && ClosedSet(s, b)
    ensures ClosedSet(s, a + b)
  {
  }

  lemma SamePast(s: State, s': State, known: set<Event>)
    requires s'.past == s.past && ClosedSet(s, known)
    ensures ClosedSet(s', known)
  {
  }

  lemma OneMore(m: map<HandleId, Event>, h: HandleId, e: Event)
    requires h !in m
    ensures |m[h := e]| == |m| + 1
  {
    assert m[h := e].Keys == m.Keys + {h};
  }

  lemma OneLess(m: map<HandleId, Event>, h: HandleId)
    requires h in m
    ensures |m - {h}| == |m| - 1
    ensures |m| == 1 <==> m - {h} == map[]
  {
    assert (m - {h}).Keys == m.Keys - {h};
    if |m| == 1 {
      assert |(m - {h}).Keys| == 0;
    }
  }

  lemma CopyKeeps(s: State, t: Thread, h: HandleId, copy: HandleId)
    requires Invariant(s) && Enabled(s, Copy(t, h, copy))
    ensures Invariant(After(s, Copy(t, h, copy)))
  {
    hide ClosedSet, Causal;
    IncCausal(s, t, copy);
    FreshIsNew(s);
    OneMore(s.live, copy, FreshEvent(s));
    UserKnowsClosure(s, t, h);
  }

  // A thread that may use a handle knows the write of the closure.
  lemma UserKnowsClosure(s: State, t: Thread, h: HandleId)
    requires Causal(s) && ClosureKnown(s) && h in s.live && s.live[h] in Know(s, t)
    ensures s.onZeroWrite in Know(s, t)
  {
  }

  lemma MoveKeeps(s: State, t: Thread, h: HandleId, to: HandleId)
    requires Invariant(s) && Enabled(s, Move(t, h, to))
    ensures Invariant(After(s, Move(t, h, to)))
  {
    hide ClosedSet, Causal;
    SameCausal(s, After(s, Move(t, h, to)));
    OneLess(s.live, h);
    OneMore(s.live - {h}, to, s.live[h]);
    assert to in After(s, Move(t, h, to)).live;
  }

  lemma InitKeeps(s: State, t: Thread, c: Closure, h: HandleId)
    requires Invariant(s) && Enabled(s, InitLatch(t, c, h))
    ensures Invariant(After(s, InitLatch(t, c, h)))
  {
    hide ClosedSet, Causal;
    var s1 := Perform(s, t, {});
    var s2 := s1.(onZero := c, onZeroWrite := FreshEvent(s), inits := s.inits + [c]);
    EmptyClosed(s);
    PerformCausal(s, t, {});
    SameCausal(s1, s2);
    FirstHandle(s2, t, h);
  }

  lemma FirstHandle(s: State, t: Thread, h: HandleId)
    requires Causal(s) && Atomic(s) && s.live == map[] && s.count == 0 && s.finishing == None
    requires s.onZeroWrite in Know(s, t) && s.inits == s.runs + [s.onZero]
    ensures Invariant(Inc(s, t, h))
  {
    hide ClosedSet, Causal;
    FreshIsNew(s);
    IncCausal(s, t, h);
    OneMore(s.live, h, FreshEvent(s));
    assert h in Inc(s, t, h).live;
  }

  // A drop learns everything that an earlier decrement released, and the write of the closure.
  lemma DropLearns(s: State, t: Thread, h: HandleId)
    requires Invariant(s) && Enabled(s, Drop(t, h))
    ensures forall i | 0 <= i < |s.mods| ::
      s.mods[i].order == AcquireRelease ==> s.mods[i].past <= Know(After(s, Drop(t, h)), t)
    ensures s.onZeroWrite in Know(After(s, Drop(t, h)), t)
  {
    hide ClosedSet, Causal, Acquired;
    UserKnowsClosure(s, t, h);
    forall i | 0 <= i < |s.mods| && s.mods[i].order == AcquireRelease
      ensures s.mods[i].past <= Know(After(s, Drop(t, h)), t)
    {
      AcquiresEveryRelease(s, i);
    }
  }

  // And it releases what its thread knew and the drop itself.
  lemma DropReleases(s: State, t: Thread, h: HandleId)
    requires Enabled(s, Drop(t, h))
    ensures var mods := After(s, Drop(t, h)).mods;
      && |mods| == |s.mods| + 1 && mods[..|s.mods|] == s.mods
      && mods[|s.mods|].order == AcquireRelease && Know(s, t) + {FreshEvent(s)} <= mods[|s.mods|].past
  {
    hide Acquired;
  }

  lemma DropGathers(s: State, t: Thread, h: HandleId)
    requires Invariant(s) && Enabled(s, Drop(t, h))
    ensures Gathered(Dec(s, t, h))
  {
    hide ClosedSet, Causal, Acquired, ClosureKnown, Dec, Know;
    DropLearns(s, t, h);
    DecFields(s, t, h);
  }

  lemma DecFields(s: State, t: Thread, h: HandleId)
    ensures Dec(s, t, h).mods == s.mods + [SideEffect(true, AcquireRelease, Know(Dec(s, t, h), t))]
    ensures Dec(s, t, h).finishing == if s.count == 1 then Some(t) else s.finishing
  {
    hide Acquired;
  }

  lemma DropKeeps(s: State, t: Thread, h: HandleId)
    requires Invariant(s) && Enabled(s, Drop(t, h))
    ensures Invariant(After(s, Drop(t, h)))
  {
    hide ClosedSet, Causal, Acquired, Gathered, Cycles, ClosureKnown, Dec;
    DecCausal(s, t, h);
    DropGathers(s, t, h);
    DropCounts(s, t, h);
    DropCycles(s, t, h);
  }

  lemma DropCounts(s: State, t: Thread, h: HandleId)
    requires Causal(s) && Atomic(s) && ClosureKnown(s) && s.count == |s.live| && h in s.live
    ensures Dec(s, t, h).count == |Dec(s, t, h).live| && Atomic(Dec(s, t, h)) && ClosureKnown(Dec(s, t, h))
  {
    hide ClosedSet, Causal, Acquired;
    FreshIsNew(s);
    OneLess(s.live, h);
  }

  lemma DropCycles(s: State, t: Thread, h: HandleId)
    requires Invariant(s) && Enabled(s, Drop(t, h))
    ensures Cycles(Dec(s, t, h))
  {
    hide ClosedSet, Causal, Acquired, Gathered, ClosureKnown, Atomic;
    DropLearns(s, t, h);
    OneLess(s.live, h);
  }

  lemma FinishKeeps(s: State, t: Thread)
    requires Invariant(s) && Enabled(s, RunClosure(t))
    ensures Invariant(After(s, RunClosure(t)))
  {
    hide ClosedSet, Causal;
    EmptyClosed(s);
    PerformCausal(s, t, {});
    SameCausal(Perform(s, t, {}), Finish(s, t));
  }

  lemma StepKeeps(s: State, step: Step)
    requires Invariant(s) && Enabled(s, step)
    ensures Invariant(After(s, step))
  {
    hide Invariant, Enabled, After;
    match step
    case Work(t) => WorkKeeps(s, t);
    case Signal(e, to) => SignalKeeps(s, e, to);
    case InitLatch(t, c, h) => InitKeeps(s, t, c, h);
    case Copy(t, h, copy) => CopyKeeps(s, t, h, copy);
    case Move(t, h, to) => MoveKeeps(s, t, h, to);
    case Drop(t, h) => DropKeeps(s, t, h);
    case RunClosure(t) => FinishKeeps(s, t);
  }

  lemma WorkKeeps(s: State, t: Thread)
    requires Invariant(s)
    ensures Invariant(After(s, Work(t)))
  {
    EmptyClosed(s);
    PerformKeeps(s, t, {});
  }

  // No thread forgets, and none but the one that acts learns; an increment is relaxed and learns
  // only that it happened, while synchronization outside the latch brings an event with its past.
  lemma StepLearns(s: State, step: Step, u: Thread)
    requires Causal(s) && Enabled(s, step)
    ensures Know(s, u) <= Know(After(s, step), u)
    ensures (if step.Signal? then u != step.to else u != step.t) ==> Know(After(s, step), u) == Know(s, u)
    ensures step.Copy? && u == step.t ==> Know(After(s, step), u) == Know(s, u) + {FreshEvent(s)}
    ensures step.Signal? && u == step.to ==> step.e in Know(After(s, step), u) && s.past[step.e] <= Know(After(s, step), u)
    ensures (step.Work? || step.Drop? || step.RunClosure?) && u == step.t ==>
      FreshEvent(s) !in Know(s, u) && FreshEvent(s) in Know(After(s, step), u)
  {
    hide Causal, Acquired, Know, Perform;
    FreshIsNew(s);
    FreshIsUnknown(s, u);
    match step
    case Work(t) => PerformLearns(s, t, {}, u);
    case Signal(e, to) => SignalLearns(s, e, to, u);
    case InitLatch(t, c, h) => InitLearns(s, t, c, h, u);
    case Copy(t, h, copy) =>
      SameKnow(Perform(s, t, {}), Inc(s, t, copy), u);
      PerformLearns(s, t, {}, u);
    case Move(t, h, to) => SameKnow(s, After(s, step), u);
    case Drop(t, h) =>
      var extra := Acquired(s.mods, |s.mods| - 1);
      SameKnow(Perform(s, t, extra), Dec(s, t, h), u);
      PerformLearns(s, t, extra, u);
    case RunClosure(t) =>
      SameKnow(Perform(s, t, {}), Finish(s, t), u);
      PerformLearns(s, t, {}, u);
  }

  lemma SameKnow(s: State, s': State, u: Thread)
    requires s'.know == s.know
    ensures Know(s', u) == Know(s, u)
  {
  }

  lemma PerformLearns(s: State, t: Thread, extra: set<Event>, u: Thread)
    ensures Know(Perform(s, t, extra), u) == if u == t then Know(s, t) + extra + {FreshEvent(s)} else Know(s, u)
  {
  }

  lemma SignalLearns(s: State, e: Event, to: Thread, u: Thread)
    requires Causal(s) && Enabled(s, Signal(e, to))
    ensures Know(After(s, Signal(e, to)), u) == if u == to then Know(s, to) + s.past[e] else Know(s, u)
    ensures e in s.past[e]
  {
  }

  lemma InitLearns(s: State, t: Thread, c: Closure, h: HandleId, u: Thread)
    ensures Know(s, u) <= Know(Init(s, t, c, h), u)
    ensures u != t ==> Know(Init(s, t, c, h), u) == Know(s, u)
  {
  }

  lemma FreshIsUnknown(s: State, u: Thread)
    requires Causal(s)
    ensures FreshEvent(s) !in Know(s, u)
  {
    FreshIsNew(s);
  }

  // -------- Whole runs --------

  ghost predicate Possible(steps: seq<Step>)
    decreases |steps|, 0
  {
    if |steps| == 0 then true
    else Possible(steps[..|steps| - 1]) && Enabled(Reached(steps[..|steps| - 1]), steps[|steps| - 1])
  }

  ghost function Reached(steps: seq<Step>): State
    requires Possible(steps)
    decreases |steps|, 1
  {
    if |steps| == 0 then Initial() else After(Reached(steps[..|steps| - 1]), steps[|steps| - 1])
  }

  lemma {:induction false} RunInvariant(steps: seq<Step>)
    requires Possible(steps)
    ensures Invariant(Reached(steps))
    decreases |steps|
  {
    hide Invariant, Enabled, After, Initial;
    if |steps| == 0 {
      InitialInvariant();
    } else {
      RunInvariant(steps[..|steps| - 1]);
      StepKeeps(Reached(steps[..|steps| - 1]), steps[|steps| - 1]);
    }
  }

  // The handles that were constructed and neither moved from nor dropped.
  ghost function Alive(steps: seq<Step>): set<HandleId> {
    if |steps| == 0 then {} else AliveAfter(Alive(steps[..|steps| - 1]), steps[|steps| - 1])
  }

  ghost function AliveAfter(alive: set<HandleId>, step: Step): set<HandleId> {
    match step
    case InitLatch(_, _, h) => alive + {h}
    case Copy(_, _, copy) => alive + {copy}
    case Move(_, h, to) => alive - {h} + {to}
    case Drop(_, h) => alive - {h}
    case _ => alive
  }

  lemma {:induction false} LiveAreAlive(steps: seq<Step>)
    requires Possible(steps)
    ensures Reached(steps).live.Keys == Alive(steps)
    decreases |steps|
  {
    hide Enabled, After, AliveAfter;
    if |steps| > 0 {
      LiveAreAlive(steps[..|steps| - 1]);
      LiveAfter(Reached(steps[..|steps| - 1]), steps[|steps| - 1]);
    }
  }

  lemma LiveAfter(s: State, step: Step)
    requires Enabled(s, step)
    ensures After(s, step).live.Keys == AliveAfter(s.live.Keys, step)
  {
    hide Know, Acquired;
  }

  // The `CHECK`s of the implementation never fail: `Init` finds zero, `Dec` a positive count,
  // and the count is the number of handles that are not moved-from or destroyed.
  lemma ChecksHold(steps: seq<Step>, step: Step)
    requires Possible(steps) && Enabled(Reached(steps), step)
    ensures Reached(steps).live.Keys == Alive(steps) && Reached(steps).count == |Alive(steps)|
    ensures step.InitLatch? ==> Reached(steps).count == 0
    ensures step.Drop? ==> Reached(steps).count > 0
    ensures step.Copy? ==> Reached(steps).count > 0
  {
    hide Causal, Gathered, Atomic, ClosureKnown, Cycles;
    RunInvariant(steps);
    LiveAreAlive(steps);
    var s := Reached(steps);
    if step.Drop? || step.Copy? {
      OneLess(s.live, step.h);
    }
  }

  // What happens before the drop that thread `t` performs after these steps, and the drop itself.
  ghost function KnownAtDrop(before: seq<Step>, t: Thread): set<Event>
    requires Possible(before)
  {
    Know(Reached(before), t) + {FreshEvent(Reached(before))}
  }

  // Whatever happens after a drop, what it released stays in the modification order.
  lemma {:induction false} DropStaysReleased(steps: seq<Step>, i: nat) returns (k: nat)
    requires Possible(steps) && i < |steps| && steps[i].Drop?
    ensures Possible(steps[..i]) && k < |Reached(steps).mods| && Reached(steps).mods[k].order == AcquireRelease
    ensures KnownAtDrop(steps[..i], steps[i].t) <= Reached(steps).mods[k].past
    decreases |steps|
  {
    hide Enabled, After, Know, FreshEvent;
    var last := |steps| - 1;
    var s := Reached(steps[..last]);
    if i == last {
      k := |s.mods|;
      DropReleases(s, steps[i].t, steps[i].h);
    } else {
      assert steps[..last][..i] == steps[..i] && steps[..last][i] == steps[i];
      k := DropStaysReleased(steps[..last], i);
      ModsGrow(s, steps[last]);
      assert After(s, steps[last]).mods[..|s.mods|][k] == s.mods[k];
    }
  }

  lemma ModsGrow(s: State, step: Step)
    requires Enabled(s, step)
    ensures var mods := After(s, step).mods; |s.mods| <= |mods| && mods[..|s.mods|] == s.mods
  {
    hide Know, Acquired;
  }

  lemma ZeroIsLast(s: State, t: Thread, h: HandleId)
    requires Invariant(s) && Enabled(s, Drop(t, h))
    ensures s.count == 1 <==> After(s, Drop(t, h)).live == map[]
    ensures s.count == 1 <==> After(s, Drop(t, h)).finishing == Some(t)
  {
    hide Causal, Gathered, Atomic, ClosureKnown, Acquired;
    OneLess(s.live, h);
  }

  // `Dec` returns true exactly for the last handle. Every drop knows what happened before every
  // drop that came earlier, by whichever thread and in whichever cycle, and the write of the closure.
  lemma LastDropKnowsAll(steps: seq<Step>, t: Thread, h: HandleId)
    requires Possible(steps) && Enabled(Reached(steps), Drop(t, h))
    ensures Reached(steps).count == 1 <==> After(Reached(steps), Drop(t, h)).live == map[]
    ensures Reached(steps).count == 1 <==> After(Reached(steps), Drop(t, h)).finishing == Some(t)
    ensures forall i | 0 <= i < |steps| && steps[i].Drop? ::
      && Possible(steps[..i])
      && KnownAtDrop(steps[..i], steps[i].t) <= Know(After(Reached(steps), Drop(t, h)), t)
    ensures Reached(steps).onZeroWrite in Know(After(Reached(steps), Drop(t, h)), t)
  {
    hide Invariant, Enabled, After, Know, KnownAtDrop, Reached, Possible;
    RunInvariant(steps);
    ZeroIsLast(Reached(steps), t, h);
    DropLearns(Reached(steps), t, h);
    forall i | 0 <= i < |steps| && steps[i].Drop?
      ensures Possible(steps[..i])
      ensures KnownAtDrop(steps[..i], steps[i].t) <= Know(After(Reached(steps), Drop(t, h)), t)
    {
      var k := DropStaysReleased(steps, i);
    }
  }

  // The exchange of the closure happens after the write of the same cycle and after every drop, with
  // all that happened before it, and runs the closure given to that cycle's `Init` when no handle is
  // left.
  lemma ClosureRunsLast(steps: seq<Step>, t: Thread)
    requires Possible(steps) && Enabled(Reached(steps), RunClosure(t))
    ensures Reached(steps).live == map[]
    ensures Reached(steps).onZeroWrite in Know(Reached(steps), t)
    ensures forall i | 0 <= i < |steps| && steps[i].Drop? ::
      Possible(steps[..i]) && KnownAtDrop(steps[..i], steps[i].t) <= Know(Reached(steps), t)
    ensures After(Reached(steps), RunClosure(t)).runs == Reached(steps).inits
  {
    hide Causal, Gathered, Atomic, ClosureKnown, Cycles, Reached, Possible, KnownAtDrop;
    RunInvariant(steps);
    ClosureReady(Reached(steps), t);
    forall i | 0 <= i < |steps| && steps[i].Drop?
      ensures Possible(steps[..i]) && KnownAtDrop(steps[..i], steps[i].t) <= Know(Reached(steps), t)
    {
      var k := DropStaysReleased(steps, i);
      GatheredAt(Reached(steps), t, k);
    }
  }

  lemma GatheredAt(s: State, t: Thread, k: nat)
    requires Gathered(s) && Enabled(s, RunClosure(t)) && k < |s.mods| && s.mods[k].order == AcquireRelease
    ensures s.mods[k].past <= Know(s, t)
  {
  }

  lemma ClosureReady(s: State, t: Thread)
    requires Cycles(s) && Enabled(s, RunClosure(t))
    ensures s.live == map[] && s.onZeroWrite in Know(s, t)
    ensures After(s, RunClosure(t)).runs == s.inits
  {
  }

  ghost function ZeroDrops(steps: seq<Step>): nat
    requires Possible(steps)
    decreases |steps|
  {
    if |steps| == 0 then 0 else
      var before, last := steps[..|steps| - 1], steps[|steps| - 1];
      ZeroDrops(before) + if last.Drop? && Reached(before).count == 1 then 1 else 0
  }

  ghost predicate InUse(s: State) {
    s.live != map[]
  }

  // The closures given to `Init`, in order.
  ghost function Given(steps: seq<Step>): seq<Closure> {
    if |steps| == 0 then [] else
      var last := steps[|steps| - 1];
      Given(steps[..|steps| - 1]) + if last.InitLatch? then [last.c] else []
  }

  ghost function ClosureRuns(steps: seq<Step>): nat {
    if |steps| == 0 then 0 else
      ClosureRuns(steps[..|steps| - 1]) + if steps[|steps| - 1].RunClosure? then 1 else 0
  }

  // One drop per cycle observes zero: as many as `Init` calls, less the cycle in use. The closures run
  // are those given to `Init`, in order, each once.
  lemma {:induction false} OneZeroPerCycle(steps: seq<Step>)
    requires Possible(steps)
    ensures ZeroDrops(steps) + (if InUse(Reached(steps)) then 1 else 0) == |Reached(steps).inits|
    ensures |Reached(steps).runs| + (if Reached(steps).finishing.Some? then 1 else 0) == ZeroDrops(steps)
    ensures Reached(steps).runs <= Reached(steps).inits == Given(steps)
    ensures |Reached(steps).runs| == ClosureRuns(steps)
    decreases |steps|
  {
    hide Causal, Gathered, Atomic, ClosureKnown, Enabled, After, Cycles;
    RunInvariant(steps);
    CyclesMeaning(Reached(steps));
    if |steps| > 0 {
      var before := steps[..|steps| - 1];
      OneZeroPerCycle(before);
      RunInvariant(before);
      CycleStep(Reached(before), steps[|steps| - 1]);
      StepRecords(Reached(before), steps[|steps| - 1]);
    }
  }

  lemma CyclesMeaning(s: State)
    requires Cycles(s)
    ensures |s.inits| == |s.runs| + if InUse(s) || s.finishing.Some? then 1 else 0
    ensures s.runs <= s.inits
    ensures !(InUse(s) && s.finishing.Some?)
  {
  }

  lemma StepRecords(s: State, step: Step)
    requires Enabled(s, step)
    ensures After(s, step).inits == s.inits + if step.InitLatch? then [step.c] else []
    ensures |After(s, step).runs| == |s.runs| + if step.RunClosure? then 1 else 0
  {
    hide Know, Acquired;
  }

  lemma CycleStep(s: State, step: Step)
    requires Invariant(s) && Enabled(s, step)
    ensures var s' := After(s, step);
      |s'.inits| - (if InUse(s') then 1 else 0)
      == |s.inits| - (if InUse(s) then 1 else 0) + (if step.Drop? && s.count == 1 then 1 else 0)
  {
    hide Causal, Gathered, ClosureKnown, Cycles, Acquired, Know, Dec, Inc, Init, Finish, Perform, InUse;
    match step
    case Work(t) => EventKeepsUse(s, t);
    case Signal(e, to) => SignalKeepsUse(s, e, to);
    case Drop(t, h) => DropKeepsUse(s, t, h);
    case Copy(t, h, copy) => CopyKeepsUse(s, t, h, copy);
    case Move(t, h, to) => MoveKeepsUse(s, t, h, to);
    case InitLatch(t, c, h) => InitStartsUse(s, t, c, h);
    case RunClosure(t) => EventKeepsUse(s, t);
  }

  lemma EventKeepsUse(s: State, t: Thread)
    ensures InUse(Perform(s, t, {})) == InUse(Finish(s, t)) == InUse(s)
    ensures Perform(s, t, {}).inits == Finish(s, t).inits == s.inits
  {
    hide Know;
  }

  lemma SignalKeepsUse(s: State, e: Event, to: Thread)
    requires Enabled(s, Signal(e, to))
    ensures InUse(After(s, Signal(e, to))) == InUse(s) && After(s, Signal(e, to)).inits == s.inits
  {
    hide Know;
  }

  lemma DropKeepsUse(s: State, t: Thread, h: HandleId)
    requires h in s.live && s.count == |s.live| && Atomic(s)
    ensures InUse(s) && (InUse(Dec(s, t, h)) <==> s.count != 1) && Dec(s, t, h).inits == s.inits
  {
    hide Acquired, Know;
    OneLess(s.live, h);
  }

  lemma CopyKeepsUse(s: State, t: Thread, h: HandleId, copy: HandleId)
    requires h in s.live
    ensures InUse(s) && InUse(Inc(s, t, copy)) && Inc(s, t, copy).inits == s.inits
  {
    hide Know;
    assert copy in Inc(s, t, copy).live;
  }

  lemma MoveKeepsUse(s: State, t: Thread, h: HandleId, to: HandleId)
    requires Enabled(s, Move(t, h, to))
    ensures InUse(s) && InUse(After(s, Move(t, h, to))) && After(s, Move(t, h, to)).inits == s.inits
  {
    assert to in After(s, Move(t, h, to)).live;
  }

  lemma InitStartsUse(s: State, t: Thread, c: Closure, h: HandleId)
    requires s.live == map[]
    ensures !InUse(s) && InUse(Init(s, t, c, h)) && Init(s, t, c, h).inits == s.inits + [c]
  {
    hide Know;
    assert h in Init(s, t, c, h).live;
  }
}
