/**
 Progress of the thread-os kernel (am-kernels/kernels/thread-os/thread-os.c:21-37): a free lock is taken by whoever
 executes the exchange next, a task that has it gives it back, and from wherever a run has come to every task can still
 be brought to every place of its loop.
 */
module ThreadProgress {
  import opened Common
  import opened ThreadOs
  import opened ThreadHandlers

  /* ---- one step of a task ---- */

  // Processor c is executing task i, which stands at place p.
  predicate Executing(f: Config, w: World, c: nat, i: nat, p: Place) {
    c < f.cpus && |w.live| == f.cpus && i < f.tasks && |w.at| == f.tasks && w.live[c] == Of(i, p) && w.at[i] == p
  }

  ghost predicate NobodyInside(w: World) { forall j :: 0 <= j < |w.at| ==> !Inside(w.at[j]) }

  // The world where task i, executed by processor c, has come to p, and locked is as given.
  function Moved(w: World, c: nat, i: nat, p: Place, locked: bool): World
    requires c < |w.live| && i < |w.at|
  {
    w.(k := w.k.(locked := locked), live := w.live[c := Of(i, p)], at := w.at[i := p])
  }

  /** A task that comes to the lock while no task is inside gets it: it is about to print, and locked is set. */
  lemma LockTaken(f: Config, w: World, c: nat, i: nat)
    requires Inv(f, w) && Executing(f, w, c, i, AtLock) && NobodyInside(w)
    ensures Step(f, w, Execute(c)) == Moved(w, c, i, AtPrint, true) && !w.k.locked
  {
  }

  /** While some task is inside it waits: nothing changes. */
  lemma LockRefused(f: Config, w: World, c: nat, i: nat)
    requires Inv(f, w) && Executing(f, w, c, i, AtLock) && !NobodyInside(w)
    ensures Step(f, w, Execute(c)) == w
  {
    var j :| 0 <= j < |w.at| && Inside(w.at[j]);
    assert w.k.locked;
    var w' := Step(f, w, Execute(c));
    assert w'.live == w.live && w'.at == w.at;
  }

  /** A task inside prints, and then gives the lock back. */
  lemma LockGivenBack(f: Config, w: World, c: nat, i: nat)
    requires Inv(f, w) && c < f.cpus && i < f.tasks
    ensures Executing(f, w, c, i, AtPrint) ==> Step(f, w, Execute(c)) == Moved(w, c, i, AtUnlock, true)
    ensures Executing(f, w, c, i, AtUnlock) ==>
            Step(f, w, Execute(c)) == Moved(w, c, i, AtDelay, false) && NobodyInside(Step(f, w, Execute(c)))
  {
    if Executing(f, w, c, i, AtPrint) {
      assert Inside(w.at[i]);
    }
    if Executing(f, w, c, i, AtUnlock) {
      assert Inside(w.at[i]);
    }
  }

  /** After the delay it is back at the lock. */
  lemma DelayEnds(f: Config, w: World, c: nat, i: nat)
    requires Inv(f, w) && Executing(f, w, c, i, AtDelay)
    ensures Step(f, w, Execute(c)) == Moved(w, c, i, AtLock, w.k.locked)
  {
  }

  /* ---- runs ---- */

  lemma {:induction false} RunJoined(f: Config, w: World, a: seq<Event>, b: seq<Event>)
    requires ValidWorld(f, w)
    ensures Run(f, w, a + b) == Run(f, Run(f, w, a), b)
  {
    if b == [] {
      assert a + b == a;
    } else {
      var b' := b[..|b| - 1];
      RunJoined(f, w, a, b');
      assert (a + b)[..|a + b| - 1] == a + b';
    }
  }

  lemma RunOne(f: Config, w: World, e: Event)
    requires ValidWorld(f, w)
    ensures Run(f, w, [e]) == Step(f, w, e)
  {
    assert [e][..0] == [] && Run(f, w, []) == w;
  }

  // Nothing but the interrupts of processor c.
  predicate OnlyInterrupts(events: seq<Event>, c: nat) { forall k :: 0 <= k < |events| ==> events[k] == Interrupt(c) }

  lemma {:induction false} InterruptsKeep(f: Config, w: World, events: seq<Event>, c: nat)
    requires ValidWorld(f, w) && OnlyInterrupts(events, c)
    ensures Run(f, w, events).at == w.at && Interrupts(events, c) == |events|
  {
    if events != [] {
      InterruptsKeep(f, w, events[..|events| - 1], c);
    }
  }

  lemma FirstInterrupt(f: Config, w: World, c: nat)
    requires Inv(f, w) && c < f.cpus
    ensures ValidWorld(f, w)
    ensures var u := Run(f, w, [Interrupt(c)]); Inv(f, u) && u.k.currents[c].Some? && u.at == w.at
  {
    RunOne(f, w, Interrupt(c));
    StepInv(f, w, Interrupt(c));
    hide Run, Inv;
  }

  /** Interrupts alone bring a task to its processor, and no task moves meanwhile. */
  lemma BroughtIn(f: Config, w: World, i: nat) returns (events: seq<Event>)
    requires Inv(f, w) && i < f.tasks
    ensures ValidWorld(f, w) && Inv(f, Run(f, w, events))
    ensures Executing(f, Run(f, w, events), i % f.cpus, i, w.at[i]) && Run(f, w, events).at == w.at
  {
    var c, n := i % f.cpus, (f.tasks + f.cpus - 1) / f.cpus;
    var first, rest := [Interrupt(c)], seq(n, k => Interrupt(c));
    hide Inv, Run, Interrupts, Step, OnlyInterrupts;
    FirstInterrupt(f, w, c);
    var u := Run(f, w, first);
    AllInterrupts(rest, c);
    InterruptsKeep(f, u, rest, c);
    var p := RoundRobin(f, u, rest, c, i);
    InterruptsKeep(f, u, rest[..p], c);
    events := first + rest[..p];
    RunJoined(f, w, first, rest[..p]);
    RunInv(f, w, events);
  }

  lemma AllInterrupts(events: seq<Event>, c: nat)
    requires forall k :: 0 <= k < |events| ==> events[k] == Interrupt(c)
    ensures forall p :: 0 <= p <= |events| ==> OnlyInterrupts(events[..p], c)
    ensures OnlyInterrupts(events, c)
  {
  }

  // The loop of func.
  function Onward(p: Place): Place {
    match p
    case AtLock => AtPrint
    case AtPrint => AtUnlock
    case AtUnlock => AtDelay
    case AtDelay => AtLock
  }

  // Task i does not wait for another one.
  ghost predicate Unhindered(w: World, i: nat) { forall j :: 0 <= j < |w.at| && j != i ==> !Inside(w.at[j]) }

  /** While no other task is inside, every instruction of a task takes it one place on. */
  lemma GoesOn(f: Config, w: World, c: nat, i: nat, p: Place)
    requires Inv(f, w) && Executing(f, w, c, i, p) && Unhindered(w, i)
    ensures var w' := Step(f, w, Execute(c));
            Inv(f, w') && Executing(f, w', c, i, Onward(p)) && w'.at == w.at[i := Onward(p)] && Unhindered(w', i)
  {
    StepInv(f, w, Execute(c));
    match p {
      case AtLock => LockTaken(f, w, c, i);
      case AtPrint => LockGivenBack(f, w, c, i);
      case AtUnlock => LockGivenBack(f, w, c, i);
      case AtDelay => DelayEnds(f, w, c, i);
    }
  }

  // n instructions on processor c
  function Executes(c: nat, n: nat): (events: seq<Event>)
    ensures |events| == n
  {
    seq(n, k => Execute(c))
  }

  function OnwardBy(p: Place, n: nat): Place { if n == 0 then p else Onward(OnwardBy(p, n - 1)) }

  lemma {:induction false} GoesOnBy(f: Config, w: World, c: nat, i: nat, p: Place, n: nat)
    requires Inv(f, w) && Executing(f, w, c, i, p) && Unhindered(w, i)
    ensures var w' := Run(f, w, Executes(c, n));
            Inv(f, w') && Executing(f, w', c, i, OnwardBy(p, n)) && w'.at == w.at[i := OnwardBy(p, n)]
  {
    assert ValidWorld(f, w);
    hide Inv, Step;
    if n > 0 {
      GoesOnBy(f, w, c, i, p, n - 1);
      var events := Executes(c, n);
      assert events[..n - 1] == Executes(c, n - 1) && events[n - 1] == Execute(c);
      GoesOn(f, Run(f, w, events[..n - 1]), c, i, OnwardBy(p, n - 1));
    }
  }

  lemma Distance(p: Place, q: Place) returns (n: nat)
    ensures n < 4 && OnwardBy(p, n) == q
  {
    n := if p == q then 0 else if Onward(p) == q then 1 else if Onward(Onward(p)) == q then 2 else 3;
    assert OnwardBy(p, 1) == Onward(p) && OnwardBy(p, 2) == Onward(Onward(p));
    assert OnwardBy(p, 3) == Onward(Onward(Onward(p)));
  }

  /** Whoever is inside can be brought to give the lock back. */
  lemma LockFreed(f: Config, w: World) returns (events: seq<Event>)
    requires Inv(f, w)
    ensures ValidWorld(f, w) && Inv(f, Run(f, w, events)) && NobodyInside(Run(f, w, events))
  {
    if NobodyInside(w) {
      events := [];
    } else {
      var j :| 0 <= j < |w.at| && Inside(w.at[j]);
      hide Inv, Run, OnwardBy;
      var c := j % f.cpus;
      var before := BroughtIn(f, w, j);
      var u := Run(f, w, before);
      var n := Distance(w.at[j], AtDelay);
      OnlyOneInside(f, u, j);
      GoesOnBy(f, u, c, j, w.at[j], n);
      events := before + Executes(c, n);
      RunJoined(f, w, before, Executes(c, n));
    }
  }

  lemma OnlyOneInside(f: Config, w: World, j: nat)
    requires Inv(f, w) && j < f.tasks && Inside(w.at[j])
    ensures Unhindered(w, j)
  {
  }

  lemma BroughtTo(f: Config, w: World, i: nat, p: Place) returns (events: seq<Event>)
    requires Inv(f, w) && i < f.tasks
    ensures ValidWorld(f, w) && Inv(f, Run(f, w, events)) && Unhindered(Run(f, w, events), i)
    ensures Executing(f, Run(f, w, events), i % f.cpus, i, p)
  {
    var c := i % f.cpus;
    assert ValidWorld(f, w);
    hide *;
    var freed := LockFreed(f, w);
    var u := Run(f, w, freed);
    var brought := BroughtIn(f, u, i);
    var v := Run(f, u, brought);
    var m := Distance(u.at[i], p);
    GoesOnBy(f, v, c, i, u.at[i], m);
    RunJoined(f, w, freed, brought);
    RunJoined(f, w, freed + brought, Executes(c, m));
    events := freed + brought + Executes(c, m);
  }

  /** From wherever a run has come to, every task can be brought to its processor at any place p of its loop, and from
      there as many times round the loop as one likes: n instructions of its own take it n places on. */
  lemma EveryPlaceReached(f: Config, w: World, i: nat, p: Place, n: nat) returns (events: seq<Event>)
    requires Inv(f, w) && i < f.tasks
    ensures ValidWorld(f, w) && Executing(f, Run(f, w, events), i % f.cpus, i, p)
    ensures Executing(f, Run(f, w, events + Executes(i % f.cpus, n)), i % f.cpus, i, OnwardBy(p, n))
  {
    events := BroughtTo(f, w, i, p);
    hide Inv, Step, Run, OnwardBy;
    GoesOnBy(f, Run(f, w, events), i % f.cpus, i, p, n);
    RunJoined(f, w, events, Executes(i % f.cpus, n));
  }

  /** So after any run from start-up no task has lost its turn at the lock for good. */
  lemma AlwaysProgress(f: Config, events: seq<Event>, i: nat) returns (more: seq<Event>)
    requires ValidConfig(f) && i < f.tasks
    ensures var w := Run(f, Start(f), events + more);
            w.at[i] == AtPrint && w.k.locked && w.live[i % f.cpus] == Of(i, AtPrint)
  {
    StartInv(f);
    RunInv(f, Start(f), events);
    var u := Run(f, Start(f), events);
    more := EveryPlaceReached(f, u, i, AtPrint, 0);
    RunJoined(f, Start(f), events, more);
    RunInv(f, Start(f), events + more);
    assert Inside(Run(f, Start(f), events + more).at[i]);
  }

  /* ---- with handlers taken apart ---- */

  // No processor is in its handler.
  predicate Quiet(f: Config, m: Machine) { |m.phase| == f.cpus && forall c :: 0 <= c < f.cpus ==> m.phase[c].Outside? }

  lemma QuietIsFinished(f: Config, m: Machine)
    requires ValidMachine(f, m) && Quiet(f, m)
    ensures Finished(f, m) == m.w
  {
    SameWorld(f, m, m.w);
  }

  lemma OneTick(f: Config, ticks: seq<Tick>, t: Tick)
    requires ValidConfig(f)
    ensures Runs(f, ticks + [t]) == Happens(f, Runs(f, ticks), t)
  {
    assert (ticks + [t])[..|ticks|] == ticks;
  }

  lemma HandlerGoes(f: Config, m: Machine, c: nat)
    requires ValidMachine(f, m) && AllPlaced(f, m) && c < f.cpus && !m.phase[c].Outside?
    ensures var m' := Happens(f, m, Go(c));
            && Finished(f, m') == Finished(f, m) && m'.phase == m.phase[c := m'.phase[c]]
            && 0 <= Left(f, c, m'.phase[c], m'.w.k.currents[c]) < Left(f, c, m.phase[c], m.w.k.currents[c])
  {
    HandlerEnds(f, m, Go(c), c);
    HandlerStutters(f, m, c);
    assert Happens(f, m, Go(c)) == Tock(f, m, c);
    hide Left, Finished, AllPlaced, Successor;
  }

  /** A processor that only goes on comes to the end of its handler, and nothing else changes. */
  lemma HandlerRunsOut(f: Config, ticks: seq<Tick>, c: nat) returns (more: seq<Tick>)
    requires ValidConfig(f) && c < f.cpus
    ensures var m, m' := Runs(f, ticks), Runs(f, ticks + more);
            m'.phase == m.phase[c := Outside] && Finished(f, m') == Finished(f, m)
    decreases var m := Runs(f, ticks); Left(f, c, m.phase[c], m.w.k.currents[c])
  {
    var m := Runs(f, ticks);
    hide *;
    if m.phase[c].Outside? {
      more := [];
      assert ticks + [] == ticks;
    } else {
      Atomic(f, ticks);
      OneTick(f, ticks, Go(c));
      HandlerGoes(f, m, c);
      more := HandlerRunsOut(f, ticks + [Go(c)], c);
      assert ticks + [Go(c)] + more == ticks + ([Go(c)] + more);
      more := [Go(c)] + more;
    }
  }

  lemma {:induction false} HandlersRunOut(f: Config, ticks: seq<Tick>, n: nat) returns (more: seq<Tick>)
    requires ValidConfig(f) && n <= f.cpus
    ensures var m' := Runs(f, ticks + more);
            Finished(f, m') == Finished(f, Runs(f, ticks)) && forall c :: 0 <= c < n ==> m'.phase[c].Outside?
  {
    hide Finished, Runs, Step;
    if n == 0 {
      more := [];
      assert ticks + [] == ticks;
    } else {
      var before := HandlersRunOut(f, ticks, n - 1);
      var after := HandlerRunsOut(f, ticks + before, n - 1);
      more := before + after;
      assert ticks + before + after == ticks + more;
    }
  }

  // Once every handler has run out, the machine is where its run of ThreadOs has come to.
  lemma AllRunOut(f: Config, ticks: seq<Tick>) returns (more: seq<Tick>)
    requires ValidConfig(f)
    ensures var m := Runs(f, ticks + more); Quiet(f, m) && m.w == Finished(f, Runs(f, ticks))
  {
    hide Finished, Runs;
    more := HandlersRunOut(f, ticks, f.cpus);
    QuietIsFinished(f, Runs(f, ticks + more));
  }

  lemma TrapFromQuiet(f: Config, ticks: seq<Tick>, c: nat)
    requires ValidConfig(f) && c < f.cpus && Quiet(f, Runs(f, ticks))
    ensures Finished(f, Runs(f, ticks + [Trap(c)])) == Step(f, Runs(f, ticks).w, Interrupt(c))
  {
    var m := Runs(f, ticks);
    Atomic(f, ticks);
    OneTick(f, ticks, Trap(c));
    TrapInterrupts(f, m, c);
    QuietIsFinished(f, m);
    hide *;
  }

  lemma InterruptInParts(f: Config, ticks: seq<Tick>, c: nat) returns (more: seq<Tick>)
    requires ValidConfig(f) && c < f.cpus && Quiet(f, Runs(f, ticks))
    ensures var m := Runs(f, ticks + more); Quiet(f, m) && m.w == Step(f, Runs(f, ticks).w, Interrupt(c))
  {
    hide *;
    var first := [Trap(c)];
    TrapFromQuiet(f, ticks, c);
    var rest := AllRunOut(f, ticks + first);
    more := first + rest;
    assert ticks + first + rest == ticks + more;
  }

  lemma InstructionInParts(f: Config, ticks: seq<Tick>, c: nat)
    requires ValidConfig(f) && c < f.cpus && Quiet(f, Runs(f, ticks))
    ensures var m := Runs(f, ticks + [Go(c)]); Quiet(f, m) && m.w == Step(f, Runs(f, ticks).w, Execute(c))
  {
    OneTick(f, ticks, Go(c));
    hide Runs, Step;
  }

  /** Where no handler is under way, every step of ThreadOs can be taken in parts. */
  lemma StepInParts(f: Config, ticks: seq<Tick>, e: Event) returns (more: seq<Tick>)
    requires ValidConfig(f) && Quiet(f, Runs(f, ticks))
    ensures var m := Runs(f, ticks + more); Quiet(f, m) && m.w == Step(f, Runs(f, ticks).w, e)
  {
    if e.cpu >= f.cpus {
      hide Runs;
      more := [];
      assert ticks + [] == ticks;
    } else if e.Execute? {
      hide *;
      more := [Go(e.cpu)];
      InstructionInParts(f, ticks, e.cpu);
    } else {
      hide *;
      more := InterruptInParts(f, ticks, e.cpu);
    }
  }

  lemma RunSplit(f: Config, ticks: seq<Tick>, events: seq<Event>)
    requires ValidConfig(f)
    ensures var w := Runs(f, ticks).w;
            Run(f, w, events) == if events == [] then w
                                 else Step(f, Run(f, w, events[..|events| - 1]), events[|events| - 1])
  {
    hide Step, Runs;
  }

  lemma {:induction false} RunInParts(f: Config, ticks: seq<Tick>, events: seq<Event>) returns (more: seq<Tick>)
    requires ValidConfig(f) && Quiet(f, Runs(f, ticks))
    ensures var m := Runs(f, ticks + more); Quiet(f, m) && m.w == Run(f, Runs(f, ticks).w, events)
  {
    hide *;
    RunSplit(f, ticks, events);
    if events == [] {
      more := [];
      assert ticks + [] == ticks;
    } else {
      var before := RunInParts(f, ticks, events[..|events| - 1]);
      var after := StepInParts(f, ticks + before, events[|events| - 1]);
      more := before + after;
      assert ticks + before + after == ticks + more;
    }
  }

  /** The converse of ThreadHandlers.Atomic: every run in which a handler is one step is a run of its parts. */
  lemma EveryRunInParts(f: Config, events: seq<Event>) returns (ticks: seq<Tick>)
    requires ValidConfig(f)
    ensures Quiet(f, Runs(f, ticks)) && Runs(f, ticks).w == Run(f, Start(f), events)
  {
    assert Runs(f, []) == ThreadHandlers.Boot(f);
    hide Runs, Run;
    ticks := RunInParts(f, [], events);
    assert [] + ticks == ticks;
  }

  lemma EveryPlaceAfter(f: Config, events: seq<Event>, i: nat, p: Place) returns (more: seq<Event>)
    requires ValidConfig(f) && i < f.tasks
    ensures Executing(f, Run(f, Run(f, Start(f), events), more), i % f.cpus, i, p)
  {
    StartInv(f);
    RunInv(f, Start(f), events);
    more := EveryPlaceReached(f, Run(f, Start(f), events), i, p, 0);
  }

  /** From wherever reads and writes of several handlers have come to, every task can still be brought to every place of
      its loop. */
  lemma EveryPlaceReachedApart(f: Config, ticks: seq<Tick>, i: nat, p: Place) returns (more: seq<Tick>)
    requires ValidConfig(f) && i < f.tasks
    ensures var m := Runs(f, ticks + more); Quiet(f, m) && Executing(f, m.w, i % f.cpus, i, p)
  {
    hide *;
    Atomic(f, ticks);
    var first := AllRunOut(f, ticks);
    var events := EveryPlaceAfter(f, Whole(f, ticks), i, p);
    var rest := RunInParts(f, ticks + first, events);
    more := first + rest;
    assert ticks + first + rest == ticks + more;
  }
}
