/**
 on_interrupt (am-kernels/kernels/thread-os/thread-os.c:45-53) taken apart: one read or one write of shared memory at
 a time, so that the handlers of several processors run in each other's midst.  Every such run is a run of ThreadOs,
 where a handler is one step.
 */
module ThreadHandlers {
  import opened Common
  import opened ThreadOs

  /** Where a processor stands in the handler: `from` is the index of the task it served, or 0 if there was none, and
      `wrapped` says whether its search has passed the end of the ring. */
  datatype Phase =
    | Outside                                     // executing a task, or the start-up code
    | Entered                                     // about to read current
    | First                                       // current was NULL: about to write &tasks[0] to it
    | Saving(from: nat)                           // about to write current->context
    | Turning(from: nat, wrapped: bool)           // about to read current->next
    | Moving(from: nat, wrapped: bool, to: nat)   // about to write what it read to current
    | Testing(from: nat, wrapped: bool)           // about to read current for the condition of the loop
    | Loading(from: nat)                          // about to read current->context

  /** The world as it is in the middle of handlers, and where each processor stands. */
  datatype Machine = Machine(w: World, phase: seq<Phase>)

  // A processor is interrupted, or goes on.
  datatype Tick = Trap(cpu: nat) | Go(cpu: nat)

  function Boot(f: Config): Machine { Machine(Start(f), seq(f.cpus, c => Outside)) }

  predicate ValidMachine(f: Config, m: Machine) {
    && ValidWorld(f, m.w) && |m.phase| == f.cpus
    && forall c :: 0 <= c < f.cpus ==> match m.phase[c] {
         case Moving(_, _, to) => m.w.k.currents[c].Some? && to < f.tasks
         case Saving(_) => m.w.k.currents[c].Some?
         case Turning(_, _) => m.w.k.currents[c].Some?
         case Testing(_, _) => m.w.k.currents[c].Some?
         case Loading(_) => m.w.k.currents[c].Some?
         case _ => true
       }
  }

  function SetCurrent(w: World, c: nat, i: nat): World
    requires c < |w.k.currents|
  {
    w.(k := w.k.(currents := w.k.currents[c := Some(i)]))
  }

  /** What processor c does next.  In the handler no interrupt reaches it. */
  function Tock(f: Config, m: Machine, c: nat): (m': Machine)
    requires ValidMachine(f, m) && c < f.cpus
    ensures ValidMachine(f, m')
  {
    var cur := m.w.k.currents[c];
    match m.phase[c]
    case Outside => m.(w := Step(f, m.w, Execute(c)))
    case Entered => m.(phase := m.phase[c := if cur.None? then First else Saving(cur.value)])
    case First => Machine(SetCurrent(m.w, c, 0), m.phase[c := Turning(0, false)])
    case Saving(i) =>
      Machine(m.w.(k := m.w.k.(contexts := m.w.k.contexts[cur.value := m.w.live[c]])), m.phase[c := Turning(i, false)])
    case Turning(i, wrapped) =>
      m.(phase := m.phase[c := Moving(i, wrapped || cur.value + 1 == f.tasks, Successor(f, cur.value))])
    case Moving(i, wrapped, to) => Machine(SetCurrent(m.w, c, to), m.phase[c := Testing(i, wrapped)])
    case Testing(i, wrapped) =>
      m.(phase := m.phase[c := if cur.value % f.cpus == c then Loading(i) else Turning(i, wrapped)])
    case Loading(i) =>
      Machine(m.w.(live := m.w.live[c := m.w.k.contexts[cur.value]]), m.phase[c := Outside])
  }

  function Happens(f: Config, m: Machine, t: Tick): (m': Machine)
    requires ValidMachine(f, m)
    ensures ValidMachine(f, m')
  {
    if t.cpu >= f.cpus then m
    else if t.Go? then Tock(f, m, t.cpu)
    else if m.phase[t.cpu].Outside? then m.(phase := m.phase[t.cpu := Entered])
    else m
  }

  /* ---- the same with every handler finished ---- */

  // The task that processor c, in its handler, goes on from.
  function From(p: Phase, cur: Option<nat>): nat {
    match p
    case Outside => 0
    case Entered => if cur.Some? then cur.value else 0
    case First => 0
    case Saving(i) => i
    case Turning(i, _) => i
    case Moving(i, _, _) => i
    case Testing(i, _) => i
    case Loading(i) => i
  }

  // The handler has still to save the context of the task it goes on from.
  predicate Unsaved(p: Phase, cur: Option<nat>) { p.Saving? || (p.Entered? && cur.Some?) }

  function CurrentOf(f: Config, m: Machine, c: nat): Option<nat>
    requires ValidMachine(f, m) && c < f.cpus
  {
    if m.phase[c].Outside? then m.w.k.currents[c] else Some(NextTask(f, c, From(m.phase[c], m.w.k.currents[c])))
  }

  function ContextOf(f: Config, m: Machine, i: nat): Context
    requires ValidMachine(f, m) && i < f.tasks
  {
    var c := i % f.cpus;
    var p, cur := m.phase[c], m.w.k.currents[c];
    if Unsaved(p, cur) && From(p, cur) == i then m.w.live[c] else m.w.k.contexts[i]
  }

  function LiveOf(f: Config, m: Machine, c: nat): Context
    requires ValidMachine(f, m) && c < f.cpus
  {
    if m.phase[c].Outside? then m.w.live[c]
    else
      NextIsMine(f, c, From(m.phase[c], m.w.k.currents[c]));
      ContextOf(f, m, NextTask(f, c, From(m.phase[c], m.w.k.currents[c])))
  }

  /** The world once every handler under way has run to its end. */
  function Finished(f: Config, m: Machine): World
    requires ValidMachine(f, m)
  {
    World(Kernel(seq(f.cpus, c requires 0 <= c < f.cpus => CurrentOf(f, m, c)),
                 seq(f.tasks, i requires 0 <= i < f.tasks => ContextOf(f, m, i)), m.w.k.locked),
          seq(f.cpus, c requires 0 <= c < f.cpus => LiveOf(f, m, c)), m.w.at)
  }

  /** What a processor's current task is while it is in the handler. */
  ghost predicate Placed(f: Config, c: nat, p: Phase, cur: Option<nat>)
    requires f.cpus > 0
  {
    match p
    case Outside => cur.Some? ==> cur.value % f.cpus == c
    case Entered => cur.Some? ==> cur.value % f.cpus == c
    case First => cur.None?
    case Saving(i) => cur == Some(i) && i % f.cpus == c
    case Turning(i, wrapped) =>
      cur.Some? && (i % f.cpus == c || i == 0) &&
      (if cur.value == i && !wrapped then true else Searching(f, c, i, cur.value, wrapped) && cur.value % f.cpus != c)
    case Moving(i, wrapped, to) => cur.Some? && Searching(f, c, i, to, wrapped)
    case Testing(i, wrapped) => cur.Some? && Searching(f, c, i, cur.value, wrapped)
    case Loading(i) => cur == Some(NextTask(f, c, i))
  }

  ghost predicate AllPlaced(f: Config, m: Machine)
    requires ValidMachine(f, m) && f.cpus > 0
  {
    forall c :: 0 <= c < f.cpus ==> Placed(f, c, m.phase[c], m.w.k.currents[c])
  }

  // The step of ThreadOs that a tick amounts to, if any.
  function Amounts(f: Config, m: Machine, t: Tick): Option<Event>
    requires ValidMachine(f, m)
  {
    if t.cpu >= f.cpus || !m.phase[t.cpu].Outside? then None
    else if t.Trap? then Some(Interrupt(t.cpu))
    else Some(Execute(t.cpu))
  }

  lemma PlacedKept(f: Config, m: Machine, t: Tick)
    requires ValidMachine(f, m) && AllPlaced(f, m)
    ensures AllPlaced(f, Happens(f, m, t))
  {
    if t.cpu < f.cpus {
      var c, p, cur := t.cpu, m.phase[t.cpu], m.w.k.currents[t.cpu];
      hide Searching, Successor, NextTask;
      if t.Go? {
        match p {
          case Turning(i, wrapped) =>
            if cur.value == i && !wrapped {
              SearchStarts(f, c, i);
            } else {
              SearchGoesOn(f, c, i, cur.value, wrapped);
            }
          case Testing(i, wrapped) =>
            if cur.value % f.cpus == c {
              SearchEnds(f, c, i, cur.value, wrapped);
            }
            SearchedFrom(f, c, i, cur.value, wrapped);
          case Loading(i) => NextIsMine(f, c, i);
          case _ =>
        }
      }
    }
  }

  lemma SearchedFrom(f: Config, c: nat, i: nat, cur: nat, wrapped: bool)
    requires Searching(f, c, i, cur, wrapped)
    ensures (i % f.cpus == c || i == 0) && !(cur == i && !wrapped)
  {
  }

  /* ---- every run of the parts is a run of the whole ---- */

  lemma SameWorld(f: Config, m: Machine, w: World)
    requires ValidMachine(f, m) && ValidWorld(f, w)
    requires forall c :: 0 <= c < f.cpus ==> CurrentOf(f, m, c) == w.k.currents[c] && LiveOf(f, m, c) == w.live[c]
    requires forall i :: 0 <= i < f.tasks ==> ContextOf(f, m, i) == w.k.contexts[i]
    requires m.w.at == w.at && m.w.k.locked == w.k.locked
    ensures Finished(f, m) == w
  {
    hide CurrentOf, LiveOf, ContextOf;
    var x := Finished(f, m);
    assert x.k.currents == w.k.currents;
    assert x.k.contexts == w.k.contexts;
    assert x.live == w.live;
  }

  lemma FinishedIsValid(f: Config, m: Machine)
    requires ValidMachine(f, m)
    ensures ValidWorld(f, Finished(f, m))
  {
    var x := Finished(f, m);
    forall c | 0 <= c < f.cpus && x.k.currents[c].Some? ensures x.k.currents[c].value < f.tasks {
      NextIsMine(f, c, From(m.phase[c], m.w.k.currents[c]));
    }
    assert forall i :: 0 <= i < f.tasks ==> x.k.contexts[i] == ContextOf(f, m, i);
    assert forall c :: 0 <= c < f.cpus ==> x.live[c] == LiveOf(f, m, c);
  }

  // A step inside the handler, seen from where the handler came from.
  lemma FromStays(f: Config, m: Machine, c: nat)
    requires ValidMachine(f, m) && AllPlaced(f, m) && c < f.cpus && !m.phase[c].Outside?
    ensures var m' := Tock(f, m, c);
            && m'.w.at == m.w.at && m'.w.k.locked == m.w.k.locked
            && (m'.phase[c].Outside? ==> m.phase[c].Loading?)
            && (!m'.phase[c].Outside? ==> From(m'.phase[c], m'.w.k.currents[c]) == From(m.phase[c], m.w.k.currents[c]))
  {
    hide Searching, Successor, NextTask;
    assert Placed(f, c, m.phase[c], m.w.k.currents[c]);
  }

  lemma ContextStays(f: Config, m: Machine, c: nat, i: nat)
    requires ValidMachine(f, m) && AllPlaced(f, m) && c < f.cpus && !m.phase[c].Outside? && i < f.tasks
    ensures ContextOf(f, Tock(f, m, c), i) == ContextOf(f, m, i)
  {
    hide Searching, Successor, NextTask;
    assert Placed(f, c, m.phase[c], m.w.k.currents[c]);
    var d := i % f.cpus;
    if d != c && m.phase[c].Saving? {
      assert i != m.phase[c].from;
    }
  }

  lemma CurrentStays(f: Config, m: Machine, c: nat, d: nat)
    requires ValidMachine(f, m) && AllPlaced(f, m) && c < f.cpus && !m.phase[c].Outside? && d < f.cpus
    ensures CurrentOf(f, Tock(f, m, c), d) == CurrentOf(f, m, d)
  {
    assert Placed(f, c, m.phase[c], m.w.k.currents[c]);
    FromStays(f, m, c);
    hide Searching, Successor, NextTask, From;
    if m.phase[c].Loading? {
      assert From(m.phase[c], m.w.k.currents[c]) == m.phase[c].from;
    }
  }

  lemma LiveStays(f: Config, m: Machine, c: nat, d: nat)
    requires ValidMachine(f, m) && AllPlaced(f, m) && c < f.cpus && !m.phase[c].Outside? && d < f.cpus
    ensures LiveOf(f, Tock(f, m, c), d) == LiveOf(f, m, d)
  {
    assert Placed(f, c, m.phase[c], m.w.k.currents[c]);
    FromStays(f, m, c);
    var from := From(m.phase[d], m.w.k.currents[d]);
    NextIsMine(f, d, from);
    ContextStays(f, m, c, NextTask(f, d, from));
    if m.phase[c].Loading? {
      assert ContextOf(f, m, NextTask(f, d, from)) == m.w.k.contexts[NextTask(f, d, from)] || d != c;
    }
    hide Searching, Successor, NextTask, From, ContextOf;
  }

  /** A step inside the handler is no step at all. */
  lemma HandlerStutters(f: Config, m: Machine, c: nat)
    requires ValidMachine(f, m) && AllPlaced(f, m) && c < f.cpus && !m.phase[c].Outside?
    ensures Finished(f, Tock(f, m, c)) == Finished(f, m)
  {
    var m' := Tock(f, m, c);
    FinishedIsValid(f, m);
    FromStays(f, m, c);
    hide CurrentOf, LiveOf, ContextOf, Tock, AllPlaced;
    forall i | 0 <= i < f.tasks ensures ContextOf(f, m', i) == ContextOf(f, m, i) {
      ContextStays(f, m, c, i);
    }
    forall d | 0 <= d < f.cpus ensures CurrentOf(f, m', d) == CurrentOf(f, m, d) {
      CurrentStays(f, m, c, d);
    }
    forall d | 0 <= d < f.cpus ensures LiveOf(f, m', d) == LiveOf(f, m, d) {
      LiveStays(f, m, c, d);
    }
    SameWorld(f, m', Finished(f, m));
  }

  /** Entering the handler is the whole interrupt. */
  lemma TrapInterrupts(f: Config, m: Machine, c: nat)
    requires ValidMachine(f, m) && AllPlaced(f, m) && c < f.cpus && m.phase[c].Outside?
    ensures ValidWorld(f, Finished(f, m))
    ensures Finished(f, Happens(f, m, Trap(c))) == Step(f, Finished(f, m), Interrupt(c))
  {
    var m' := Happens(f, m, Trap(c));
    FinishedIsValid(f, m);
    var x := Finished(f, m);
    var y := Step(f, x, Interrupt(c));
    hide NextTask;
    assert Placed(f, c, m.phase[c], m.w.k.currents[c]);
    assert x.k.currents[c] == m.w.k.currents[c] && x.live[c] == m.w.live[c];
    forall i | 0 <= i < f.tasks ensures ContextOf(f, m', i) == y.k.contexts[i] {
      assert x.k.contexts[i] == ContextOf(f, m, i);
    }
    forall d | 0 <= d < f.cpus ensures CurrentOf(f, m', d) == y.k.currents[d] {
      assert x.k.currents[d] == CurrentOf(f, m, d);
    }
    forall d | 0 <= d < f.cpus ensures LiveOf(f, m', d) == y.live[d] {
      NextIsMine(f, d, From(m'.phase[d], m'.w.k.currents[d]));
      assert x.live[d] == LiveOf(f, m, d);
    }
    SameWorld(f, m', y);
  }

  /** An instruction of a task is the same instruction. */
  lemma OutsideExecutes(f: Config, m: Machine, c: nat)
    requires ValidMachine(f, m) && AllPlaced(f, m) && c < f.cpus && m.phase[c].Outside?
    ensures ValidWorld(f, Finished(f, m))
    ensures Finished(f, Tock(f, m, c)) == Step(f, Finished(f, m), Execute(c))
  {
    var m' := Tock(f, m, c);
    FinishedIsValid(f, m);
    var x := Finished(f, m);
    var y := Step(f, x, Execute(c));
    hide NextTask, Instruction;
    assert x.live[c] == m.w.live[c];
    forall i | 0 <= i < f.tasks ensures ContextOf(f, m', i) == y.k.contexts[i] {
      assert x.k.contexts[i] == ContextOf(f, m, i);
    }
    forall d | 0 <= d < f.cpus ensures CurrentOf(f, m', d) == y.k.currents[d] {
      assert x.k.currents[d] == CurrentOf(f, m, d);
    }
    forall d | 0 <= d < f.cpus ensures LiveOf(f, m', d) == y.live[d] {
      NextIsMine(f, d, From(m.phase[d], m.w.k.currents[d]));
      assert x.live[d] == LiveOf(f, m, d);
    }
    SameWorld(f, m', y);
  }

  function Runs(f: Config, ticks: seq<Tick>): (m: Machine)
    requires ValidConfig(f)
    ensures ValidMachine(f, m)
  {
    if ticks == [] then Boot(f) else Happens(f, Runs(f, ticks[..|ticks| - 1]), ticks[|ticks| - 1])
  }

  /** The run of ThreadOs behind a run of the parts. */
  function Whole(f: Config, ticks: seq<Tick>): seq<Event>
    requires ValidConfig(f)
  {
    if ticks == [] then []
    else
      var before := ticks[..|ticks| - 1];
      var e := Amounts(f, Runs(f, before), ticks[|ticks| - 1]);
      Whole(f, before) + if e.Some? then [e.value] else []
  }

  lemma BootIsStart(f: Config)
    requires ValidConfig(f)
    ensures AllPlaced(f, Boot(f)) && Finished(f, Boot(f)) == Start(f)
  {
    SameWorld(f, Boot(f), Start(f));
  }

  /** However reads and writes of several handlers fall between one another, the outcome is that of handlers that ran
      one at a time, each at the moment it was entered. */
  lemma {:induction false} Atomic(f: Config, ticks: seq<Tick>)
    requires ValidConfig(f)
    ensures AllPlaced(f, Runs(f, ticks)) && Finished(f, Runs(f, ticks)) == Run(f, Start(f), Whole(f, ticks))
  {
    if ticks == [] {
      BootIsStart(f);
    } else {
      var before, t := ticks[..|ticks| - 1], ticks[|ticks| - 1];
      var m := Runs(f, before);
      Atomic(f, before);
      PlacedKept(f, m, t);
      var e := Amounts(f, m, t);
      if e.None? {
        if t.cpu < f.cpus && t.Go? {
          HandlerStutters(f, m, t.cpu);
        }
        assert Whole(f, ticks) == Whole(f, before);
      } else {
        if t.Go? {
          OutsideExecutes(f, m, t.cpu);
        } else {
          TrapInterrupts(f, m, t.cpu);
        }
        var events := Whole(f, ticks);
        assert events[..|events| - 1] == Whole(f, before) && events[|events| - 1] == e.value;
      }
    }
  }

  // Processor c is executing a task.
  predicate Executes(m: Machine, c: nat)
    requires c < |m.phase| && c < |m.w.live|
  {
    m.phase[c].Outside? && m.w.live[c].Of?
  }

  /** So the handlers need no lock of their own: in every interleaving of their reads and writes, no two processors
      that are executing tasks execute the same one, each executes its task where that task left off, and at most one
      task is between lock and unlock. */
  lemma AlwaysSafeApart(f: Config, ticks: seq<Tick>)
    requires ValidConfig(f)
    ensures var m := Runs(f, ticks); var w := m.w;
            && (forall c, d :: 0 <= c < d < f.cpus && Executes(m, c) && Executes(m, d) ==>
                  w.live[c].task != w.live[d].task)
            && (forall c :: 0 <= c < f.cpus && Executes(m, c) ==> w.live[c].at == w.at[w.live[c].task])
            && (forall i, j :: 0 <= i < j < f.tasks ==> !(Inside(w.at[i]) && Inside(w.at[j])))
  {
    var m := Runs(f, ticks);
    Atomic(f, ticks);
    AlwaysSafe(f, Whole(f, ticks));
    assert forall c :: 0 <= c < f.cpus && m.phase[c].Outside? ==> Finished(f, m).live[c] == m.w.live[c];
  }

  /* ---- every handler ends ---- */

  // How far the search at task cur may still have to go.
  function Ahead(f: Config, c: nat, cur: nat, wrapped: bool): int {
    if wrapped then c - cur else 2 * f.tasks - cur
  }

  /** Steps that processor c may still take in the handler. */
  function Left(f: Config, c: nat, p: Phase, cur: Option<nat>): int
    requires p.Turning? || p.Testing? ==> cur.Some?
  {
    match p
    case Outside => 0
    case Entered => 6 * f.tasks + 5
    case First => 6 * f.tasks + 4
    case Saving(_) => 6 * f.tasks + 4
    case Turning(_, wrapped) => 3 * Ahead(f, c, cur.value, wrapped) + 1
    case Moving(_, wrapped, to) => 3 * Ahead(f, c, to, wrapped) + 3
    case Testing(_, wrapped) => 3 * Ahead(f, c, cur.value, wrapped) + 2
    case Loading(_) => 1
  }

  lemma AheadBounds(f: Config, c: nat, i: nat, cur: nat, wrapped: bool)
    requires Searching(f, c, i, cur, wrapped)
    ensures 0 <= Ahead(f, c, cur, wrapped) <= 2 * f.tasks
  {
  }

  lemma LeftBounds(f: Config, c: nat, p: Phase, cur: Option<nat>)
    requires ValidConfig(f) && c < f.cpus && Placed(f, c, p, cur) && (cur.Some? ==> cur.value < f.tasks)
    ensures 0 <= Left(f, c, p, cur) <= 6 * f.tasks + 5 && (!p.Outside? ==> Left(f, c, p, cur) > 0)
  {
    match p {
      case Turning(i, wrapped) =>
        if !(cur.value == i && !wrapped) {
          AheadBounds(f, c, i, cur.value, wrapped);
        }
      case Moving(i, wrapped, to) => AheadBounds(f, c, i, to, wrapped);
      case Testing(i, wrapped) => AheadBounds(f, c, i, cur.value, wrapped);
      case _ =>
    }
  }

  lemma AheadFalls(f: Config, c: nat, i: nat, cur: nat, wrapped: bool)
    requires ValidConfig(f) && c < f.cpus && cur < f.tasks
    requires (cur == i && !wrapped) || (Searching(f, c, i, cur, wrapped) && cur % f.cpus != c)
    ensures Ahead(f, c, Successor(f, cur), wrapped || cur + 1 == f.tasks) < Ahead(f, c, cur, wrapped)
  {
    if !(cur == i && !wrapped) {
      SearchGoesOn(f, c, i, cur, wrapped);
    }
  }

  lemma LeftFalls(f: Config, m: Machine, c: nat)
    requires ValidMachine(f, m) && c < f.cpus && !m.phase[c].Outside? && Placed(f, c, m.phase[c], m.w.k.currents[c])
    ensures var m' := Tock(f, m, c);
            Left(f, c, m'.phase[c], m'.w.k.currents[c]) < Left(f, c, m.phase[c], m.w.k.currents[c])
  {
    hide Searching, Successor, NextTask, Ahead;
    match m.phase[c] {
      case First => AheadFirst(f, c, 0);
      case Saving(i) => AheadFirst(f, c, i);
      case Turning(i, wrapped) => AheadFalls(f, c, i, m.w.k.currents[c].value, wrapped);
      case Testing(i, wrapped) => AheadBounds(f, c, i, m.w.k.currents[c].value, wrapped);
      case _ =>
    }
  }

  lemma AheadFirst(f: Config, c: nat, i: nat)
    ensures Ahead(f, c, i, false) <= 2 * f.tasks
  {
  }

  /** A handler takes 6 * tasks + 5 steps at most: each step of its processor leaves fewer, and no step of another
      processor makes a difference. */
  lemma HandlerEnds(f: Config, m: Machine, t: Tick, c: nat)
    requires ValidMachine(f, m) && AllPlaced(f, m) && c < f.cpus && !m.phase[c].Outside?
    ensures var m' := Happens(f, m, t);
            var left, left' := Left(f, c, m.phase[c], m.w.k.currents[c]), Left(f, c, m'.phase[c], m'.w.k.currents[c]);
            0 < left <= 6 * f.tasks + 5 && 0 <= left' && if t == Go(c) then left' < left else left' == left
  {
    PlacedKept(f, m, t);
    var m' := Happens(f, m, t);
    assert Placed(f, c, m.phase[c], m.w.k.currents[c]) && Placed(f, c, m'.phase[c], m'.w.k.currents[c]);
    hide Left, Placed, Searching;
    LeftBounds(f, c, m.phase[c], m.w.k.currents[c]);
    LeftBounds(f, c, m'.phase[c], m'.w.k.currents[c]);
    if t == Go(c) {
      LeftFalls(f, m, c);
    }
  }
}
