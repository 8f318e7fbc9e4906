/**
 The multi-processor thread-os kernel (am-kernels/kernels/thread-os/thread-os.c): on_interrupt over a ring of
 tasks, the spin lock, and the tasks that use it, in every interleaving of any number of processors.
 */
module ThreadOs {
  import opened Common
  import opened Words

  /* ---- what runs ---- */

  // Where func stands in its loop.
  datatype Place = AtLock | AtPrint | AtUnlock | AtDelay

  predicate Inside(at: Place) { at == AtPrint || at == AtUnlock }

  /** A saved context: the processor's own start-up code (mp_entry) or a task at some place. */
  datatype Context = Boot | Of(task: nat, at: Place)

  /** tasks tasks on a ring and cpus processors. */
  datatype Config = Config(tasks: nat, cpus: nat)

  predicate ValidConfig(f: Config) { 0 < f.cpus <= f.tasks }

  /** The kernel's variables: currents, the context field of each task, and locked. */
  datatype Kernel = Kernel(currents: seq<Option<nat>>, contexts: seq<Context>, locked: bool)

  predicate ValidKernel(f: Config, s: Kernel) {
    && |s.currents| == f.cpus && |s.contexts| == f.tasks
    && forall c :: 0 <= c < f.cpus && s.currents[c].Some? ==> s.currents[c].value < f.tasks
  }

  /* ---- on_interrupt ---- */

  // The task after i among those that processor c serves, which are c, c + cpus, c + 2 * cpus and so on.
  function NextTask(f: Config, c: nat, i: nat): nat
    requires f.cpus > 0
  {
    if i % f.cpus == c && i + f.cpus < f.tasks then i + f.cpus else c
  }

  lemma SameResidue(a: nat, b: nat, n: nat)
    requires 0 < n && a < b && a % n == b % n
    ensures a + n <= b
  {
    DivModSum(a, n);
    DivModSum(b, n);
    NextMultiple(a / n, b / n, a % n, n);
  }

  lemma NextMultiple(p: nat, q: nat, m: nat, n: nat)
    requires p * n + m < q * n + m
    ensures p * n + m + n <= q * n + m
  {
    if q <= p {
      MulMonotone(q, p, n);
    } else {
      MulMonotone(p + 1, q, n);
      assert (p + 1) * n == p * n + n;
    }
  }

  lemma OnePeriodOn(a: nat, n: nat)
    requires 0 < n
    ensures (a + n) % n == a % n
  {
    var q := a / n;
    assert a + n == (q + 1) * n + a % n;
    DivModUnique(a + n, n, q + 1, a % n);
  }

  lemma Small(a: nat, n: nat)
    requires a < n
    ensures a % n == a
  {
    DivModUnique(a, n, 0, a);
  }

  function Interrupted(f: Config, s: Kernel, c: nat, ctx: Context): (s': Kernel)
    requires ValidConfig(f) && ValidKernel(f, s) && c < f.cpus
    ensures ValidKernel(f, s') && s'.currents[c].Some?
  {
    var i := if s.currents[c].Some? then s.currents[c].value else 0;
    Kernel(s.currents[c := Some(NextTask(f, c, i))],
           if s.currents[c].Some? then s.contexts[i := ctx] else s.contexts,
           s.locked)
  }

  class Scheduler {
    const f: Config
    var currents: seq<Option<nat>>
    var contexts: seq<Context>
    var locked: bool

    ghost function State(): Kernel
      reads this
    {
      Kernel(currents, contexts, locked)
    }

    /** on_interrupt.  Before its first interrupt a processor is serving nothing; otherwise it serves a task
        of its own.  The search round the ring ends because there are at least as many tasks as processors. */
    method OnInterrupt(c: nat, ctx: Context) returns (resumed: Context)
      requires ValidConfig(f) && ValidKernel(f, State()) && c < f.cpus
      requires currents[c].Some? ==> currents[c].value % f.cpus == c
      modifies this
      ensures State() == Interrupted(f, old(State()), c, ctx)
      ensures currents[c].value % f.cpus == c && resumed == contexts[currents[c].value]
    {
      hide NextTask;
      if currents[c].None? {
        currents := currents[c := Some(0)];
      } else {
        contexts := contexts[currents[c].value := ctx];
      }
      TurnOn(c);
      NextIsMine(f, c, if old(currents)[c].Some? then old(currents)[c].value else 0);
      resumed := contexts[currents[c].value];
    }

    /** Its loop: round the ring from the current task to the next one of the processor. */
    method TurnOn(c: nat)
      requires ValidConfig(f) && ValidKernel(f, State()) && c < f.cpus && currents[c].Some?
      requires currents[c].value % f.cpus == c || currents[c].value == 0
      modifies this`currents
      ensures currents == old(currents)[c := Some(NextTask(f, c, old(currents)[c].value))]
    {
      hide Searching, NextTask, Successor;
      ghost var i: nat, others := currents[c].value, currents;
      var cur: nat := Successor(f, currents[c].value);
      ghost var wrapped := i + 1 == f.tasks;
      currents := currents[c := Some(cur)];
      SearchStarts(f, c, i);
      while cur % f.cpus != c
        invariant cur < f.tasks && Searching(f, c, i, cur, wrapped) && currents == others[c := Some(cur)]
        decreases if wrapped then c - cur else 2 * f.tasks - cur
      {
        SearchGoesOn(f, c, i, cur, wrapped);
        wrapped := wrapped || cur + 1 == f.tasks;
        cur := Successor(f, cur);
        currents := currents[c := Some(cur)];
      }
      SearchEnds(f, c, i, cur, wrapped);
    }
  }

  lemma RingNext(j: nat, n: nat)
    requires 0 < j <= n
    ensures j % n == if j < n then j else 0
  {
    if j < n {
      Small(j, n);
    } else {
      DivModUnique(n, n, 1, 0);
    }
  }

  // The ring main builds: tasks[i].next.
  function Successor(f: Config, i: nat): (j: nat)
    requires i < f.tasks
    ensures j < f.tasks && j == if i + 1 < f.tasks then i + 1 else 0
  {
    RingNext(i + 1, f.tasks);
    (i + 1) % f.tasks
  }

  /** How far a search that began behind i has come without success before cur. */
  ghost predicate Searching(f: Config, c: nat, i: nat, cur: nat, wrapped: bool) {
    && ValidConfig(f) && c < f.cpus && i < f.tasks && cur < f.tasks && (i % f.cpus == c || i == 0)
    && (if wrapped then cur <= c && i % f.cpus == c && i + f.cpus >= f.tasks
        else i < cur && cur <= if i % f.cpus == c then i + f.cpus else c)
  }

  lemma SearchStarts(f: Config, c: nat, i: nat)
    requires ValidConfig(f) && c < f.cpus && i < f.tasks && (i % f.cpus == c || i == 0)
    ensures Searching(f, c, i, Successor(f, i), i + 1 == f.tasks) && c % f.cpus == c
  {
    Small(c, f.cpus);
  }

  lemma SearchGoesOn(f: Config, c: nat, i: nat, cur: nat, wrapped: bool)
    requires Searching(f, c, i, cur, wrapped) && cur % f.cpus != c
    ensures cur < f.tasks && Searching(f, c, i, Successor(f, cur), wrapped || cur + 1 == f.tasks)
    ensures if wrapped then cur < c && cur + 1 < f.tasks
            else cur + 1 == f.tasks ==> c - Successor(f, cur) < 2 * f.tasks - cur
  {
    Small(c, f.cpus);
    if i % f.cpus == c {
      OnePeriodOn(i, f.cpus);
    }
  }

  lemma SearchEnds(f: Config, c: nat, i: nat, cur: nat, wrapped: bool)
    requires Searching(f, c, i, cur, wrapped) && cur % f.cpus == c
    ensures cur == NextTask(f, c, i)
  {
    Small(c, f.cpus);
    if cur <= c {
      Small(cur, f.cpus);
    }
    if !wrapped && i % f.cpus == c {
      SameResidue(i, cur, f.cpus);
    }
  }

  /* ---- every interleaving ---- */

  /** live is what each processor executes.  at is where each task has really come to: no processor reads it,
      it is only moved along by the processor that executes the task. */
  datatype World = World(k: Kernel, live: seq<Context>, at: seq<Place>)

  datatype Event = Interrupt(cpu: nat) | Execute(cpu: nat)

  function Start(f: Config): World {
    World(Kernel(seq(f.cpus, i => None), seq(f.tasks, i requires i >= 0 => Of(i, AtLock)), false),
          seq(f.cpus, i => Boot), seq(f.tasks, i => AtLock))
  }

  predicate ValidWorld(f: Config, w: World) {
    && ValidConfig(f) && ValidKernel(f, w.k) && |w.live| == f.cpus && |w.at| == f.tasks
    && (forall c :: 0 <= c < f.cpus && w.live[c].Of? ==> w.live[c].task < f.tasks)
    && (forall i :: 0 <= i < f.tasks && w.k.contexts[i].Of? ==> w.k.contexts[i].task < f.tasks)
  }

  /** One instruction of func: an exchange that may or may not win the lock, the print, the exchange that
      gives the lock back, or the delay.  The result is the new place and the new value of locked. */
  function Instruction(at: Place, locked: bool): (Place, bool) {
    match at
    case AtLock => (if locked then AtLock else AtPrint, true)
    case AtPrint => (AtUnlock, locked)
    case AtUnlock => (AtDelay, false)
    case AtDelay => (AtLock, locked)
  }

  function Step(f: Config, w: World, e: Event): (w': World)
    requires ValidWorld(f, w)
    ensures ValidWorld(f, w')
  {
    if e.cpu >= f.cpus then w
    else if e.Interrupt? then
      var k := Interrupted(f, w.k, e.cpu, w.live[e.cpu]);
      w.(k := k, live := w.live[e.cpu := k.contexts[k.currents[e.cpu].value]])
    else match w.live[e.cpu]
      case Boot => w
      case Of(i, at) =>
        var (at', locked) := Instruction(at, w.k.locked);
        w.(k := w.k.(locked := locked), live := w.live[e.cpu := Of(i, at')], at := w.at[i := at'])
  }

  /** What every step keeps: a processor executes the task it calls current, which is one of its own, at the
      place where that task has come to; every other task's context says where that task has come to; and
      the lock is sound. */
  ghost predicate Inv(f: Config, w: World) {
    && ValidWorld(f, w)
    && (forall c :: 0 <= c < f.cpus ==>
          if w.k.currents[c].Some? then Mine(f, c, w.k.currents[c].value) && Live(w, c, w.k.currents[c].value)
          else w.live[c].Boot?)
    && (forall i :: 0 <= i < f.tasks && w.k.currents[i % f.cpus] != Some(i) ==> w.k.contexts[i] == Of(i, w.at[i]))
    && LockSound(w.at, w.k.locked)
  }

  /** At most one task is between lock and unlock, and locked is set just when there is one. */
  ghost predicate LockSound(at: seq<Place>, locked: bool) {
    && (forall i, j :: 0 <= i < j < |at| ==> !(Inside(at[i]) && Inside(at[j])))
    && (locked <==> exists i :: 0 <= i < |at| && Inside(at[i]))
  }

  lemma LockKept(at: seq<Place>, locked: bool, i: nat)
    requires LockSound(at, locked) && i < |at|
    ensures var (place, locked') := Instruction(at[i], locked); LockSound(at[i := place], locked')
  {
    var (place, locked') := Instruction(at[i], locked);
    var at' := at[i := place];
    if Inside(place) {
      assert Inside(at'[i]);
    } else if locked && at[i] == AtLock {
      var j :| 0 <= j < |at| && Inside(at[j]);
      assert Inside(at'[j]);
    } else if locked' {
      var j :| 0 <= j < |at| && Inside(at[j]);
      assert Inside(at'[j]);
    }
  }

  predicate Mine(f: Config, c: nat, i: nat)
    requires f.cpus > 0
  {
    i < f.tasks && i % f.cpus == c
  }

  predicate Live(w: World, c: nat, i: nat)
    requires c < |w.live| && i < |w.at|
  {
    w.live[c] == Of(i, w.at[i])
  }

  lemma StartInv(f: Config)
    requires ValidConfig(f)
    ensures Inv(f, Start(f))
  {
  }

  lemma NextIsMine(f: Config, c: nat, i: nat)
    requires ValidConfig(f) && c < f.cpus
    ensures Mine(f, c, NextTask(f, c, i))
  {
    Small(c, f.cpus);
    OnePeriodOn(i, f.cpus);
  }

  lemma StepInv(f: Config, w: World, e: Event)
    requires Inv(f, w)
    ensures Inv(f, Step(f, w, e))
  {
    var w', c := Step(f, w, e), e.cpu;
    if c < f.cpus {
      if e.Interrupt? {
        NextIsMine(f, c, if w.k.currents[c].Some? then w.k.currents[c].value else 0);
      } else {
        ExecuteInv(f, w, c);
      }
    }
  }

  lemma ExecuteInv(f: Config, w: World, c: nat)
    requires Inv(f, w) && c < f.cpus
    ensures Inv(f, Step(f, w, Execute(c)))
  {
    hide LockSound;
    if w.live[c].Of? {
      LockKept(w.at, w.k.locked, w.live[c].task);
    }
  }

  function Run(f: Config, w: World, events: seq<Event>): (w': World)
    requires ValidWorld(f, w)
    ensures ValidWorld(f, w')
  {
    if events == [] then w else Step(f, Run(f, w, events[..|events| - 1]), events[|events| - 1])
  }

  lemma {:induction false} RunInv(f: Config, w: World, events: seq<Event>)
    requires Inv(f, w)
    ensures Inv(f, Run(f, w, events))
  {
    if events != [] {
      RunInv(f, w, events[..|events| - 1]);
      StepInv(f, Run(f, w, events[..|events| - 1]), events[|events| - 1]);
    }
  }

  /** From start-up on, whatever the interleaving: no two processors execute the same task, a processor
      executes a task where that task left off, and at most one task is between lock and unlock. */
  lemma AlwaysSafe(f: Config, events: seq<Event>)
    requires ValidConfig(f)
    ensures var w := Run(f, Start(f), events);
            && (forall c, d :: 0 <= c < d < f.cpus && w.live[c].Of? && w.live[d].Of? ==>
                  w.live[c].task != w.live[d].task)
            && (forall c :: 0 <= c < f.cpus && w.live[c].Of? ==> w.live[c].at == w.at[w.live[c].task])
            && (forall i, j :: 0 <= i < j < f.tasks ==> !(Inside(w.at[i]) && Inside(w.at[j])))
  {
    StartInv(f);
    RunInv(f, Start(f), events);
  }

  /** A task's context is written by nobody but the processor that serves the task, and what it writes is
      where the task has come to. */
  lemma OwnerSaves(f: Config, w: World, e: Event, i: nat)
    requires Inv(f, w) && i < f.tasks
    requires Step(f, w, e).k.contexts[i] != w.k.contexts[i]
    ensures e == Interrupt(i % f.cpus) && Step(f, w, e).k.contexts[i] == Of(i, w.at[i])
  {
  }

  // With more processors than tasks the search of the surplus ones finds nothing.
  lemma NobodyServes(f: Config, c: nat)
    requires f.cpus > 0 && c < f.cpus
    ensures (exists i :: 0 <= i < f.tasks && i % f.cpus == c) <==> c < f.tasks
  {
    Small(c, f.cpus);
    forall i: nat | i < f.tasks && f.tasks <= c ensures i % f.cpus != c {
      Small(i, f.cpus);
    }
  }

  /* ---- round robin ---- */

  // How many tasks processor c serves: c, c + cpus, ..., the last below tasks.
  function Slots(f: Config, c: nat): (m: nat)
    requires ValidConfig(f) && c < f.cpus
    ensures m > 0
  {
    (f.tasks - 1 - c) / f.cpus + 1
  }

  lemma SlotBounds(f: Config, c: nat, a: nat)
    requires ValidConfig(f) && c < f.cpus
    ensures c + a * f.cpus < f.tasks <==> a < Slots(f, c)
  {
    var n, d := f.cpus, f.tasks - 1 - c;
    var q := d / n;
    assert d == q * n + d % n;
    if a <= q {
      MulMonotone(a, q, n);
    } else {
      MulMonotone(q + 1, a, n);
      assert (q + 1) * n == q * n + n;
    }
  }

  lemma SlotsBound(f: Config, c: nat)
    requires ValidConfig(f) && c < f.cpus
    ensures Slots(f, c) <= (f.tasks + f.cpus - 1) / f.cpus
  {
    var n := f.cpus;
    var a, b := f.tasks - 1 - c, f.tasks + n - 1;
    assert a == a / n * n + a % n && b == b / n * n + b % n;
    if b / n < a / n + 1 {
      MulMonotone(b / n, a / n, n);
    }
  }

  function Turned(a: nat, k: nat, m: nat): nat { if a + k < m then a + k else a + k - m }

  lemma NextSlot(f: Config, c: nat, a: nat)
    requires ValidConfig(f) && c < f.cpus && a < Slots(f, c)
    ensures NextTask(f, c, c + a * f.cpus) == c + Turned(a, 1, Slots(f, c)) * f.cpus
  {
    DivModUnique(c + a * f.cpus, f.cpus, a, c);
    assert c + a * f.cpus + f.cpus == c + (a + 1) * f.cpus;
    SlotBounds(f, c, a + 1);
  }

  // The interrupts among the events that reach processor c.
  function Interrupts(events: seq<Event>, c: nat): nat {
    if events == [] then 0
    else Interrupts(events[..|events| - 1], c) + if events[|events| - 1] == Interrupt(c) then 1 else 0
  }

  /** Where processor c stands on the ring is decided by its own interrupts alone. */
  lemma {:induction false} AfterInterrupts(f: Config, w: World, events: seq<Event>, c: nat, a: nat)
    requires ValidWorld(f, w) && c < f.cpus && a < Slots(f, c) && w.k.currents[c] == Some(c + a * f.cpus)
    requires Interrupts(events, c) <= Slots(f, c)
    ensures Run(f, w, events).k.currents[c] == Some(c + Turned(a, Interrupts(events, c), Slots(f, c)) * f.cpus)
  {
    if events != [] {
      var before := events[..|events| - 1];
      AfterInterrupts(f, w, before, c, a);
      var k, m := Interrupts(before, c), Slots(f, c);
      NextSlot(f, c, Turned(a, k, m));
      hide NextTask, Slots, Instruction;
      CurrentMoves(f, Run(f, w, before), events[|events| - 1], c);
      if events[|events| - 1] == Interrupt(c) {
        assert Turned(Turned(a, k, m), 1, m) == Turned(a, k + 1, m);
      }
    }
  }

  // What one step does to the current task of processor c.
  lemma CurrentMoves(f: Config, w: World, e: Event, c: nat)
    requires ValidWorld(f, w) && c < f.cpus && w.k.currents[c].Some?
    ensures Step(f, w, e).k.currents[c] ==
            if e == Interrupt(c) then Some(NextTask(f, c, w.k.currents[c].value)) else w.k.currents[c]
  {
    hide NextTask, Instruction;
  }

  lemma {:induction false} KthInterrupt(events: seq<Event>, c: nat, k: nat) returns (p: nat)
    requires 0 < k <= Interrupts(events, c)
    ensures 0 < p <= |events| && events[p - 1] == Interrupt(c) && Interrupts(events[..p], c) == k
  {
    var before := events[..|events| - 1];
    if k <= Interrupts(before, c) {
      p := KthInterrupt(before, c, k);
      assert before[..p] == events[..p];
    } else {
      p := |events|;
      assert events[..p] == events;
    }
  }

  lemma SlotOf(f: Config, c: nat, i: nat) returns (a: nat)
    requires ValidConfig(f) && Mine(f, c, i) && c < f.cpus
    ensures a < Slots(f, c) && i == c + a * f.cpus
  {
    a := i / f.cpus;
    SlotBounds(f, c, a);
  }

  lemma TurnsBetween(a: nat, b: nat, m: nat) returns (k: nat)
    requires a < m && b < m
    ensures 0 < k <= m && Turned(a, k, m) == b
  {
    k := if a < b then b - a else b + m - a;
  }

  /** Seen from the ring alone: from any task of its own, processor c comes round to any other. */
  lemma CurrentComesRound(f: Config, w: World, events: seq<Event>, c: nat, j: nat, i: nat) returns (p: nat)
    requires ValidWorld(f, w) && c < f.cpus && Mine(f, c, i) && Mine(f, c, j)
    requires w.k.currents[c] == Some(j) && Interrupts(events, c) >= Slots(f, c)
    ensures 0 < p <= |events| && events[p - 1] == Interrupt(c)
    ensures Run(f, w, events[..p]).k.currents[c] == Some(i)
  {
    hide Slots, Interrupts, Run, Turned;
    var b := SlotOf(f, c, i);
    var a := SlotOf(f, c, j);
    var k := TurnsBetween(a, b, Slots(f, c));
    p := KthInterrupt(events, c, k);
    AfterInterrupts(f, w, events[..p], c, a);
  }

  lemma CurrentIsLive(f: Config, w: World, c: nat)
    requires Inv(f, w) && c < f.cpus
    ensures ValidWorld(f, w)
    ensures w.k.currents[c].Some? ==> Mine(f, c, w.k.currents[c].value) && Live(w, c, w.k.currents[c].value)
  {
  }

  /** Once a processor has had its first interrupt, every ceil(tasks / cpus) further ones make it resume each
      of its tasks. */
  lemma RoundRobin(f: Config, w: World, events: seq<Event>, c: nat, i: nat) returns (p: nat)
    requires ValidWorld(f, w) && Inv(f, w) && c < f.cpus && Mine(f, c, i) && w.k.currents[c].Some?
    requires Interrupts(events, c) >= (f.tasks + f.cpus - 1) / f.cpus
    ensures 0 < p <= |events| && events[p - 1] == Interrupt(c)
    ensures Run(f, w, events[..p]).live[c] == Of(i, Run(f, w, events[..p]).at[i])
  {
    hide Inv, Interrupts, Run;
    CurrentIsLive(f, w, c);
    SlotsBound(f, c);
    p := CurrentComesRound(f, w, events, c, w.k.currents[c].value, i);
    RunInv(f, w, events[..p]);
    CurrentIsLive(f, Run(f, w, events[..p]), c);
  }
}
