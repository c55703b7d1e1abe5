/** Supervising one child: restarts with backoff, and the component record they leave.
 *
 * A cycle is one launch of the child and the wait that follows. Whether it starts, how long it
 * runs, what is drawn for the wait and how late the timer fires are left to the environment.
 */
module Supervisor {
  import opened Backoff
  import opened Sequences
  import opened RuntimeState

  const STABLE: int := 5 * MINUTE

  datatype Cycle = Cycle(
    launched: bool,  // the process started at all
    ran: nat,        // time from the launch to its end
    draw: int,       // for the jitter of the wait
    waited: nat)     // the wait that followed

  /** The step of the loop, the child's record, every record written so far, the delays
      scheduled, and the time gone by. */
  datatype Child = Child(step: nat, record: Component, log: seq<Component>, delays: seq<int>, clock: nat)

  function NominalOf(step: nat): int {
    Nominal(RESTART_INITIAL, RESTART_MAXIMUM, step)
  }

  function DelayOf(step: nat, draw: int): int {
    Jitter(NominalOf(step), RESTART_MAXIMUM, draw)
  }

  function NextStep(step: nat, ran: nat): nat {
    if ran >= STABLE then 1 else step + 1
  }

  predicate ValidCycle(step: nat, c: Cycle) {
    && LegalDraw(NominalOf(NextStep(step, c.ran)), c.draw)
    && c.waited >= DelayOf(NextStep(step, c.ran), c.draw)
  }

  function Started(s: Child): Child {
    var up := s.record.(up := true, backoff := 0);
    s.(record := up, log := s.log + [up])
  }

  function Down(s: Child): Child {
    var down := s.record.(up := false);
    s.(record := down, log := s.log + [down])
  }

  /** The child has ended, or never started. */
  function Gone(s: Child, launched: bool): Child {
    Down(if launched then Started(s) else s)
  }

  /** A restart is scheduled. */
  function Scheduled(s: Child, ran: nat, draw: int): Child {
    var step := NextStep(s.step, ran);
    var delay := DelayOf(step, draw);
    var record := s.record.(up := false, restarts := Inc(s.record.restarts), backoff := delay);
    Child(step, record, s.log + [record], s.delays + [delay], s.clock + ran)
  }

  function AfterCycle(s: Child, c: Cycle): Child {
    var s1 := Scheduled(Gone(s, c.launched), c.ran, c.draw);
    s1.(clock := s1.clock + c.waited)
  }

  function First(record: Component): Child {
    Child(0, record, [], [], 0)
  }

  function After(record: Component, cs: seq<Cycle>): Child {
    if cs == [] then First(record) else AfterCycle(After(record, Front(cs)), Last(cs))
  }

  predicate ValidCycles(cs: seq<Cycle>) {
    cs == [] || (ValidCycles(Front(cs)) && ValidCycle(StepAfter(Front(cs)), Last(cs)))
  }

  /** The step depends on the run times alone. */
  function StepAfter(cs: seq<Cycle>): nat {
    if cs == [] then 0 else NextStep(StepAfter(Front(cs)), Last(cs).ran)
  }

  // ---------- the loop ----------

  /** Where the context ends: before a launch, while the child runs, or during the wait. */
  datatype Ending = AtTop | WhileRunning | WhileWaiting(launched: bool, ran: nat, draw: int)

  function Ended(s: Child, e: Ending): Child {
    match e
    case AtTop => s
    case WhileRunning => Gone(s, true)
    case WhileWaiting(launched, ran, draw) => Scheduled(Gone(s, launched), ran, draw)
  }

  predicate ValidEnding(step: nat, e: Ending) {
    e.WhileWaiting? ==> LegalDraw(NominalOf(NextStep(step, e.ran)), e.draw)
  }

  function RecordOf(components: map<string, Component>, name: string): Component {
    if name in components then components[name] else NO_COMPONENT
  }

  /** The table once these records have been written, the last one staying. */
  function Tabled(components: map<string, Component>, name: string, s: Child): map<string, Component> {
    if s.log == [] then components else components[name := s.record]
  }

  /** The table holds what the loop has written so far. */
  ghost predicate Shows(table: Table, start: map<string, Component>, name: string, s: Child)
    reads table
  {
    && table.Valid() && table.components == Tabled(start, name, s)
    && s.record == RecordOf(table.components, name)
  }

  method Launch(table: Table, name: string, launched: bool, ghost start: map<string, Component>, ghost s: Child)
    requires Shows(table, start, name, s)
    modifies table
    ensures Shows(table, start, name, Gone(s, launched)) && table.dohUpstreams == old(table.dohUpstreams)
  {
    if launched {
      ShowUp(table, name, start, s);
      ShowDown(table, name, start, Started(s));
    } else {
      ShowDown(table, name, start, s);
    }
  }

  /** What the table shows while the child runs. */
  method ShowUp(table: Table, name: string, ghost start: map<string, Component>, ghost s: Child)
    requires Shows(table, start, name, s)
    modifies table
    ensures Shows(table, start, name, Started(s)) && table.dohUpstreams == old(table.dohUpstreams)
    ensures var c := RecordOf(table.components, name);
            c.up && c.backoff == 0 && c.restarts == s.record.restarts && c.enabled == s.record.enabled
  {
    table.Update(name, (c: Component) => c.(up := true, backoff := 0));
  }

  /** What it shows once the child is gone. */
  method ShowDown(table: Table, name: string, ghost start: map<string, Component>, ghost s: Child)
    requires Shows(table, start, name, s)
    modifies table
    ensures Shows(table, start, name, Down(s)) && table.dohUpstreams == old(table.dohUpstreams)
    ensures RecordOf(table.components, name) == s.record.(up := false)
  {
    table.Update(name, (c: Component) => c.(up := false));
  }

  method Schedule(
    table: Table, name: string, step: nat, ran: nat, draw: int, ghost start: map<string, Component>, ghost s: Child)
    returns (step': nat, delay: int)
    requires Shows(table, start, name, s) && s.step == step
    requires LegalDraw(NominalOf(NextStep(step, ran)), draw)
    modifies table
    ensures Shows(table, start, name, Scheduled(s, ran, draw)) && table.dohUpstreams == old(table.dohUpstreams)
    ensures step' == Scheduled(s, ran, draw).step && s.delays + [delay] == Scheduled(s, ran, draw).delays
  {
    step' := step;
    if ran >= STABLE {
      step' := 0;
    }
    step' := step' + 1;
    delay := RestartDelay(step', draw);
    var shown := delay;
    table.Update(name, (c: Component) => c.(up := false, restarts := Inc(c.restarts), backoff := shown));
  }

  /** One round of the supervision loop, up to its wait. */
  method RunCycle(
    table: Table, name: string, step: nat, launched: bool, ran: nat, draw: int,
    ghost start: map<string, Component>, ghost s: Child)
    returns (step': nat, delay: int)
    requires Shows(table, start, name, s) && s.step == step
    requires LegalDraw(NominalOf(NextStep(step, ran)), draw)
    modifies table
    ensures var s1 := Scheduled(Gone(s, launched), ran, draw);
            && Shows(table, start, name, s1) && table.dohUpstreams == old(table.dohUpstreams)
            && step' == s1.step && s.delays + [delay] == s1.delays
  {
    Launch(table, name, launched, start, s);
    step', delay := Schedule(table, name, step, ran, draw, start, Gone(s, launched));
  }

  /** The supervision loop over any cycles and any ending. */
  method SuperviseChild(table: Table, name: string, cycles: seq<Cycle>, ending: Ending)
    returns (delays: seq<int>)
    requires table.Valid() && ValidCycles(cycles) && ValidEnding(StepAfter(cycles), ending)
    modifies table
    ensures table.Valid() && table.dohUpstreams == old(table.dohUpstreams)
    ensures var s := Ended(After(RecordOf(old(table.components), name), cycles), ending);
            delays == s.delays && table.components == Tabled(old(table.components), name, s)
  {
    ghost var start := table.components;
    ghost var first := RecordOf(start, name);
    ghost var s := First(first);
    var step, delay := 0, 0;
    delays := [];
    var i := 0;
    while i < |cycles|
      invariant 0 <= i <= |cycles|
      invariant s == After(first, cycles[..i]) && s.step == step && s.delays == delays
      invariant Shows(table, start, name, s) && table.dohUpstreams == old(table.dohUpstreams)
    {
      var c := cycles[i];
      CycleLegal(first, cycles, i);
      step, delay := RunCycle(table, name, step, c.launched, c.ran, c.draw, start, s);
      delays := delays + [delay];
      s := AfterCycle(s, c);
      i := i + 1;
    }
    assert cycles[..i] == cycles;
    StepsAgree(first, cycles);
    delays := StopAt(table, name, step, delays, ending, start, s);
  }

  /** The context ends. */
  method StopAt(
    table: Table, name: string, step: nat, before: seq<int>, ending: Ending,
    ghost start: map<string, Component>, ghost s: Child)
    returns (delays: seq<int>)
    requires Shows(table, start, name, s) && s.step == step && s.delays == before
    requires ValidEnding(step, ending)
    modifies table
    ensures Shows(table, start, name, Ended(s, ending)) && table.dohUpstreams == old(table.dohUpstreams)
    ensures delays == Ended(s, ending).delays
  {
    delays := before;
    match ending
    case AtTop =>
    case WhileRunning =>
      Launch(table, name, true, start, s);
    case WhileWaiting(launched, ran, draw) =>
      var _, delay := RunCycle(table, name, step, launched, ran, draw, start, s);
      delays := delays + [delay];
  }

  lemma CycleLegal(record: Component, cs: seq<Cycle>, i: nat)
    requires ValidCycles(cs) && i < |cs|
    ensures var s := After(record, cs[..i]);
            && LegalDraw(NominalOf(NextStep(s.step, cs[i].ran)), cs[i].draw)
            && After(record, cs[..i + 1]) == AfterCycle(s, cs[i])
  {
    assert Front(cs[..i + 1]) == cs[..i];
    ValidPrefix(cs, i + 1);
    StepsAgree(record, cs[..i]);
  }

  lemma {:induction false} StepsAgree(record: Component, cs: seq<Cycle>)
    ensures After(record, cs).step == StepAfter(cs)
    decreases |cs|
  {
    if cs == [] {
    } else {
      StepsAgree(record, Front(cs));
    }
  }

  lemma {:induction false} ValidPrefix(cs: seq<Cycle>, n: nat)
    requires ValidCycles(cs) && n <= |cs|
    ensures ValidCycles(cs[..n])
    decreases |cs|
  {
    if n == |cs| {
      assert cs[..n] == cs;
    } else {
      ValidPrefix(Front(cs), n);
      assert Front(cs)[..n] == cs[..n];
    }
  }

  // ---------- what the record shows ----------

  /** A child shown as up is not backing off. */
  predicate Plausible(c: Component) {
    c.up ==> c.backoff == 0
  }

  /** The records one cycle writes, in order: up without a backoff while the child runs, if it was
      launched; down; and down with one restart more and the backoff of the wait. */
  lemma CycleRecords(s: Child, c: Cycle)
    ensures var s1 := AfterCycle(s, c);
            var n := |s.log|;
            && |s1.log| == n + (if c.launched then 3 else 2) && s1.log[..n] == s.log
            && (c.launched ==> s1.log[n].up && s1.log[n].backoff == 0 && s1.log[n].restarts == s.record.restarts)
            && !s1.log[|s1.log| - 2].up && s1.log[|s1.log| - 2].restarts == s.record.restarts
            && Last(s1.log) == s1.record && !s1.record.up
            && s1.record.restarts == (s.record.restarts + 1) % TWO_64
            && s1.delays == s.delays + [s1.record.backoff]
            && s1.clock == s.clock + c.ran + c.waited
  {
  }

  /** In every record ever written, a child that is up shows no backoff; the enabled flag never
      changes; and the restart counter counts the cycles, modulo 2^64, one delay for each. */
  lemma {:induction false} RecordsTruthful(record: Component, cs: seq<Cycle>)
    requires 0 <= record.restarts < TWO_64
    ensures var s := After(record, cs);
            && (forall i :: 0 <= i < |s.log| ==> Plausible(s.log[i]) && s.log[i].enabled == record.enabled)
            && s.record.enabled == record.enabled
            && s.record.restarts == (record.restarts + |cs|) % TWO_64
            && |s.delays| == |cs|
            && (cs != [] ==> !s.record.up && s.record.backoff == Last(s.delays))
    decreases |cs|
  {
    if cs == [] {
    } else {
      RecordsTruthful(record, Front(cs));
      IncOfReduced(record.restarts + |Front(cs)|);
    }
  }

  /** The length of the crash loop: cycles since, and with, the last one that followed a stable
      run; all of them if there was none. */
  function CrashLoop(cs: seq<Cycle>): nat {
    if cs == [] then 0
    else if Last(cs).ran >= 300 * SECOND then 1
    else CrashLoop(Front(cs)) + 1
  }

  /** Each delay is the jittered one of the length of the crash loop it ends. */
  lemma {:induction false} DelaysByCrashLoop(record: Component, cs: seq<Cycle>, i: nat)
    requires i < |cs|
    ensures |After(record, cs).delays| == |cs|
    ensures After(record, cs).delays[i] == DelayOf(CrashLoop(cs[..i + 1]), cs[i].draw)
    decreases |cs|
  {
    RecordLength(record, Front(cs));
    if i == |cs| - 1 {
      assert cs[..i + 1] == cs;
      StepIsCrashLoop(cs);
      StepsAgree(record, Front(cs));
    } else {
      DelaysByCrashLoop(record, Front(cs), i);
      assert Front(cs)[..i + 1] == cs[..i + 1];
    }
  }

  lemma {:induction false} RecordLength(record: Component, cs: seq<Cycle>)
    ensures |After(record, cs).delays| == |cs|
    decreases |cs|
  {
    if cs == [] {
    } else {
      RecordLength(record, Front(cs));
    }
  }

  lemma {:induction false} StepIsCrashLoop(cs: seq<Cycle>)
    ensures StepAfter(cs) == CrashLoop(cs)
    decreases |cs|
  {
    if cs == [] {
    } else {
      StepIsCrashLoop(Front(cs));
    }
  }

  // ---------- how often a child restarts ----------

  /** The shortest wait of a step. */
  function Floor(step: nat): int {
    NominalOf(step) - NominalOf(step) / 5
  }

  const CEILING: int := 24 * SECOND

  /** What the first waits of a crash loop fall short of 24 seconds each, in all. */
  function Credit(step: nat): int {
    if step == 0 then 0 else Credit(step - 1) + CEILING - Floor(step)
  }

  const MAX_CREDIT: int := 95_200 * MILLISECOND

  lemma Doubles(step: nat)
    requires step >= 1
    ensures NominalOf(step + 1) == Min(2 * NominalOf(step), RESTART_MAXIMUM)
    ensures SECOND <= NominalOf(step) <= RESTART_MAXIMUM
  {
    NominalStep(RESTART_INITIAL, RESTART_MAXIMUM, step);
  }

  lemma FirstNominals()
    ensures NominalOf(1) == SECOND && NominalOf(2) == 2 * SECOND && NominalOf(3) == 4 * SECOND
    ensures NominalOf(4) == 8 * SECOND && NominalOf(5) == 16 * SECOND && NominalOf(6) == 30 * SECOND
  {
    assert Pow2(0) == 1;
    assert NominalOf(1) == SECOND;
    Doubles(1);
    Doubles(2);
    Doubles(3);
    Doubles(4);
    Doubles(5);
  }

  lemma FirstCredits()
    ensures Credit(1) == 23_200 * MILLISECOND && Credit(2) == 45_600 * MILLISECOND
    ensures Credit(3) == 66_400 * MILLISECOND && Credit(4) == 84_000 * MILLISECOND
    ensures Credit(5) == MAX_CREDIT
  {
    FirstNominals();
  }

  lemma {:induction false} LateCredits(step: nat)
    requires step >= 6
    ensures NominalOf(step) == RESTART_MAXIMUM && Credit(step) == MAX_CREDIT
    decreases step
  {
    FirstNominals();
    FirstCredits();
    if step == 6 {
    } else {
      LateCredits(step - 1);
      Doubles(step - 1);
    }
  }

  lemma CreditBounds(step: nat)
    ensures 0 <= Credit(step) <= MAX_CREDIT
    ensures step >= 5 ==> Credit(step) == MAX_CREDIT
  {
    FirstCredits();
    if step >= 6 {
      LateCredits(step);
    }
  }

  lemma WaitAtLeast(step: nat, draw: int)
    requires step >= 1 && LegalDraw(NominalOf(step), draw)
    ensures Floor(step) <= DelayOf(step, draw) <= RESTART_MAXIMUM
  {
    Doubles(step);
  }

  /** From `s` to `s1` every one of m cycles paid 24 seconds or drew on the credit of its crash
      loop. */
  predicate Paid(s: Child, s1: Child, m: nat) {
    s1.clock - s.clock >= CEILING * m - Credit(s1.step) + Credit(s.step)
  }

  lemma CyclePays(s: Child, c: Cycle)
    requires ValidCycle(s.step, c)
    ensures Paid(s, AfterCycle(s, c), 1)
  {
    WaitAtLeast(NextStep(s.step, c.ran), c.draw);
    CreditBounds(s.step);
    FirstNominals();
    FirstCredits();
  }

  lemma PaidNext(s: Child, s1: Child, s2: Child, m: nat)
    requires Paid(s, s1, m) && Paid(s1, s2, 1)
    ensures Paid(s, s2, m + 1)
  {
  }

  lemma PaidNone(s: Child)
    ensures Paid(s, s, 0)
  {
  }

  lemma PaidOn(record: Component, s: Child, cs: seq<Cycle>, m: nat)
    requires cs != [] && ValidCycles(cs) && Paid(s, After(record, Front(cs)), m)
    ensures Paid(s, After(record, cs), m + 1)
  {
    var before := After(record, Front(cs));
    StepsAgree(record, Front(cs));
    CyclePays(before, Last(cs));
    PaidNext(s, before, After(record, cs), m);
  }

  lemma {:induction false} AlwaysPaid(record: Component, cs: seq<Cycle>, ds: seq<Cycle>)
    requires ValidCycles(cs + ds)
    ensures Paid(After(record, cs), After(record, cs + ds), |ds|)
    decreases |ds|
  {
    if ds == [] {
      assert cs + ds == cs;
      PaidNone(After(record, cs));
    } else {
      assert Front(cs + ds) == cs + Front(ds);
      AlwaysPaid(record, cs, Front(ds));
      PaidOn(record, After(record, cs), cs + ds, |Front(ds)|);
    }
  }

  /** Restart rate, for every run and every stretch of it: m restarts take at least 24 m seconds
      less 95.2 seconds, however long the child runs in between and whatever is drawn. */
  lemma RestartRate(record: Component, cs: seq<Cycle>, n: nat)
    requires ValidCycles(cs) && n <= |cs|
    ensures After(record, cs).clock - After(record, cs[..n]).clock >= CEILING * (|cs| - n) - MAX_CREDIT
  {
    assert cs[..n] + cs[n..] == cs;
    AlwaysPaid(record, cs[..n], cs[n..]);
    CreditBounds(After(record, cs).step);
    CreditBounds(After(record, cs[..n]).step);
  }

  /** A cycle of a child that dies at once, with the shortest wait of the given step. */
  function SwiftCrash(step: nat): Cycle {
    Cycle(true, 0, 0, if Floor(step) > 0 then Floor(step) else 0)
  }

  function CrashLoopOf(m: nat): (cs: seq<Cycle>)
    ensures |cs| == m
  {
    if m == 0 then [] else CrashLoopOf(m - 1) + [SwiftCrash(m)]
  }

  lemma SwiftCrashPays(s: Child)
    ensures var c, s1 := SwiftCrash(s.step + 1), AfterCycle(s, SwiftCrash(s.step + 1));
            && ValidCycle(s.step, c) && s1.step == s.step + 1
            && s1.clock - s.clock == CEILING - Credit(s1.step) + Credit(s.step)
  {
    Doubles(s.step + 1);
    assert DelayOf(s.step + 1, 0) == Floor(s.step + 1) > 0;
  }

  lemma CrashOn(record: Component, m: nat)
    requires m > 0
    ensures Front(CrashLoopOf(m)) == CrashLoopOf(m - 1) && Last(CrashLoopOf(m)) == SwiftCrash(m)
    ensures After(record, CrashLoopOf(m)) == AfterCycle(After(record, CrashLoopOf(m - 1)), SwiftCrash(m))
  {
    assert Front(CrashLoopOf(m)) == CrashLoopOf(m - 1);
  }

  predicate AtBound(s: Child, m: nat) {
    s.step == m && s.clock == CEILING * m - Credit(m)
  }

  lemma CrashStep(s: Child, m: nat)
    requires m > 0 && AtBound(s, m - 1)
    ensures ValidCycle(m - 1, SwiftCrash(m)) && AtBound(AfterCycle(s, SwiftCrash(m)), m)
  {
    SwiftCrashPays(s);
  }

  lemma {:induction false} CrashLoopExactly(record: Component, m: nat)
    ensures ValidCycles(CrashLoopOf(m)) && AtBound(After(record, CrashLoopOf(m)), m)
    decreases m
  {
    if m == 0 {
      assert Credit(0) == 0;
    } else {
      CrashLoopExactly(record, m - 1);
      CrashOn(record, m);
      StepsAgree(record, CrashLoopOf(m - 1));
      CrashStep(After(record, CrashLoopOf(m - 1)), m);
    }
  }

  /** The bound is attained: from five restarts on by every crash loop with the shortest waits. */
  lemma RestartRateAttained(record: Component, m: nat)
    requires m >= 5
    ensures ValidCycles(CrashLoopOf(m)) && |CrashLoopOf(m)| == m
    ensures After(record, CrashLoopOf(m)).clock == CEILING * m - MAX_CREDIT
  {
    CrashLoopExactly(record, m);
    CreditBounds(m);
  }
}
