/** The writers of a child's stdout and stderr sharing one deduper.
 *
 * Each writer handles one line at a time under its own lock, in two steps: the deduper decides
 * and records, then the line goes to the destination, which may refuse it. Between the two
 * steps the other writer may run. Lines are numbered in the order of their decisions.
 */
module LogPipeline {
  import opened Options
  import opened Sequences
  import opened LogDedupe
  import opened LogStream
  import opened LogWriter
  import opened Text

  datatype Writer = Stdout | Stderr

  datatype Event = Decide(w: Writer, c: Class, now: int) | Deliver(w: Writer, ok: bool)

  /** A writer: the line it is writing, if any, and the lines its destination has. */
  datatype Lane = Lane(writing: Option<nat>, sent: seq<nat>)

  datatype Pipeline = Pipeline(table: Table, h: seq<Reading>, hidden: set<nat>, lost: set<nat>, out: Lane, err: Lane)

  const IDLE := Lane(None, [])
  const INIT := Pipeline(map[], [], {}, {}, IDLE, IDLE)

  function LaneOf(s: Pipeline, w: Writer): Lane {
    if w == Stdout then s.out else s.err
  }

  function WithLane(s: Pipeline, w: Writer, l: Lane): Pipeline {
    if w == Stdout then s.(out := l) else s.(err := l)
  }

  predicate Enabled(s: Pipeline, e: Event) {
    LaneOf(s, e.w).writing.Some? <==> e.Deliver?
  }

  function Step(s: Pipeline, e: Event): Pipeline
    requires Enabled(s, e)
  {
    var lane := LaneOf(s, e.w);
    match e
    case Decide(w, c, now) =>
      var (table, hides) := Observed(s.table, c, now);
      var k, s1 := |s.h|, s.(table := table, h := s.h + [Reading(c, now)]);
      if hides then s1.(hidden := s.hidden + {k}) else WithLane(s1, w, lane.(writing := Some(k)))
    case Deliver(w, ok) =>
      var k := lane.writing.value;
      if ok then WithLane(s, w, Lane(None, lane.sent + [k]))
      else WithLane(s.(lost := s.lost + {k}), w, lane.(writing := None))
  }

  predicate ValidRun(es: seq<Event>)
    decreases |es|, 0
  {
    es == [] || (ValidRun(Front(es)) && Enabled(Run(Front(es)), Last(es)))
  }

  function Run(es: seq<Event>): Pipeline
    requires ValidRun(es)
    decreases |es|, 1
  {
    if es == [] then INIT else Step(Run(Front(es)), Last(es))
  }

  lemma Then(es: seq<Event>, e: Event)
    requires ValidRun(es) && Enabled(Run(es), e)
    ensures ValidRun(es + [e]) && Run(es + [e]) == Step(Run(es), e)
  {
    assert Front(es + [e]) == es;
  }

  // ---------- every line has one fate ----------

  function One(b: bool): nat {
    if b then 1 else 0
  }

  function Places(l: Lane, k: nat): nat {
    One(l.writing == Some(k)) + multiset(l.sent)[k]
  }

  /** How often line `k` is hidden, lost, being written, or at a destination. */
  function Fates(s: Pipeline, k: nat): nat {
    One(k in s.hidden) + One(k in s.lost) + Places(s.out, k) + Places(s.err, k)
  }

  /** A destination has its lines in the order of their decisions, and none after the one
      being written. */
  ghost predicate Ordered(l: Lane) {
    && (forall i, j :: 0 <= i < j < |l.sent| ==> l.sent[i] < l.sent[j])
    && (l.writing.Some? ==> forall i :: 0 <= i < |l.sent| ==> l.sent[i] < l.writing.value)
  }

  ghost predicate Conserved(s: Pipeline) {
    forall k: nat :: Fates(s, k) == One(k < |s.h|)
  }

  /** The decision taken on line `m`, given the lines before it. */
  predicate Suppressed(h: seq<Reading>, m: nat) {
    m < |h| && Observed(TableAt(h[..m]), h[m].c, h[m].now).1
  }

  ghost predicate Decided(s: Pipeline) {
    s.table == TableAt(s.h) && forall m: nat :: m in s.hidden <==> Suppressed(s.h, m)
  }

  lemma DecidedStep(s: Pipeline, e: Event)
    requires Decided(s) && Enabled(s, e)
    ensures Decided(Step(s, e))
  {
    if e.Decide? {
      var h := s.h + [Reading(e.c, e.now)];
      assert Front(h) == s.h == h[..|s.h|];
      forall m: nat
        ensures Suppressed(h, m) <==> Suppressed(s.h, m) || (m == |s.h| && Observed(s.table, e.c, e.now).1)
      {
        if m < |s.h| {
          assert h[..m] == s.h[..m];
        }
      }
    }
  }

  lemma ConservedDecide(s: Pipeline, e: Event, k: nat)
    requires Conserved(s) && Enabled(s, e) && e.Decide?
    ensures Fates(Step(s, e), k) == One(k < |s.h| + 1)
  {
    assert Fates(s, k) == One(k < |s.h|);
  }

  lemma ConservedDeliver(s: Pipeline, e: Event, k: nat)
    requires Conserved(s) && Enabled(s, e) && e.Deliver?
    ensures Fates(Step(s, e), k) == Fates(s, k)
  {
    var n := LaneOf(s, e.w).writing.value;
    assert Fates(s, n) == One(n < |s.h|);
  }

  lemma ConservedStep(s: Pipeline, e: Event)
    requires Conserved(s) && Enabled(s, e)
    ensures Conserved(Step(s, e))
  {
    forall k: nat
      ensures Fates(Step(s, e), k) == One(k < |Step(s, e).h|)
    {
      if e.Decide? {
        ConservedDecide(s, e, k);
      } else {
        ConservedDeliver(s, e, k);
      }
    }
  }

  lemma Known(s: Pipeline, w: Writer, k: nat)
    requires Conserved(s) && (LaneOf(s, w).writing == Some(k) || k in LaneOf(s, w).sent)
    ensures k < |s.h|
  {
    assert Fates(s, k) == One(k < |s.h|);
  }

  lemma OrderedStep(s: Pipeline, e: Event, w: Writer)
    requires Conserved(s) && Enabled(s, e) && Ordered(LaneOf(s, w))
    ensures Ordered(LaneOf(Step(s, e), w))
  {
    var l := LaneOf(s, w);
    forall i | 0 <= i < |l.sent|
      ensures l.sent[i] < |s.h|
    {
      Known(s, w, l.sent[i]);
    }
  }

  /** Conservation over every interleaving of the two writers: a line is hidden exactly when
      the deduper suppressed it, and every other line is lost to a refused write, being
      written, or at exactly one destination exactly once, in order. */
  lemma {:induction false} LinesConserved(es: seq<Event>)
    requires ValidRun(es)
    ensures var s := Run(es);
            Decided(s) && Conserved(s) && Ordered(s.out) && Ordered(s.err)
    decreases |es|
  {
    if es == [] {
    } else {
      var s, e := Run(Front(es)), Last(es);
      LinesConserved(Front(es));
      DecidedStep(s, e);
      ConservedStep(s, e);
      OrderedStep(s, e, Stdout);
      OrderedStep(s, e, Stderr);
    }
  }

  // ---------- what stands behind a suppressed warning ----------

  predicate Idle(s: Pipeline) {
    s.out.writing.None? && s.err.writing.None?
  }

  predicate Reported(s: Pipeline, i: nat) {
    i in s.out.sent || i in s.err.sent
  }

  predicate InWriting(s: Pipeline, i: nat) {
    s.out.writing == Some(i) || s.err.writing == Some(i)
  }

  /** Line `m` is an internal warning and line `i` the boundary line that it repeats: the
      latest one of its query, within the window at every reading since. */
  ghost predicate Repeats(h: seq<Reading>, m: nat, i: nat) {
    && m < |h| && h[m].c.Internal?
    && Live(h[..m], i, h[m].c.id) && h[m].now - h[i].now <= WINDOW
  }

  lemma RepeatsExactly(h: seq<Reading>, m: nat)
    requires m < |h| && h[m].c.Internal?
    ensures Suppressed(h, m) <==> exists i: nat :: Repeats(h, m, i)
  {
    SuppressedExactly(h[..m], h[m].c.id, h[m].now);
    if Suppressed(h, m) {
      var i: nat :| Live(h[..m], i, h[m].c.id) && h[m].now - h[..m][i].now <= WINDOW;
      assert Repeats(h, m, i);
    }
    if i: nat :| Repeats(h, m, i) {
      assert h[..m][i] == h[i];
    }
  }

  /** At a destination, or being written there. */
  predicate Delivering(s: Pipeline, i: nat) {
    Reported(s, i) || InWriting(s, i)
  }

  /** The fate of a boundary line, in every reachable state. */
  lemma BoundaryFate(es: seq<Event>, i: nat)
    requires ValidRun(es) && i < |Run(es).h| && Run(es).h[i].c.Boundary?
    ensures var s := Run(es);
            Delivering(s, i) <==> i !in s.lost
  {
    var s := Run(es);
    LinesConserved(es);
    assert !Suppressed(s.h, i);
    assert Fates(s, i) == One(i < |s.h|);
  }

  /** Every suppressed warning repeats a boundary line at a destination or being written there. */
  ghost predicate AllBacked(s: Pipeline) {
    forall m: nat :: m < |s.h| && m in s.hidden && s.h[m].c.Internal? ==>
      exists i: nat :: Repeats(s.h, m, i) && Delivering(s, i)
  }

  /** A boundary line was lost to a refused write, and a warning that repeats it followed. */
  ghost predicate LostThenRepeated(s: Pipeline) {
    exists m, i: nat :: i in s.lost && Repeats(s.h, m, i)
  }

  /** Suppression hides nothing unreported, exact condition: at every moment, every suppressed
      warning repeats a line that is at a destination or on its way there if and only if no
      boundary line whose write was refused is repeated by a later warning. With no write
      under way, the line has arrived. */
  lemma BackedExactly(es: seq<Event>)
    requires ValidRun(es)
    ensures AllBacked(Run(es)) <==> !LostThenRepeated(Run(es))
    ensures Idle(Run(es)) ==> forall i: nat :: Delivering(Run(es), i) ==> Reported(Run(es), i)
  {
    var s := Run(es);
    LinesConserved(es);
    forall m, i: nat | Repeats(s.h, m, i)
      ensures m in s.hidden && (Delivering(s, i) <==> i !in s.lost)
    {
      RepeatsExactly(s.h, m);
      BoundaryFate(es, i);
    }
    forall m: nat | m < |s.h| && m in s.hidden && s.h[m].c.Internal?
      ensures exists i: nat :: Repeats(s.h, m, i)
    {
      RepeatsExactly(s.h, m);
    }
  }

  /** Some boundary line of the query, read before line `m`, is at a destination or on its
      way there. */
  ghost predicate SomeReported(s: Pipeline, m: nat, id: string) {
    exists i: nat :: i < m && i < |s.h| && s.h[i].c == Boundary(id) && Delivering(s, i)
  }

  ghost predicate AllLost(s: Pipeline, m: nat, id: string) {
    forall i: nat :: i < m && i < |s.h| && s.h[i].c == Boundary(id) ==> i in s.lost
  }

  /** For one warning: its query was reported before it, or is being reported, unless every
      boundary line of the query before it was lost. */
  lemma ReportedExactly(es: seq<Event>, m: nat, id: string)
    requires ValidRun(es)
    ensures SomeReported(Run(es), m, id) <==> !AllLost(Run(es), m, id)
  {
    var s := Run(es);
    forall i: nat | i < m && i < |s.h| && s.h[i].c == Boundary(id)
      ensures Delivering(s, i) <==> i !in s.lost
    {
      BoundaryFate(es, i);
    }
  }

  /** No destination refuses a line. */
  ghost predicate Accepting(es: seq<Event>) {
    forall i :: 0 <= i < |es| && es[i].Deliver? ==> es[i].ok
  }

  lemma {:induction false} NothingLost(es: seq<Event>)
    requires ValidRun(es) && Accepting(es)
    ensures Run(es).lost == {}
    decreases |es|
  {
    if es == [] {
    } else {
      assert Last(es) == es[|es| - 1];
      forall i | 0 <= i < |Front(es)| ensures Front(es)[i] == es[i] {
      }
      NothingLost(Front(es));
    }
  }

  /** With accepting destinations every suppressed warning, at every moment, repeats a boundary
      line of its query that is at a destination or being written there. */
  lemma AcceptingBacked(es: seq<Event>)
    requires ValidRun(es) && Accepting(es)
    ensures AllBacked(Run(es))
  {
    NothingLost(es);
    BackedExactly(es);
  }

  /** The boundary is recorded before it is written: when the destination refuses it, a
      warning of the same query within the window is suppressed and nothing is reported. */
  lemma RefusedBoundaryHides(id: string, t: int, now: int)
    requires now - t <= WINDOW
    ensures var es := [Decide(Stdout, Boundary(id), t), Deliver(Stdout, false), Decide(Stdout, Internal(id), now)];
            ValidRun(es) && Idle(Run(es)) && Run(es).hidden == {1}
            && Run(es).out.sent == [] && Run(es).err.sent == []
  {
    var a, b, c := Decide(Stdout, Boundary(id), t), Deliver(Stdout, false), Decide(Stdout, Internal(id), now);
    Then([], a);
    assert [] + [a] == [a] && [a] + [b] == [a, b] && [a, b] + [c] == [a, b, c];
    Then([a], b);
    Then([a, b], c);
  }

  // ---------- the writer object is one lane ----------

  /** What an uninterrupted `Offer` does with a line: a decision and, unless the line is
      suppressed, a delivery. */
  function OfferSteps(f: Feed, k: nat, line: string, p: Pipeline, w: Writer): (p1: Pipeline)
    requires LaneOf(p, w).writing.None?
    ensures LaneOf(p1, w).writing.None?
  {
    var r := ReadingOf(f, k, line);
    var p1 := Step(p, Decide(w, r.c, r.now));
    if LaneOf(p1, w).writing.None? then p1 else Step(p1, Deliver(w, k !in f.around.broken))
  }

  /** The other writer is silent meanwhile. */
  ghost predicate Alone(f: Feed) {
    forall k: nat :: f.around.between(k) == []
  }

  lemma OfferedSteps(f: Feed, s: State, line: string, p: Pipeline, w: Writer)
    requires Alone(f) && LaneOf(p, w).writing.None?
    ensures var (s1, t1, _) := Offered(f, s, p.table, line);
            var p1 := OfferSteps(f, s.seen, line, p, w);
            && p1.table == t1 && |p1.h| == |p.h| + 1
            && (|| (LaneOf(p1, w).sent == LaneOf(p, w).sent && s1.out == s.out)
                || (LaneOf(p1, w).sent == LaneOf(p, w).sent + [|p.h|] && s1.out == s.out + [line]))
  {
    assert Met(f, s.seen, p.table) == p.table;
  }

  /** Some continuation of the run `es` leads to `p`. */
  ghost predicate Leads(es: seq<Event>, p: Pipeline) {
    exists ds :: ValidRun(es + ds) && Run(es + ds) == p
  }

  lemma LeadsStep(es: seq<Event>, p: Pipeline, e: Event)
    requires Leads(es, p) && Enabled(p, e)
    ensures Leads(es, Step(p, e))
  {
    var ds :| ValidRun(es + ds) && Run(es + ds) == p;
    Then(es + ds, e);
    assert es + (ds + [e]) == es + ds + [e];
  }

  lemma LeadsOffer(f: Feed, k: nat, line: string, es: seq<Event>, p: Pipeline, w: Writer)
    requires Leads(es, p) && LaneOf(p, w).writing.None?
    ensures Leads(es, OfferSteps(f, k, line, p, w))
  {
    var r := ReadingOf(f, k, line);
    LeadsStep(es, p, Decide(w, r.c, r.now));
    var p1 := Step(p, Decide(w, r.c, r.now));
    if LaneOf(p1, w).writing.Some? {
      LeadsStep(es, p1, Deliver(w, k !in f.around.broken));
    }
  }

  /** The texts are those of the numbered lines; `base` numbers the first line. */
  predicate Mirrors(lines: seq<string>, base: nat, texts: seq<string>, nums: seq<nat>) {
    && |texts| == |nums|
    && forall j :: 0 <= j < |nums| ==> base <= nums[j] < base + |lines| && texts[j] == lines[nums[j] - base]
  }

  lemma MirrorsNext(line: string, lines: seq<string>, base: nat, texts: seq<string>, nums: seq<nat>)
    requires Mirrors(lines, base + 1, texts, nums)
    ensures Mirrors([line] + lines, base, texts, nums)
    ensures Mirrors([line] + lines, base, [line] + texts, [base] + nums)
  {
  }

  /** The lane `now` has sent the numbers of the lines whose texts the writer has added. */
  ghost predicate Delivers(lines: seq<string>, base: nat, was: Lane, now: Lane, before: State, after: State) {
    exists texts, nums ::
      now.sent == was.sent + nums && after.out == before.out + texts && Mirrors(lines, base, texts, nums)
  }

  lemma DeliversFirst(
    line: string, lines: seq<string>, base: nat, was: Lane, mid: Lane, now: Lane, s: State, s1: State, s2: State)
    requires || (mid.sent == was.sent && s1.out == s.out)
             || (mid.sent == was.sent + [base] && s1.out == s.out + [line])
    requires Delivers(lines, base + 1, mid, now, s1, s2)
    ensures Delivers([line] + lines, base, was, now, s, s2)
  {
    var texts, nums :|
      now.sent == mid.sent + nums && s2.out == s1.out + texts && Mirrors(lines, base + 1, texts, nums);
    MirrorsNext(line, lines, base, texts, nums);
    if mid.sent != was.sent {
      assert now.sent == was.sent + ([base] + nums) && s2.out == s.out + ([line] + texts);
    }
  }

  lemma DeliversNone(lines: seq<string>, base: nat, l: Lane, s: State)
    ensures Delivers(lines, base, l, l, s, s)
  {
    assert l.sent == l.sent + [] && s.out == s.out + [] && Mirrors(lines, base, [], []);
  }

  /** The pipeline is where the writer is: same table, no write under way, and what the writer
      added to the destination are the texts of the lines its lane has sent. */
  ghost predicate Tracks(s: State, p: Pipeline, w: Writer, fed: (State, Table, bool), p1: Pipeline) {
    && LaneOf(p1, w).writing.None? && p1.table == fed.1
    && Delivers(Cut(s.pending).lines, |p.h|, LaneOf(p, w), LaneOf(p1, w), s, fed.0)
  }

  lemma TracksRound(
    f: Feed, s: State, p: Pipeline, w: Writer, line: string, rest: string, fed: (State, Table, bool), p1: Pipeline)
    requires Alone(f) && NextLine(s.pending, line, rest) && LaneOf(p, w).writing.None?
    requires var mid := OfferSteps(f, s.seen, line, p, w);
             Tracks(Offered(f, s.(pending := rest), p.table, line).0, mid, w, fed, p1)
    ensures Tracks(s, p, w, fed, p1)
  {
    var mid, s1 := OfferSteps(f, s.seen, line, p, w), Offered(f, s.(pending := rest), p.table, line).0;
    OfferedSteps(f, s.(pending := rest), line, p, w);
    NextLineCut(s.pending, line, rest);
    DeliversFirst(line, Cut(rest).lines, |p.h|, LaneOf(p, w), LaneOf(mid, w), LaneOf(p1, w), s, s1, fed.0);
  }

  /** An uninterrupted `Write` is a continuation of any run of the pipeline. */
  lemma {:induction false} WriteRuns(f: Feed, s: State, es: seq<Event>, p: Pipeline, w: Writer) returns (p1: Pipeline)
    requires Alone(f) && Leads(es, p) && LaneOf(p, w).writing.None?
    ensures Leads(es, p1) && Tracks(s, p, w, Fed(f, s, p.table), p1)
    decreases |s.pending|
  {
    var end := IndexOf(s.pending, '\n');
    if end < 0 {
      p1 := p;
      DeliversNone(Cut(s.pending).lines, |p.h|, LaneOf(p, w), s);
    } else {
      var line, rest := s.pending[..end + 1], s.pending[end + 1..];
      assert NextLine(s.pending, line, rest);
      var (s1, t1, err) := Offered(f, s.(pending := rest), p.table, line);
      var mid := OfferSteps(f, s.seen, line, p, w);
      OfferedSteps(f, s.(pending := rest), line, p, w);
      LeadsOffer(f, s.seen, line, es, p, w);
      FedRound(f, s, p.table, line, rest);
      if err {
        p1 := mid;
        DeliversNone(Cut(rest).lines, |p.h| + 1, LaneOf(mid, w), s1);
      } else {
        p1 := WriteRuns(f, s1, es, mid, w);
      }
      TracksRound(f, s, p, w, line, rest, Fed(f, s, p.table), p1);
    }
  }
}
