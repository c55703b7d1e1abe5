/** The writer object: reassembled lines pass through the deduper it shares with the child's
 * other writer.
 */
module LogWriter {
  import opened Text
  import opened Selection
  import opened LogDedupe
  import opened LogStream
  import opened Sequences

  /** What a writer meets, by line number: the clock reading taken for the line, the readings of
      the other writer that the deduper has handled since the line before, and the lines whose
      write the destination refuses. */
  datatype Surroundings = Surroundings(clock: nat -> int, between: nat -> seq<Reading>, broken: set<nat>)

  datatype Feed = Feed(child: string, quiet: bool, around: Surroundings)

  function ReadingOf(f: Feed, k: nat, line: string): Reading {
    Reading(Classify(f.child, f.quiet, line), f.around.clock(k))
  }

  /** The table that line `k` meets. */
  function Met(f: Feed, k: nat, t: Table): Table {
    TableAt(f.around.between(k), t)
  }

  /** One line to the deduper and, unless it is suppressed, to the destination. */
  function Offered(f: Feed, s: State, t: Table, line: string): (State, Table, bool) {
    var k, s1 := s.seen, s.(seen := s.seen + 1);
    var r := ReadingOf(f, k, line);
    var (t1, hides) := Observed(Met(f, k, t), r.c, r.now);
    if hides then (s1, t1, false)
    else if k in f.around.broken then (s1, t1, true)
    else (s1.(out := s.out + [line]), t1, false)
  }

  function Fed(f: Feed, s: State, t: Table): (State, Table, bool)
    decreases |s.pending|
  {
    var end := IndexOf(s.pending, '\n');
    if end < 0 then (s, t, false)
    else
      var (s1, t1, err) := Offered(f, s.(pending := s.pending[end + 1..]), t, s.pending[..end + 1]);
      if err then (s1, t1, true) else Fed(f, s1, t1)
  }

  function FedFlush(f: Feed, s: State, t: Table): (State, Table, bool) {
    if s.pending == "" then (s, t, false) else Offered(f, s.(pending := ""), t, s.pending)
  }

  function FedAll(f: Feed, chunks: seq<string>): (State, Table) {
    if chunks == [] then (START, map[])
    else
      var (s, t) := FedAll(f, Front(chunks));
      var (s1, t1, _) := Fed(f, s.(pending := s.pending + Last(chunks)), t);
      (s1, t1)
  }

  lemma FedRound(f: Feed, s: State, t: Table, line: string, rest: string)
    requires NextLine(s.pending, line, rest)
    ensures var (s1, t1, err) := Offered(f, s.(pending := rest), t, line);
            Fed(f, s, t) == if err then (s1, t1, true) else Fed(f, s1, t1)
  {
    assert s.pending[..|line|] == line && s.pending[|line|..] == rest;
  }

  class ChildLogWriter {
    const deduper: ChildLogDeduper
    var pending: string
    var out: seq<string>
    var seen: nat  // lines taken so far; numbers what the surroundings hold

    ghost function Contents(): State
      reads this
    {
      State(pending, out, seen)
    }

    ghost function FeedOf(around: Surroundings): Feed {
      Feed(deduper.child, deduper.suppressStartupInfo, around)
    }

    constructor (deduper: ChildLogDeduper)
      ensures this.deduper == deduper && Contents() == START
    {
      this.deduper := deduper;
      pending, out, seen := "", [], 0;
    }

    method Offer(line: string, around: Surroundings) returns (err: bool)
      modifies this, deduper
      ensures (Contents(), deduper.boundaries, err)
           == Offered(FeedOf(around), old(Contents()), old(deduper.boundaries), line)
    {
      var k := seen;
      seen := k + 1;
      deduper.Overlap(around.between(k));
      var hides := deduper.Suppress(line, around.clock(k));
      if hides {
        return false;
      }
      if k in around.broken {
        return true;
      }
      out := out + [line];
      return false;
    }

    /** One round of the loop of `Write`. */
    method TakeLine(end: nat, around: Surroundings) returns (err: bool)
      requires end == IndexOf(pending, '\n')
      modifies this, deduper
      ensures |pending| < old(|pending|)
      ensures old(Fed(FeedOf(around), Contents(), deduper.boundaries))
           == if err then (Contents(), deduper.boundaries, true)
              else Fed(FeedOf(around), Contents(), deduper.boundaries)
    {
      var line, rest := pending[..end + 1], pending[end + 1..];
      FedRound(FeedOf(around), Contents(), deduper.boundaries, line, rest);
      pending := rest;
      err := Offer(line, around);
    }

    /** `Write`, with whatever the other writer passes to the deduper in between its lines. */
    method Write(p: string, around: Surroundings) returns (accepted: nat, err: bool)
      modifies this, deduper
      ensures accepted == |p|
      ensures (Contents(), deduper.boundaries, err)
           == Fed(FeedOf(around), old(Contents()).(pending := old(pending) + p), old(deduper.boundaries))
    {
      accepted := |p|;
      pending := pending + p;
      ghost var outcome := Fed(FeedOf(around), Contents(), deduper.boundaries);
      while true
        invariant Fed(FeedOf(around), Contents(), deduper.boundaries) == outcome
        decreases |pending|
      {
        var end := IndexOf(pending, '\n');
        if end < 0 {
          return accepted, false;
        }
        err := TakeLine(end, around);
        if err {
          return accepted, true;
        }
      }
    }

    method Flush(around: Surroundings) returns (err: bool)
      modifies this, deduper
      ensures (Contents(), deduper.boundaries, err)
           == FedFlush(FeedOf(around), old(Contents()), old(deduper.boundaries))
    {
      if |pending| == 0 {
        return false;
      }
      var line := pending;
      pending := "";
      err := Offer(line, around);
    }
  }

  // ---------- what the deduper decides ----------

  /** The table once these lines have been offered; `base` numbers the first. */
  function TableOn(f: Feed, base: nat, lines: seq<string>, t: Table): Table {
    if lines == [] then t
    else
      var k := base + |lines| - 1;
      var r := ReadingOf(f, k, Last(lines));
      Observed(Met(f, k, TableOn(f, base, Front(lines), t)), r.c, r.now).0
  }

  /** The numbers of the lines it suppresses. */
  function HiddenOn(f: Feed, base: nat, lines: seq<string>, t: Table): (hidden: set<nat>)
    ensures forall k :: k in hidden ==> base <= k < base + |lines|
  {
    if lines == [] then {}
    else
      var k := base + |lines| - 1;
      var r := ReadingOf(f, k, Last(lines));
      HiddenOn(f, base, Front(lines), t)
      + if Observed(Met(f, k, TableOn(f, base, Front(lines), t)), r.c, r.now).1 then {k} else {}
  }

  /** All readings the deduper has handled by then, the other writer's included. */
  function History(f: Feed, base: nat, lines: seq<string>): seq<Reading> {
    if lines == [] then []
    else
      var k := base + |lines| - 1;
      History(f, base, Front(lines)) + f.around.between(k) + [ReadingOf(f, k, Last(lines))]
  }

  lemma {:induction false} TableConcat(a: seq<Reading>, b: seq<Reading>, t: Table)
    ensures TableAt(a + b, t) == TableAt(b, TableAt(a, t))
    decreases |b|
  {
    if b == [] {
      assert a + b == a;
    } else {
      assert Front(a + b) == a + Front(b);
      TableConcat(a, Front(b), t);
    }
  }

  lemma {:induction false} TableOfHistory(f: Feed, base: nat, lines: seq<string>, t: Table)
    ensures TableOn(f, base, lines, t) == TableAt(History(f, base, lines), t)
    decreases |lines|
  {
    if lines == [] {
    } else {
      var k := base + |lines| - 1;
      var before, r := History(f, base, Front(lines)), ReadingOf(f, k, Last(lines));
      TableOfHistory(f, base, Front(lines), t);
      TableConcat(before, f.around.between(k), t);
      assert Front(before + f.around.between(k) + [r]) == before + f.around.between(k);
    }
  }

  /** The decisions the deduper takes on these lines, in order, from an initial table. */
  function Decisions(f: Feed, base: nat, lines: seq<string>, t: Table): Env {
    Env(HiddenOn(f, base, lines, t), f.around.broken)
  }

  /** The table once the first `n` of these lines have been offered. */
  function TableAfter(f: Feed, base: nat, lines: seq<string>, n: nat, t: Table): Table
    requires n <= |lines|
  {
    TableOn(f, base, lines[..n], t)
  }

  lemma {:induction false} HiddenAt(f: Feed, base: nat, lines: seq<string>, n: nat, t: Table)
    requires n < |lines|
    ensures base + n in HiddenOn(f, base, lines, t) <==> base + n in HiddenOn(f, base, lines[..n + 1], t)
    decreases |lines|
  {
    if n == |lines| - 1 {
      assert lines[..n + 1] == lines;
    } else {
      HiddenAt(f, base, Front(lines), n, t);
      assert Front(lines)[..n + 1] == lines[..n + 1];
    }
  }

  /** Line `n` of `lines` is hidden exactly when the table it meets suppresses it. */
  lemma DecisionAt(f: Feed, base: nat, lines: seq<string>, n: nat, t: Table)
    requires n < |lines|
    ensures var r := ReadingOf(f, base + n, lines[n]);
            (TableAfter(f, base, lines, n + 1, t), base + n in Decisions(f, base, lines, t).hidden)
            == Observed(Met(f, base + n, TableAfter(f, base, lines, n, t)), r.c, r.now)
  {
    HiddenAt(f, base, lines, n, t);
    assert Front(lines[..n + 1]) == lines[..n];
  }

  /** In terms of history: line `n` is hidden if and only if a startup line, or an internal
      warning with a live boundary line of its query, of either writer, within the window. */
  lemma HiddenByHistory(f: Feed, lines: seq<string>, n: nat)
    requires n < |lines|
    ensures var r := ReadingOf(f, n, lines[n]);
            var h := History(f, 0, lines[..n]) + f.around.between(n);
            n in Decisions(f, 0, lines, map[]).hidden
            <==> r.c.Startup?
                 || (r.c.Internal? && exists i: nat :: Live(h, i, r.c.id) && r.now - h[i].now <= WINDOW)
  {
    var r := ReadingOf(f, n, lines[n]);
    var before := History(f, 0, lines[..n]);
    DecisionAt(f, 0, lines, n, map[]);
    TableOfHistory(f, 0, lines[..n], map[]);
    TableConcat(before, f.around.between(n), map[]);
    if r.c.Internal? {
      SuppressedExactly(before + f.around.between(n), r.c.id, r.now);
    }
  }

  /** The `n`-th line offered to the deduper is emitted according to its decisions. */
  lemma OfferedIsEmitted(f: Feed, base: nat, lines: seq<string>, n: nat, t: Table, s: State)
    requires n < |lines| && s.seen == base + n
    ensures var (s1, err) := Emitted(Decisions(f, base, lines, t), s, lines[n]);
            Offered(f, s, TableAfter(f, base, lines, n, t), lines[n]) == (s1, TableAfter(f, base, lines, n + 1, t), err)
  {
    DecisionAt(f, base, lines, n, t);
  }

  /** The pending lines are the lines from number `n` on. */
  predicate Awaits(s: State, base: nat, lines: seq<string>, n: nat) {
    n <= |lines| && s.seen == base + n && Cut(s.pending).lines <= lines[n..]
  }

  lemma AwaitsNext(s: State, base: nat, lines: seq<string>, n: nat, line: string, rest: string, out: seq<string>)
    requires Awaits(s, base, lines, n) && NextLine(s.pending, line, rest)
    ensures n < |lines| && line == lines[n] && Awaits(State(rest, out, s.seen + 1), base, lines, n + 1)
  {
    NextLineCut(s.pending, line, rest);
    assert Cut(s.pending).lines == [line] + Cut(rest).lines;
    assert Cut(rest).lines == Cut(s.pending).lines[1..] <= lines[n..][1..] == lines[n + 1..];
  }

  /** The outcome `fed` of draining through the deduper is the outcome `drained` of draining with
      its decisions, and leaves the table as the lines taken leave it. */
  ghost predicate Follows(
    f: Feed, base: nat, lines: seq<string>, n: nat, t: Table, drained: (State, bool), fed: (State, Table, bool))
  {
    && base + n <= drained.0.seen <= base + |lines|
    && fed == (drained.0, TableAfter(f, base, lines, drained.0.seen - base, t), drained.1)
  }

  ghost predicate FollowsDecisions(f: Feed, base: nat, lines: seq<string>, n: nat, t: Table, s: State)
    requires n <= |lines|
  {
    Follows(f, base, lines, n, t, Drained(Decisions(f, base, lines, t), s), Fed(f, s, TableAfter(f, base, lines, n, t)))
  }

  lemma FollowsStep(
    f: Feed, base: nat, lines: seq<string>, n: nat, t: Table, s1: State,
    drained: (State, bool), fed: (State, Table, bool), err: bool)
    requires n < |lines| && s1.seen == base + n + 1
    requires err ==> drained == (s1, true) && fed == (s1, TableAfter(f, base, lines, n + 1, t), true)
    requires !err ==> Follows(f, base, lines, n + 1, t, drained, fed)
    ensures Follows(f, base, lines, n, t, drained, fed)
  {
  }

  lemma FollowsRound(f: Feed, base: nat, lines: seq<string>, n: nat, t: Table, s: State, line: string, rest: string)
    requires n < |lines| && line == lines[n] && s.seen == base + n && NextLine(s.pending, line, rest)
    requires var (s1, err) := Emitted(Decisions(f, base, lines, t), s.(pending := rest), line);
             err || FollowsDecisions(f, base, lines, n + 1, t, s1)
    ensures FollowsDecisions(f, base, lines, n, t, s)
  {
    var env := Decisions(f, base, lines, t);
    var t0, t1 := TableAfter(f, base, lines, n, t), TableAfter(f, base, lines, n + 1, t);
    var (s1, err) := Emitted(env, s.(pending := rest), line);
    var drained, fed := Drained(env, s), Fed(f, s, t0);
    assert drained == if err then (s1, true) else Drained(env, s1) by { DrainRound(env, s, line, rest); }
    assert fed == if err then (s1, t1, true) else Fed(f, s1, t1) by {
      OfferedIsEmitted(f, base, lines, n, t, s.(pending := rest));
      FedRound(f, s, t0, line, rest);
    }
    FollowsStep(f, base, lines, n, t, s1, drained, fed, err);
  }

  lemma {:induction false} FedIsDrained(f: Feed, base: nat, lines: seq<string>, n: nat, t: Table, s: State)
    requires Awaits(s, base, lines, n)
    ensures FollowsDecisions(f, base, lines, n, t, s)
    decreases |s.pending|
  {
    var end := IndexOf(s.pending, '\n');
    if end < 0 {
    } else {
      var line, rest := s.pending[..end + 1], s.pending[end + 1..];
      assert NextLine(s.pending, line, rest);
      var (s1, err) := Emitted(Decisions(f, base, lines, t), s.(pending := rest), line);
      AwaitsNext(s, base, lines, n, line, rest, s1.out);
      if !err {
        FedIsDrained(f, base, lines, n + 1, t, s1);
      }
      FollowsRound(f, base, lines, n, t, s, line, rest);
    }
  }

  /** `Write` and the deduper together, for any table and any destination errors. */
  lemma WriteThroughDeduper(f: Feed, s: State, t: Table, p: string)
    ensures var lines := Cut(s.pending + p).lines;
            var (s1, t1, err) := Fed(f, s.(pending := s.pending + p), t);
            && (s1, err) == Written(Decisions(f, s.seen, lines, t), s, p)
            && s.seen <= s1.seen <= s.seen + |lines|
            && t1 == TableAfter(f, s.seen, lines, s1.seen - s.seen, t)
  {
    FedIsDrained(f, s.seen, Cut(s.pending + p).lines, 0, t, s.(pending := s.pending + p));
  }

  /** All Writes of a stream and the deduper together, with any destination errors. */
  lemma {:induction false} FedFollowsStream(f: Feed, chunks: seq<string>, lines: seq<string>)
    requires Cut(Concat(chunks)).lines <= lines
    ensures var s := WrittenAll(Decisions(f, 0, lines, map[]), chunks);
            s.seen <= |lines| && FedAll(f, chunks) == (s, TableAfter(f, 0, lines, s.seen, map[]))
    decreases |chunks|
  {
    var env := Decisions(f, 0, lines, map[]);
    if chunks == [] {
      assert lines[..0] == [];
    } else {
      var before, p := Concat(Front(chunks)), Last(chunks);
      CutConcat(before, p);
      assert Cut(before).lines <= lines;
      FedFollowsStream(f, Front(chunks), lines);
      WritesFollowStream(env, Front(chunks));
      var s := WrittenAll(env, Front(chunks));
      UpToMore(env, s, before, p);
      AwaitsStream(env, s.(pending := s.pending + p), Cut(before + p), lines);
      FedIsDrained(f, 0, lines, s.seen, map[], s.(pending := s.pending + p));
    }
  }

  lemma AwaitsStream(env: Env, s: State, p: Pieces, lines: seq<string>)
    requires UpTo(env, s, p) && p.lines <= lines
    ensures Awaits(s, 0, lines, s.seen)
  {
    assert p.lines == lines[..|p.lines|];
    assert p.lines[s.seen..] == lines[s.seen..][..|p.lines| - s.seen];
  }

  /** The final Flush offers the tail as the last line. */
  lemma FedFlushIsFlushed(f: Feed, lines: seq<string>, n: nat, s: State)
    requires s.seen == n <= |lines| && lines[n..] == if s.pending == "" then [] else [s.pending]
    ensures var (s1, err) := Flushed(Decisions(f, 0, lines, map[]), s);
            FedFlush(f, s, TableAfter(f, 0, lines, n, map[])) == (s1, TableAfter(f, 0, lines, |lines|, map[]), err)
  {
    if s.pending != "" {
      assert lines[n] == lines[n..][0] && |lines| == n + 1;
      OfferedIsEmitted(f, 0, lines, n, map[], s.(pending := ""));
    }
  }

  lemma FlushStream(f: Feed, p: Pieces)
    requires f.around.broken == {}
    ensures var lines := p.lines + if p.tail == "" then [] else [p.tail];
            var hidden := HiddenOn(f, 0, lines, map[]);
            FedFlush(f, State(p.tail, Kept(hidden, 0, p.lines), |p.lines|), TableAfter(f, 0, lines, |p.lines|, map[]))
            == (State("", Kept(hidden, 0, lines), |lines|), TableOn(f, 0, lines, map[]), false)
  {
    var lines := p.lines + if p.tail == "" then [] else [p.tail];
    var env := Decisions(f, 0, lines, map[]);
    FlushedAll(env, p);
    FedFlushIsFlushed(f, lines, |p.lines|, State(p.tail, Kept(env.hidden, 0, p.lines), |p.lines|));
    assert lines[..|lines|] == lines;
  }

  /** Chunking independence with the deduper in place, and with whatever the other writer passes
      to it in between: after the final Flush the destination has the lines the deduper lets
      through when it is given the whole stream line by line, and the deduper's table is the
      one the whole history leaves. */
  lemma StreamThroughDeduper(f: Feed, chunks: seq<string>)
    requires f.around.broken == {}
    ensures var lines := AllLines(Concat(chunks));
            var (s, t) := FedAll(f, chunks);
            var (s1, t1, err) := FedFlush(f, s, t);
            && s1.out == Kept(HiddenOn(f, 0, lines, map[]), 0, lines)
            && s1.pending == "" && !err && t1 == TableAt(History(f, 0, lines))
  {
    var lines := AllLines(Concat(chunks));
    FedFollowsStream(f, chunks, lines);
    WritesFollowStream(Decisions(f, 0, lines, map[]), chunks);
    FlushStream(f, Cut(Concat(chunks)));
    TableOfHistory(f, 0, lines, map[]);
  }
}
