/** Reassembling a child's log lines from arbitrary chunks.
 *
 * The theorems hold for whatever the deduper decides: `hidden` is any set of line numbers.
 * `broken` holds the numbers of the lines whose write the destination refuses. The destination
 * is the sequence of writes it accepted.
 */
module LogStream {
  import opened Text
  import opened Selection
  import opened Sequences

  datatype Env = Env(hidden: set<nat>, broken: set<nat>)

  datatype State = State(pending: string, out: seq<string>, seen: nat)

  const START := State("", [], 0)

  // ---------- the two methods ----------

  /** One line through the deduper to the destination; the flag reports a write error. */
  function Emitted(env: Env, s: State, line: string): (State, bool) {
    var k := s.seen;
    var s1 := s.(seen := k + 1);
    if k in env.hidden then (s1, false)
    else if k in env.broken then (s1, true)
    else (s1.(out := s.out + [line]), false)
  }

  /** Emits the complete lines of the pending bytes, up to the first write error. */
  function Drained(env: Env, s: State): (State, bool)
    decreases |s.pending|
  {
    var end := IndexOf(s.pending, '\n');
    if end < 0 then (s, false)
    else
      var (s1, err) := Emitted(env, s.(pending := s.pending[end + 1..]), s.pending[..end + 1]);
      if err then (s1, true) else Drained(env, s1)
  }

  function Written(env: Env, s: State, p: string): (State, bool) {
    Drained(env, s.(pending := s.pending + p))
  }

  function Flushed(env: Env, s: State): (State, bool) {
    if s.pending == "" then (s, false) else Emitted(env, s.(pending := ""), s.pending)
  }

  // ---------- the stream seen as a whole ----------

  /** Complete lines, each with its newline, and what follows the last newline. */
  datatype Pieces = Pieces(lines: seq<string>, tail: string)

  function Push(p: Pieces, c: char): Pieces {
    if c == '\n' then Pieces(p.lines + [p.tail + [c]], "") else Pieces(p.lines, p.tail + [c])
  }

  /** Reads on, character by character. */
  function Resume(p: Pieces, s: string): Pieces {
    if s == "" then p else Push(Resume(p, Front(s)), Last(s))
  }

  function Cut(s: string): Pieces {
    Resume(Pieces([], ""), s)
  }

  function AllLines(s: string): seq<string> {
    Cut(s).lines + if Cut(s).tail == "" then [] else [Cut(s).tail]
  }

  lemma {:induction false} ResumeConcat(p: Pieces, a: string, b: string)
    ensures Resume(p, a + b) == Resume(Resume(p, a), b)
    decreases |b|
  {
    if b == "" {
      assert a + b == a;
    } else {
      var n := |b| - 1;
      ResumeConcat(p, a, b[..n]);
      assert (a + b)[..|a| + n] == a + b[..n];
    }
  }

  function Prepend(lines: seq<string>, p: Pieces): Pieces {
    Pieces(lines + p.lines, p.tail)
  }

  lemma PushPrepend(lines: seq<string>, p: Pieces, c: char)
    ensures Push(Prepend(lines, p), c) == Prepend(lines, Push(p, c))
  {
    assert lines + p.lines + [p.tail + [c]] == lines + (p.lines + [p.tail + [c]]);
  }

  lemma {:induction false} ResumePrepend(lines: seq<string>, p: Pieces, s: string)
    ensures Resume(Prepend(lines, p), s) == Prepend(lines, Resume(p, s))
    decreases |s|
  {
    if s == "" {
    } else {
      var n := |s| - 1;
      ResumePrepend(lines, p, s[..n]);
      PushPrepend(lines, Resume(p, s[..n]), s[n]);
    }
  }

  lemma {:induction false} NewlineFree(s: string)
    requires '\n' !in s
    ensures Cut(s) == Pieces([], s)
    decreases |s|
  {
    if s == "" {
    } else {
      NewlineFree(Front(s));
      assert s == Front(s) + [Last(s)];
    }
  }

  lemma {:induction false} TailNewlineFree(s: string)
    ensures '\n' !in Cut(s).tail
    decreases |s|
  {
    if s == "" {
    } else {
      TailNewlineFree(Front(s));
    }
  }

  lemma OneLine(body: string)
    requires '\n' !in body
    ensures Cut(body + ['\n']) == Pieces([body + ['\n']], "")
  {
    NewlineFree(body);
    assert (body + ['\n'])[..|body|] == body;
  }

  /** The first newline ends the first line. */
  lemma FirstLine(s: string, end: nat)
    requires end < |s| && s[end] == '\n' && '\n' !in s[..end]
    ensures Cut(s) == Prepend([s[..end + 1]], Cut(s[end + 1..]))
  {
    var body, line, rest := s[..end], s[..end + 1], s[end + 1..];
    assert line == body + ['\n'] && s == line + rest;
    OneLine(body);
    ResumeConcat(Pieces([], ""), line, rest);
    ResumePrepend([line], Pieces([], ""), rest);
    assert Prepend([line], Pieces([], "")) == Pieces([line], "");
  }

  lemma {:induction false} ConcatSnoc(lines: seq<string>, line: string)
    ensures Concat(lines + [line]) == Concat(lines) + line
  {
    assert (lines + [line])[..|lines|] == lines;
  }

  /** Every line ends in its newline and has no other. */
  lemma {:induction false} LinesWhole(s: string, i: nat)
    requires i < |Cut(s).lines|
    ensures var line := Cut(s).lines[i]; line != "" && Last(line) == '\n' && '\n' !in Front(line)
    decreases |s|
  {
    TailNewlineFree(Front(s));
    if i < |Cut(Front(s)).lines| {
      LinesWhole(Front(s), i);
    } else {
      assert Cut(s).lines[i] == Cut(Front(s)).tail + ['\n'];
    }
  }

  /** The lines and the tail put together are the stream: cutting neither loses nor invents
      a character. */
  lemma {:induction false} NothingInvented(s: string)
    ensures Concat(Cut(s).lines) + Cut(s).tail == s
    decreases |s|
  {
    if s == "" {
    } else {
      var p, c := Cut(Front(s)), Last(s);
      NothingInvented(Front(s));
      ConcatSnoc(p.lines, p.tail + [c]);
      assert s == Front(s) + [c];
      assert Concat(p.lines) + (p.tail + [c]) == (Concat(p.lines) + p.tail) + [c];
    }
  }

  /** Cutting a stream anywhere: the second part continues the first part's tail. */
  lemma CutConcat(a: string, b: string)
    ensures Cut(a + b) == Prepend(Cut(a).lines, Cut(Cut(a).tail + b))
  {
    var p := Cut(a);
    ResumeConcat(Pieces([], ""), a, b);
    TailNewlineFree(a);
    NewlineFree(p.tail);
    ResumeConcat(Pieces([], ""), p.tail, b);
    ResumePrepend(p.lines, Pieces([], p.tail), b);
    assert Prepend(p.lines, Pieces([], p.tail)) == p;
  }

  // ---------- one Write ----------

  function Concat(chunks: seq<string>): string {
    if chunks == [] then "" else Concat(Front(chunks)) + Last(chunks)
  }

  /** The lines that do not reach the destination. */
  function Dropped(env: Env): set<nat> {
    env.hidden + env.broken
  }

  /** `after` has taken some of the lines of `before`, from the front: those not dropped are at
      the destination, and the other lines and the tail are still pending. */
  predicate TookInOrder(env: Env, before: State, after: State) {
    var p, taken := Cut(before.pending), after.seen - before.seen;
    && 0 <= taken <= |p.lines|
    && Cut(after.pending) == Pieces(p.lines[taken..], p.tail)
    && after.out == before.out + Kept(Dropped(env), before.seen, p.lines[..taken])
  }

  /** The first line of the pending bytes, and the bytes after it. */
  predicate NextLine(pending: string, line: string, rest: string) {
    pending == line + rest && line != "" && IndexOf(pending, '\n') == |line| - 1
  }

  lemma NextLineCut(pending: string, line: string, rest: string)
    requires NextLine(pending, line, rest)
    ensures Cut(pending) == Prepend([line], Cut(rest))
  {
    assert pending[..|line|] == line && pending[|line|..] == rest;
    FirstLine(pending, |line| - 1);
  }

  /** One round of the loop of `Write`. */
  lemma DrainRound(env: Env, s: State, line: string, rest: string)
    requires NextLine(s.pending, line, rest)
    ensures var (s1, err) := Emitted(env, s.(pending := rest), line);
            Drained(env, s) == if err then (s1, true) else Drained(env, s1)
  {
    assert s.pending[..|line|] == line && s.pending[|line|..] == rest;
  }

  lemma TookNone(env: Env, s: State)
    ensures TookInOrder(env, s, s)
  {
    assert s.out + [] == s.out;
  }

  lemma KeptFirst(env: Env, s: State, line: string, rest: string, more: seq<string>)
    ensures Emitted(env, s.(pending := rest), line).0.out + Kept(Dropped(env), s.seen + 1, more)
         == s.out + Kept(Dropped(env), s.seen, [line] + more)
  {
    KeptOne(Dropped(env), s.seen, line);
    KeptOnto(Dropped(env), s.seen, s.out, [line], more);
    assert s.out + [] == s.out;
  }

  lemma TookFirst(env: Env, s: State, s2: State, line: string, rest: string)
    requires NextLine(s.pending, line, rest)
    requires TookInOrder(env, Emitted(env, s.(pending := rest), line).0, s2)
    ensures TookInOrder(env, s, s2)
  {
    NextLineCut(s.pending, line, rest);
    var lines, taken := Cut(rest).lines, s2.seen - s.seen - 1;
    assert Cut(s.pending).lines == [line] + lines;
    DropFirst(line, lines, taken);
    assert ([line] + lines)[..taken + 1] == [line] + lines[..taken];
    KeptFirst(env, s, line, rest, lines[..taken]);
  }

  /** Even when the destination fails, lines are taken strictly in order, none twice and
      none skipped: what stays pending is exactly the lines not yet taken and the tail, and
      without an error no complete line is left. */
  lemma {:induction false} DrainTakesInOrder(env: Env, s: State)
    ensures TookInOrder(env, s, Drained(env, s).0)
    ensures Drained(env, s).1 || Cut(Drained(env, s).0.pending).lines == []
    ensures env.broken == {} ==> !Drained(env, s).1
    decreases |s.pending|
  {
    var end := IndexOf(s.pending, '\n');
    if end < 0 {
      NewlineFree(s.pending);
      TookNone(env, s);
    } else {
      var line, rest := s.pending[..end + 1], s.pending[end + 1..];
      assert NextLine(s.pending, line, rest);
      DrainRound(env, s, line, rest);
      var (s1, err) := Emitted(env, s.(pending := rest), line);
      if err {
        TookNone(env, s1);
      } else {
        DrainTakesInOrder(env, s1);
      }
      TookFirst(env, s, Drained(env, s).0, line, rest);
    }
  }

  // ---------- chunking independence ----------

  function WrittenAll(env: Env, chunks: seq<string>): State {
    if chunks == [] then START
    else Written(env, WrittenAll(env, Front(chunks)), Last(chunks)).0
  }

  /** The writer has taken the first `seen` lines of the stream `p` and has the others and the
      tail pending. */
  predicate UpTo(env: Env, s: State, p: Pieces) {
    && s.seen <= |p.lines|
    && s.out == Kept(Dropped(env), 0, p.lines[..s.seen])
    && Cut(s.pending) == Pieces(p.lines[s.seen..], p.tail)
  }

  lemma UpToMore(env: Env, s: State, before: string, p: string)
    requires UpTo(env, s, Cut(before))
    ensures UpTo(env, s.(pending := s.pending + p), Cut(before + p))
  {
    CutConcat(before, p);
    CutConcat(s.pending, p);
    SplitInFirst(Cut(before).lines, Cut(Cut(before).tail + p).lines, s.seen);
  }

  lemma UpToTaken(env: Env, s: State, s1: State, p: Pieces)
    requires UpTo(env, s, p) && TookInOrder(env, s, s1)
    ensures UpTo(env, s1, p)
  {
    var lines, taken := p.lines, s1.seen - s.seen;
    assert lines[s.seen..][taken..] == lines[s1.seen..];
    assert lines[..s1.seen] == lines[..s.seen] + lines[s.seen..][..taken];
    KeptConcat(Dropped(env), 0, lines[..s.seen], lines[s.seen..][..taken]);
  }

  lemma WriteFollows(env: Env, s: State, before: string, p: string)
    requires UpTo(env, s, Cut(before))
    ensures var (s1, err) := Written(env, s, p);
            && UpTo(env, s1, Cut(before + p))
            && (err || s1.seen == |Cut(before + p).lines|)
            && (env.broken == {} ==> !err)
  {
    var s0 := s.(pending := s.pending + p);
    UpToMore(env, s, before, p);
    DrainTakesInOrder(env, s0);
    UpToTaken(env, s0, Drained(env, s0).0, Cut(before + p));
  }

  /** After any Writes, whatever the destination refuses: the writer has taken a prefix of the
      lines of the stream so far, the destination has those of them that were neither hidden
      nor refused, and what is pending is exactly the rest of the stream. Without refusals
      that rest is its newline-free tail. */
  lemma {:induction false} WritesFollowStream(env: Env, chunks: seq<string>)
    ensures var s, p := WrittenAll(env, chunks), Cut(Concat(chunks));
            && UpTo(env, s, p)
            && s.pending == Concat(p.lines[s.seen..]) + p.tail
            && (env.broken == {} ==> s == State(p.tail, Kept(env.hidden, 0, p.lines), |p.lines|))
    decreases |chunks|
  {
    var s, p := WrittenAll(env, chunks), Cut(Concat(chunks));
    if chunks == [] {
    } else {
      WritesFollowStream(env, Front(chunks));
      WriteFollows(env, WrittenAll(env, Front(chunks)), Concat(Front(chunks)), Last(chunks));
    }
    NothingInvented(s.pending);
    if env.broken == {} {
      AllTaken(env, s, p);
    }
  }

  lemma AllTaken(env: Env, s: State, p: Pieces)
    requires UpTo(env, s, p) && s.seen == |p.lines| && env.broken == {}
    requires s.pending == Concat(p.lines[s.seen..]) + p.tail
    ensures s == State(p.tail, Kept(env.hidden, 0, p.lines), |p.lines|)
  {
    assert p.lines[..s.seen] == p.lines && p.lines[s.seen..] == [];
    assert Dropped(env) == env.hidden;
  }

  lemma FlushedAll(env: Env, p: Pieces)
    requires env.broken == {}
    ensures var lines := p.lines + if p.tail == "" then [] else [p.tail];
            Flushed(env, State(p.tail, Kept(env.hidden, 0, p.lines), |p.lines|))
            == (State("", Kept(env.hidden, 0, lines), |lines|), false)
  {
    var kept := Kept(env.hidden, 0, p.lines);
    assert kept == kept + [];
    if p.tail == "" {
      assert p.lines + [] == p.lines;
    }
    KeptSnoc(env.hidden, 0, p.lines, p.tail);
  }

  /** Chunking independence: however a stream is cut into Write calls, after the final Flush
      the destination has exactly the unsuppressed lines of the whole stream, in order. */
  lemma ChunkingIndependent(env: Env, chunks: seq<string>)
    requires env.broken == {}
    ensures var s := Flushed(env, WrittenAll(env, chunks)).0;
            s.out == Kept(env.hidden, 0, AllLines(Concat(chunks))) && s.pending == ""
  {
    WritesFollowStream(env, chunks);
    FlushedAll(env, Cut(Concat(chunks)));
  }
}
