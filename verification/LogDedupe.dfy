/** Suppressing internal deadline warnings that repeat a client-visible one. */
module LogDedupe {
  import opened Backoff
  import opened Options
  import opened Sequences

  const WINDOW: int := 10 * SECOND

  // ---------- reading a line ----------

  predicate HasAt(s: string, i: nat, sub: string) {
    i + |sub| <= |s| && s[i..i + |sub|] == sub
  }

  predicate Contains(s: string, sub: string) {
    exists i :: 0 <= i <= |s| && HasAt(s, i, sub)
  }

  function SkipBlanks(s: string, i: nat): (j: nat)
    requires i <= |s|
    ensures i <= j <= |s|
    decreases |s| - i
  {
    if i < |s| && s[i] in {' ', '\t', '\n', '\r', '\U{0C}'} then SkipBlanks(s, i + 1) else i
  }

  function SkipDigits(s: string, i: nat): (j: nat)
    requires i <= |s|
    ensures i <= j <= |s|
    decreases |s| - i
  {
    if i < |s| && '0' <= s[i] <= '9' then SkipDigits(s, i + 1) else i
  }

  const KEY := "\"uqid\":"

  /** The digits of the leftmost "uqid" field at or after position `i`. */
  function QueryId(line: string, i: nat): Option<string>
    requires i <= |line|
    decreases |line| - i
  {
    if HasAt(line, i, KEY) then
      var start := SkipBlanks(line, i + |KEY|);
      var end := SkipDigits(line, start);
      if start < end then Some(line[start..end])
      else if i < |line| then QueryId(line, i + 1) else None
    else if i < |line| then QueryId(line, i + 1) else None
  }

  /** What a line is to the deduper. Only the last three kinds reach its table. */
  datatype Class = Startup | Unrelated | Boundary(id: string) | Internal(id: string) | Neutral(id: string)

  function Classify(child: string, quiet: bool, line: string): Class {
    if quiet && (child == "unbound" || child == "unbound_recursive")
       && Contains(line, " info: start of service (unbound ") then Startup
    else if child != "mosdns" || !Contains(line, "context deadline exceeded") then Unrelated
    else match QueryId(line, 0)
      case None => Unrelated
      case Some(id) =>
        if Contains(line, "\tmain_tcp\tentry err\t") || Contains(line, "\tmain_udp\tentry err\t") then Boundary(id)
        else if || Contains(line, "\tclassify_lookup\tsecondary error\t")
                || Contains(line, "\tforward_unbound\tupstream error\t")
                || Contains(line, "\trecursive_unbound\tupstream error\t") then Internal(id)
        else Neutral(id)
  }

  // ---------- the pruned table ----------

  type Table = map<string, int>

  function Pruned(t: Table, now: int): Table {
    map id | id in t && now - t[id] <= WINDOW :: t[id]
  }

  function Observed(t: Table, c: Class, now: int): (Table, bool) {
    match c
    case Startup => (t, true)
    case Unrelated => (t, false)
    case Boundary(id) => (Pruned(t, now)[id := now], false)
    case Internal(id) => (Pruned(t, now), id in Pruned(t, now) && now - Pruned(t, now)[id] <= WINDOW)
    case Neutral(_) => (Pruned(t, now), false)
  }

  /** Lines in the order in which they got the lock. The clock was read before, so the
      readings need not be in that order. */
  datatype Reading = Reading(c: Class, now: int)

  predicate Locks(r: Reading) {
    r.c.Boundary? || r.c.Internal? || r.c.Neutral?
  }

  /** The table after the lines of `h`, starting from `t`. */
  function TableAt(h: seq<Reading>, t: Table := map[]): Table
    decreases |h|
  {
    if h == [] then t else Observed(TableAt(Front(h), t), Last(h).c, Last(h).now).0
  }

  class ChildLogDeduper {
    const child: string
    const suppressStartupInfo: bool
    var boundaries: Table

    constructor (child: string, suppressStartupInfo: bool)
      ensures this.child == child && this.suppressStartupInfo == suppressStartupInfo
      ensures boundaries == map[]
    {
      this.child, this.suppressStartupInfo, boundaries := child, suppressStartupInfo, map[];
    }

    /** Deletes the expired entries one by one. */
    method Prune(now: int)
      modifies this
      ensures boundaries == Pruned(old(boundaries), now)
    {
      ghost var before := boundaries;
      var left := boundaries.Keys;
      while left != {}
        invariant left <= boundaries.Keys <= before.Keys
        invariant forall id :: id in boundaries ==> boundaries[id] == before[id]
        invariant forall id :: id in before && id !in left ==> (id in boundaries <==> now - before[id] <= WINDOW)
        decreases |left|
      {
        var id :| id in left;
        if now - boundaries[id] > WINDOW {
          boundaries := boundaries - {id};
        }
        left := left - {id};
      }
    }

    /** What the lines of another writer do to the table. */
    method Overlap(readings: seq<Reading>)
      modifies this
      ensures boundaries == TableAt(readings, old(boundaries))
    {
      var i := 0;
      while i < |readings|
        invariant 0 <= i <= |readings|
        invariant boundaries == TableAt(readings[..i], old(boundaries))
      {
        assert Front(readings[..i + 1]) == readings[..i];
        boundaries := Observed(boundaries, readings[i].c, readings[i].now).0;
        i := i + 1;
      }
      assert readings[..i] == readings;
    }

    method Suppress(line: string, now: int) returns (suppressed: bool)
      modifies this
      ensures (boundaries, suppressed)
           == Observed(old(boundaries), Classify(child, suppressStartupInfo, line), now)
    {
      match Classify(child, suppressStartupInfo, line)
      case Startup => return true;
      case Unrelated => return false;
      case Boundary(id) =>
        Prune(now);
        boundaries := boundaries[id := now];
        return false;
      case Internal(id) =>
        Prune(now);
        return id in boundaries && now - boundaries[id] <= WINDOW;
      case Neutral(_) =>
        Prune(now);
        return false;
    }
  }

  // ---------- what a history decides ----------

  /** Entry `i` is the latest boundary line of this query id. */
  ghost predicate LatestBoundary(h: seq<Reading>, i: nat, id: string) {
    && i < |h| && h[i].c == Boundary(id)
    && forall j :: i < j < |h| ==> h[j].c != Boundary(id)
  }

  /** No reading taken since was more than the window later. */
  ghost predicate NeverExpired(h: seq<Reading>, i: nat)
    requires i < |h|
  {
    forall j :: i < j < |h| && Locks(h[j]) ==> h[j].now - h[i].now <= WINDOW
  }

  ghost predicate Live(h: seq<Reading>, i: nat, id: string) {
    LatestBoundary(h, i, id) && NeverExpired(h, i)
  }

  lemma {:induction false} TableSound(h: seq<Reading>, id: string)
    requires id in TableAt(h)
    ensures exists i: nat :: Live(h, i, id) && h[i].now == TableAt(h)[id]
    decreases |h|
  {
    var n := |h| - 1;
    var front := h[..n];
    if h[n].c == Boundary(id) {
      assert Live(h, n, id);
    } else {
      TableSound(front, id);
      var i: nat :| Live(front, i, id) && front[i].now == TableAt(front)[id];
      assert Live(h, i, id);
    }
  }

  lemma {:induction false} TableComplete(h: seq<Reading>, i: nat, id: string)
    requires Live(h, i, id)
    ensures id in TableAt(h) && TableAt(h)[id] == h[i].now
    decreases |h|
  {
    var n := |h| - 1;
    if i == n {
    } else {
      var front := h[..n];
      assert Live(front, i, id);
      TableComplete(front, i, id);
      assert Locks(h[n]) ==> h[n].now - h[i].now <= WINDOW;
    }
  }

  ghost predicate Suppresses(h: seq<Reading>, id: string, now: int) {
    Observed(TableAt(h), Internal(id), now).1
  }

  /** Exactly what the pruned table decides, for readings in any order: an internal warning
      is suppressed if and only if its query's latest boundary line is at most ten seconds
      older, for this reading and for every reading taken since that line. */
  lemma SuppressedExactly(h: seq<Reading>, id: string, now: int)
    ensures Suppresses(h, id, now)
            <==> exists i: nat :: Live(h, i, id) && now - h[i].now <= WINDOW
  {
    if Suppresses(h, id, now) {
      TableSound(h, id);
    }
    if i: nat :| Live(h, i, id) && now - h[i].now <= WINDOW {
      TableComplete(h, i, id);
    }
  }

  /** What an unpruned record of the latest boundary time per query would decide. */
  ghost predicate HistorySuppresses(h: seq<Reading>, id: string, now: int) {
    exists i: nat :: LatestBoundary(h, i, id) && now - h[i].now <= WINDOW
  }

  /** Pruning and full history agree, exact condition: if and only if the query's latest
      boundary, when it is within the window of this reading, never was outside the window
      of a reading taken in between. */
  lemma PruningAgreesExactly(h: seq<Reading>, id: string, now: int)
    ensures (Suppresses(h, id, now) <==> HistorySuppresses(h, id, now))
            <==> forall i: nat :: LatestBoundary(h, i, id) && now - h[i].now <= WINDOW ==> NeverExpired(h, i)
  {
    SuppressedExactly(h, id, now);
    if i: nat :| LatestBoundary(h, i, id) && now - h[i].now <= WINDOW && !NeverExpired(h, i) {
      forall j: nat | LatestBoundary(h, j, id)
        ensures j == i
      {
      }
    }
  }

  /** Readings follow lock order, up to and including `now`. */
  ghost predicate InOrder(h: seq<Reading>, now: int) {
    forall j :: 0 <= j < |h| && Locks(h[j]) ==> h[j].now <= now
  }

  /** Pruning loses nothing when no earlier reading exceeds the current one. */
  lemma PruningRefinesHistory(h: seq<Reading>, id: string, now: int)
    requires InOrder(h, now)
    ensures Suppresses(h, id, now) <==> HistorySuppresses(h, id, now)
  {
    PruningAgreesExactly(h, id, now);
  }

  /** Behind every suppressed warning, in any order of readings, there is an earlier boundary
      line of the same query, at most ten seconds older. Whether that line also reached a
      destination is the subject of module LogPipeline. */
  lemma SuppressedHasBoundary(h: seq<Reading>, id: string, now: int)
    requires Suppresses(h, id, now)
    ensures exists i: nat :: i < |h| && h[i].c == Boundary(id) && now - h[i].now <= WINDOW
  {
    SuppressedExactly(h, id, now);
  }

  /** Out of lock order the two decisions can differ: a reading from the future evicts a
      boundary that an earlier reading would still have matched. */
  lemma OutOfOrderDiffers(id: string, other: string, t: int, late: int, now: int)
    requires id != other && t <= now <= t + WINDOW < late
    ensures var h := [Reading(Boundary(id), t), Reading(Neutral(other), late)];
            !Suppresses(h, id, now) && HistorySuppresses(h, id, now)
  {
    var h := [Reading(Boundary(id), t), Reading(Neutral(other), late)];
    SuppressedExactly(h, id, now);
    assert Locks(h[1]);
    assert LatestBoundary(h, 0, id);
  }
}
