/** Which log lines are suppressed, in terms of their text.
 *
 * Nothing here is defined through the classification of the deduper; the lemmas say what it
 * amounts to.
 */
module LogLines {
  import opened Options
  import opened Sequences
  import opened LogDedupe

  // ---------- the query id ----------

  predicate BlankChar(c: char) {
    c == ' ' || c == '\t' || c == '\n' || c == '\r' || c == '\U{0C}'
  }

  predicate Digit(c: char) {
    '0' <= c <= '9'
  }

  /** At position `i` stands a field "uqid": followed by blanks up to `a` and by the digits up to
      `b`, at least one and as many as there are. */
  ghost predicate IdField(line: string, i: nat, a: nat, b: nat) {
    && i + 7 <= a < b <= |line| && line[i..i + 7] == "\"uqid\":"
    && (forall k :: i + 7 <= k < a ==> BlankChar(line[k]))
    && (forall k :: a <= k < b ==> Digit(line[k]))
    && (b < |line| ==> !Digit(line[b]))
  }

  /** The digits of the leftmost such field. */
  ghost predicate HasId(line: string, id: string) {
    exists i: nat, a: nat, b: nat ::
      && IdField(line, i, a, b) && id == line[a..b]
      && forall j: nat, c: nat, d: nat :: IdField(line, j, c, d) ==> i <= j
  }

  lemma {:induction false} SkipsBlanks(line: string, i: nat)
    requires i <= |line|
    ensures var a := SkipBlanks(line, i);
            && (forall k :: i <= k < a ==> BlankChar(line[k]))
            && (a < |line| ==> !BlankChar(line[a]))
    decreases |line| - i
  {
    if i < |line| && BlankChar(line[i]) {
      SkipsBlanks(line, i + 1);
    } else {
    }
  }

  lemma {:induction false} SkipsDigits(line: string, i: nat)
    requires i <= |line|
    ensures var b := SkipDigits(line, i);
            && (forall k :: i <= k < b ==> Digit(line[k]))
            && (b < |line| ==> !Digit(line[b]))
    decreases |line| - i
  {
    if i < |line| && Digit(line[i]) {
      SkipsDigits(line, i + 1);
    } else {
    }
  }

  function Start(line: string, i: nat): nat
    requires i + 7 <= |line|
  {
    SkipBlanks(line, i + 7)
  }

  /** The field at a position, if there is one, is the one the skips find. */
  lemma FieldAt(line: string, i: nat)
    requires i + 7 <= |line|
    ensures var a := Start(line, i);
            var b := SkipDigits(line, a);
            && (HasAt(line, i, KEY) && a < b <==> IdField(line, i, a, b))
            && forall c: nat, d: nat :: IdField(line, i, c, d) ==> c == a && d == b
  {
    var a := Start(line, i);
    var b := SkipDigits(line, a);
    SkipsBlanks(line, i + 7);
    SkipsDigits(line, a);
    forall c: nat, d: nat | IdField(line, i, c, d)
      ensures c == a && d == b
    {
      assert Digit(line[c]) && !BlankChar(line[c]);
    }
  }

  lemma {:induction false} QueryIdFrom(line: string, i: nat)
    requires i <= |line| && forall j: nat, c: nat, d: nat :: IdField(line, j, c, d) ==> i <= j
    ensures match QueryId(line, i)
            case Some(id) => HasId(line, id)
            case None => forall j: nat, c: nat, d: nat :: !IdField(line, j, c, d)
    decreases |line| - i
  {
    if i + 7 <= |line| {
      FieldAt(line, i);
    }
    if HasAt(line, i, KEY) && Start(line, i) < SkipDigits(line, Start(line, i)) {
      var a := Start(line, i);
      assert IdField(line, i, a, SkipDigits(line, a));
    } else if i < |line| {
      QueryIdFrom(line, i + 1);
    }
  }

  /** The id of a line is that of the leftmost field, and a line without a field has none. */
  lemma QueryIdExactly(line: string)
    ensures forall id :: QueryId(line, 0) == Some(id) <==> HasId(line, id)
  {
    QueryIdFrom(line, 0);
    forall id | HasId(line, id)
      ensures QueryId(line, 0) == Some(id)
    {
      var i: nat, a: nat, b: nat :|
        && IdField(line, i, a, b) && id == line[a..b]
        && forall j: nat, c: nat, d: nat :: IdField(line, j, c, d) ==> i <= j;
      var found := QueryId(line, 0).value;
      var i': nat, a': nat, b': nat :|
        && IdField(line, i', a', b') && found == line[a'..b']
        && forall j: nat, c: nat, d: nat :: IdField(line, j, c, d) ==> i' <= j;
      FieldAt(line, i);
    }
  }

  // ---------- the kinds of lines ----------

  predicate StandsAt(line: string, i: nat, text: string) {
    i + |text| <= |line| && line[i..i + |text|] == text
  }

  predicate Says(line: string, text: string) {
    exists i: nat :: i <= |line| && StandsAt(line, i, text)
  }

  predicate Deadline(line: string) {
    Says(line, "context deadline exceeded")
  }

  /** Visible to the client: the request itself failed. */
  predicate EntryError(line: string) {
    Says(line, "\tmain_tcp\tentry err\t") || Says(line, "\tmain_udp\tentry err\t")
  }

  predicate InternalError(line: string) {
    || Says(line, "\tclassify_lookup\tsecondary error\t")
    || Says(line, "\tforward_unbound\tupstream error\t")
    || Says(line, "\trecursive_unbound\tupstream error\t")
  }

  /** A deadline line of some query: the lines that the deduper looks at. */
  ghost predicate Tracked(line: string, id: string) {
    Deadline(line) && HasId(line, id)
  }

  ghost predicate TrackedAtAll(line: string) {
    exists id :: Tracked(line, id)
  }

  predicate QuietStart(child: string, quiet: bool, line: string) {
    && quiet && (child == "unbound" || child == "unbound_recursive")
    && Says(line, " info: start of service (unbound ")
  }

  lemma SaysExactly(line: string, text: string)
    ensures Contains(line, text) <==> Says(line, text)
  {
    if Contains(line, text) {
      var i :| 0 <= i <= |line| && HasAt(line, i, text);
      assert StandsAt(line, i, text);
    }
    if Says(line, text) {
      var i: nat :| i <= |line| && StandsAt(line, i, text);
      assert HasAt(line, i, text);
    }
  }

  lemma SaysAll(line: string)
    ensures Contains(line, "context deadline exceeded") <==> Deadline(line)
    ensures (Contains(line, "\tmain_tcp\tentry err\t") || Contains(line, "\tmain_udp\tentry err\t"))
            <==> EntryError(line)
    ensures (|| Contains(line, "\tclassify_lookup\tsecondary error\t")
             || Contains(line, "\tforward_unbound\tupstream error\t")
             || Contains(line, "\trecursive_unbound\tupstream error\t"))
            <==> InternalError(line)
    ensures Contains(line, " info: start of service (unbound ") <==> Says(line, " info: start of service (unbound ")
  {
    SaysExactly(line, "context deadline exceeded");
    SaysExactly(line, "\tmain_tcp\tentry err\t");
    SaysExactly(line, "\tmain_udp\tentry err\t");
    SaysExactly(line, "\tclassify_lookup\tsecondary error\t");
    SaysExactly(line, "\tforward_unbound\tupstream error\t");
    SaysExactly(line, "\trecursive_unbound\tupstream error\t");
    SaysExactly(line, " info: start of service (unbound ");
  }

  /** Every line, exactly: quiet start-up lines of Unbound; and of MosDNS, the deadline lines with
      an id, which are entry errors, internal errors that are not entry errors, or others. */
  lemma ClassifiedExactly(child: string, quiet: bool, line: string, id: string)
    ensures var c := Classify(child, quiet, line);
            && (c.Startup? <==> QuietStart(child, quiet, line))
            && (c == Boundary(id) <==> child == "mosdns" && Tracked(line, id) && EntryError(line))
            && (c == Internal(id) <==>
                  child == "mosdns" && Tracked(line, id) && !EntryError(line) && InternalError(line))
            && (c == Neutral(id) <==>
                  child == "mosdns" && Tracked(line, id) && !EntryError(line) && !InternalError(line))
  {
    SaysAll(line);
    QueryIdExactly(line);
  }

  // ---------- what is suppressed ----------

  /** A line with the clock reading taken for it. */
  datatype Stamped = Stamped(line: string, now: int)

  function ReadingsOf(child: string, quiet: bool, ls: seq<Stamped>): (h: seq<Reading>)
    ensures |h| == |ls|
    ensures forall i :: 0 <= i < |ls| ==> h[i] == Reading(Classify(child, quiet, ls[i].line), ls[i].now)
  {
    seq(|ls|, i requires 0 <= i < |ls| => Reading(Classify(child, quiet, ls[i].line), ls[i].now))
  }

  /** What a deduper that has been given the lines `ls` decides about one more line. */
  predicate Hides(child: string, quiet: bool, ls: seq<Stamped>, line: string, now: int) {
    Observed(TableAt(ReadingsOf(child, quiet, ls)), Classify(child, quiet, line), now).1
  }

  const TEN_SECONDS := 10_000_000_000

  /** Line `i` is the latest entry error of the query, and no line tracked since came more than ten
      seconds after it. */
  ghost predicate LiveEntry(ls: seq<Stamped>, i: nat, id: string) {
    && i < |ls| && Tracked(ls[i].line, id) && EntryError(ls[i].line)
    && (forall j :: i < j < |ls| ==> !(Tracked(ls[j].line, id) && EntryError(ls[j].line)))
    && (forall j :: i < j < |ls| && TrackedAtAll(ls[j].line) ==> ls[j].now - ls[i].now <= TEN_SECONDS)
  }

  lemma LocksExactly(quiet: bool, line: string, now: int)
    ensures Locks(Reading(Classify("mosdns", quiet, line), now)) <==> TrackedAtAll(line)
  {
    var c := Classify("mosdns", quiet, line);
    if Locks(Reading(c, now)) {
      ClassifiedExactly("mosdns", quiet, line, c.id);
      assert Tracked(line, c.id);
    }
    if id :| Tracked(line, id) {
      ClassifiedExactly("mosdns", quiet, line, id);
    }
  }

  lemma ReadingExactly(quiet: bool, ls: seq<Stamped>, j: nat, id: string)
    requires j < |ls|
    ensures var r := ReadingsOf("mosdns", quiet, ls)[j];
            && r.now == ls[j].now
            && (r.c == Boundary(id) <==> Tracked(ls[j].line, id) && EntryError(ls[j].line))
            && (Locks(r) <==> TrackedAtAll(ls[j].line))
  {
    ClassifiedExactly("mosdns", quiet, ls[j].line, id);
    LocksExactly(quiet, ls[j].line, ls[j].now);
  }

  lemma LiveExactly(quiet: bool, ls: seq<Stamped>, i: nat, id: string)
    ensures Live(ReadingsOf("mosdns", quiet, ls), i, id) <==> LiveEntry(ls, i, id)
  {
    var h := ReadingsOf("mosdns", quiet, ls);
    forall j: nat | j < |ls|
      ensures && h[j].now == ls[j].now
              && (h[j].c == Boundary(id) <==> Tracked(ls[j].line, id) && EntryError(ls[j].line))
              && (Locks(h[j]) <==> TrackedAtAll(ls[j].line))
    {
      ReadingExactly(quiet, ls, j, id);
    }
    SameLive(h, ls, i, id);
  }

  lemma SameLive(h: seq<Reading>, ls: seq<Stamped>, i: nat, id: string)
    requires |h| == |ls|
    requires forall j: nat :: j < |ls| ==>
               && h[j].now == ls[j].now
               && (h[j].c == Boundary(id) <==> Tracked(ls[j].line, id) && EntryError(ls[j].line))
               && (Locks(h[j]) <==> TrackedAtAll(ls[j].line))
    ensures Live(h, i, id) <==> LiveEntry(ls, i, id)
  {
  }

  /** Suppressed lines of MosDNS, exactly: internal deadline lines, not also entry errors, for
      whose query an entry error went before that is live and at most ten seconds older. */
  lemma HiddenLinesExactly(quiet: bool, ls: seq<Stamped>, line: string, now: int)
    ensures Hides("mosdns", quiet, ls, line, now)
            <==> !EntryError(line) && InternalError(line)
                 && exists id: string, i: nat ::
                      Tracked(line, id) && LiveEntry(ls, i, id) && now - ls[i].now <= TEN_SECONDS
  {
    var h, c := ReadingsOf("mosdns", quiet, ls), Classify("mosdns", quiet, line);
    if c.Internal? {
      SuppressedExactly(h, c.id, now);
      ClassifiedExactly("mosdns", quiet, line, c.id);
    }
    if Hides("mosdns", quiet, ls, line, now) {
      ClassifiedExactly("mosdns", quiet, line, "");
      var i: nat :| Live(h, i, c.id) && now - h[i].now <= WINDOW;
      LiveExactly(quiet, ls, i, c.id);
    }
    if id: string, i: nat :|
      !EntryError(line) && InternalError(line) && Tracked(line, id) && LiveEntry(ls, i, id)
      && now - ls[i].now <= TEN_SECONDS
    {
      ClassifiedExactly("mosdns", quiet, line, id);
      LiveExactly(quiet, ls, i, id);
      assert Live(h, i, id) && now - h[i].now <= WINDOW;
    }
  }

  /** An entry error is never suppressed, and of another child nothing but quiet start-up lines. */
  lemma NeverHidden(child: string, quiet: bool, ls: seq<Stamped>, line: string, now: int)
    ensures child == "mosdns" && EntryError(line) ==> !Hides(child, quiet, ls, line, now)
    ensures child != "mosdns" ==> (Hides(child, quiet, ls, line, now) <==> QuietStart(child, quiet, line))
  {
    var c := Classify(child, quiet, line);
    ClassifiedExactly(child, quiet, line, if c.Boundary? || c.Internal? || c.Neutral? then c.id else "");
  }
}
