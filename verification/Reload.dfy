/** The rule file that rewrites itself: `reload`, `restoreOrClear` and the watch loop.
 *
 * A reload is one step. Reading, building the matcher and writing the file may each fail;
 * a write is all-or-nothing. The matcher is the list of rules it was built from.
 */
module Reload {
  import opened Options
  import opened Rules
  import opened Sequences

  /** `disk` is the file, None when it does not exist. */
  datatype Store = Store(disk: Option<string>, matcher: Option<seq<string>>, lastGood: string, loaded: bool)

  datatype Faults = Faults(read: bool, build: bool, write: bool)

  const NO_FAULTS := Faults(false, false, false)

  datatype Outcome = Outcome(store: Store, ok: bool, wrote: bool)

  /** An atomic write followed by an update of the in-memory state. */
  function WriteThen(s: Store, data: string, f: Faults, after: Store): Outcome {
    if f.write then Outcome(s, false, false)
    else Outcome(after.(disk := Some(data)), true, true)
  }

  function RestoredOrCleared(s: Store, f: Faults): Outcome {
    if s.loaded then WriteThen(s, s.lastGood, f, s)
    else if f.write then Outcome(s, false, false)
    else if f.build then Outcome(s.(disk := Some("")), false, true)
    else Outcome(Store(Some(""), Some([]), "", true), true, true)
  }

  /** A reload that has read `raw` and sanitized it to `r`. */
  function Applied(s: Store, raw: string, r: Sanitized, f: Faults): Outcome {
    match r
    case TooLarge => RestoredOrCleared(s, f)
    case Clean(p, cleaned) =>
      if p.meaningful > 0 && p.rules == [] && s.loaded then WriteThen(s, s.lastGood, f, s)
      else if f.build then Outcome(s, false, false)
      else
        var after := Store(s.disk, Some(p.rules), cleaned, true);
        if raw == cleaned then Outcome(after, true, false)
        else WriteThen(s, cleaned, f, after)
  }

  function Reloaded(lang: Lang, s: Store, f: Faults): Outcome {
    if f.read then Outcome(s, false, false)
    else match s.disk
      case None => RestoredOrCleared(s, f)
      case Some(raw) => Applied(s, raw, Sanitize(lang, raw), f)
  }

  class RuleFile {
    var disk: Option<string>
    var matcher: Option<seq<string>>
    var lastGood: string
    var loaded: bool

    ghost function State(): Store
      reads this
    {
      Store(disk, matcher, lastGood, loaded)
    }

    constructor (disk: Option<string>)
      ensures State() == Store(disk, None, "", false)
    {
      this.disk, matcher, lastGood, loaded := disk, None, "", false;
    }

    method WriteFileAtomic(data: string, fails: bool) returns (ok: bool)
      modifies this`disk
      ensures ok == !fails
      ensures disk == if ok then Some(data) else old(disk)
    {
      if fails {
        return false;
      }
      disk := Some(data);
      return true;
    }

    method RestoreOrClear(f: Faults) returns (ok: bool, wrote: bool)
      modifies this
      ensures Outcome(State(), ok, wrote) == RestoredOrCleared(old(State()), f)
    {
      if loaded {
        ok := WriteFileAtomic(lastGood, f.write);
        return ok, ok;
      }
      ok := WriteFileAtomic("", f.write);
      wrote := ok;
      if !ok {
        return;
      }
      if f.build {
        return false, wrote;
      }
      matcher := Some([]);
      lastGood := "";
      loaded := true;
    }

    method Reload(lang: Lang, f: Faults) returns (ok: bool, wrote: bool)
      modifies this
      ensures Outcome(State(), ok, wrote) == Reloaded(lang, old(State()), f)
    {
      if f.read {
        return false, false;
      }
      if disk.None? {
        ok, wrote := RestoreOrClear(f);
        return;
      }
      var raw := disk.value;
      var r := SanitizeRules(lang, raw);
      if r.TooLarge? {
        ok, wrote := RestoreOrClear(f);
        return;
      }
      var rules, cleaned := r.parsed.rules, r.cleaned;
      if r.parsed.meaningful > 0 && rules == [] && loaded {
        ok := WriteFileAtomic(lastGood, f.write);
        return ok, ok;
      }
      if f.build {
        return false, false;
      }
      wrote := false;
      if raw != cleaned {
        ok := WriteFileAtomic(cleaned, f.write);
        if !ok {
          return;
        }
        wrote := true;
      }
      matcher := Some(rules);
      lastGood := cleaned;
      loaded := true;
      ok := true;
    }
  }

  // ---------- the invariant linking matcher and last good file ----------

  /** The matcher holds exactly the rules of `lastGood`, and `lastGood` is in printed form. */
  predicate LinkedTo(lang: Lang, matcher: Option<seq<string>>, lastGood: string) {
    var p := Parse(lang, lastGood);
    matcher == Some(p.rules) && Print(p.rules) == lastGood && p.rejected == 0
  }

  predicate Linked(lang: Lang, s: Store) {
    if s.loaded then LinkedTo(lang, s.matcher, s.lastGood) else s.matcher == None && s.lastGood == ""
  }

  predicate Agrees(s: Store) {
    s.loaded && s.disk == Some(s.lastGood)
  }

  lemma PrintedIsLinked(lang: Lang, raw: string)
    ensures var rules := Parse(lang, raw).rules; LinkedTo(lang, Some(rules), Print(rules))
  {
    FixedPoint(lang, raw);
  }

  lemma EmptyIsLinked(lang: Lang)
    ensures LinkedTo(lang, Some([]), "")
  {
    PrintParse(lang, []);
  }

  lemma RestoreAgrees(lang: Lang, s: Store, f: Faults)
    requires Linked(lang, s)
    ensures var o := RestoredOrCleared(s, f);
            Linked(lang, o.store) && (o.ok ==> Agrees(o.store))
  {
    EmptyIsLinked(lang);
  }

  lemma WriteThenAgrees(lang: Lang, s: Store, data: string, f: Faults, after: Store)
    requires Linked(lang, s) && Linked(lang, after) && after.loaded && after.lastGood == data
    ensures var o := WriteThen(s, data, f, after);
            Linked(lang, o.store) && (o.ok ==> Agrees(o.store))
  {
  }

  lemma AppliedAgrees(lang: Lang, s: Store, raw: string, r: Sanitized, f: Faults)
    requires Linked(lang, s) && s.disk == Some(raw)
    requires r.Clean? ==> LinkedTo(lang, Some(r.parsed.rules), r.cleaned)
    ensures var o := Applied(s, raw, r, f);
            Linked(lang, o.store) && (o.ok ==> Agrees(o.store))
  {
    match r
    case TooLarge => RestoreAgrees(lang, s, f);
    case Clean(p, cleaned) =>
      if s.loaded {
        WriteThenAgrees(lang, s, s.lastGood, f, s);
      }
      WriteThenAgrees(lang, s, cleaned, f, Store(s.disk, Some(p.rules), cleaned, true));
  }

  /** Agreement: every reload, whatever fails in it, keeps matcher and last good file
      linked, and every successful one leaves the file equal to the last good one. */
  lemma ReloadAgrees(lang: Lang, s: Store, f: Faults)
    requires Linked(lang, s)
    ensures var o := Reloaded(lang, s, f);
            Linked(lang, o.store) && (o.ok ==> Agrees(o.store))
  {
    RestoreAgrees(lang, s, f);
    if s.disk.Some? {
      PrintedIsLinked(lang, s.disk.value);
      AppliedAgrees(lang, s, s.disk.value, Sanitize(lang, s.disk.value), f);
    }
  }

  /** The last good file, read again, sanitizes to itself, unless it is over the cap. */
  lemma LastGoodSanitizes(lang: Lang, matcher: Option<seq<string>>, lastGood: string)
    requires LinkedTo(lang, matcher, lastGood)
    ensures Sanitize(lang, lastGood)
         == if |lastGood| > MAX_RULE_FILE_BYTES then TooLarge
            else Clean(Parsed(matcher.value, |matcher.value|, 0), lastGood)
  {
    ParseFacts(lang, lastGood);
  }

  lemma AppliedToLastGood(s: Store, r: Sanitized)
    requires s.loaded && s.matcher.Some? && s.disk == Some(s.lastGood)
    requires r.TooLarge? || r == Clean(Parsed(s.matcher.value, |s.matcher.value|, 0), s.lastGood)
    ensures Applied(s, s.lastGood, r, NO_FAULTS) == Outcome(s, true, r.TooLarge?)
  {
  }

  /** Once the file agrees with the last good one, a reload is a no-op exactly when that
      file is within the size cap; above the cap every reload writes it again. */
  lemma QuietExactly(lang: Lang, s: Store)
    requires Linked(lang, s) && Agrees(s)
    ensures Reloaded(lang, s, NO_FAULTS) == Outcome(s, true, |s.lastGood| > MAX_RULE_FILE_BYTES)
  {
    LastGoodSanitizes(lang, s.matcher, s.lastGood);
    AppliedToLastGood(s, Sanitize(lang, s.lastGood));
  }

  // ---------- the watch loop ----------

  /** `armed`: a change of the file has been noticed and the debounce timer runs. */
  datatype Watch = Watch(store: Store, armed: bool)

  /** An edit by somebody else that lands between a reload's read and its write. */
  datatype Race = Quiet | Racing(content: Option<string>)

  datatype Event =
    | Edit(content: Option<string>)  // somebody else writes, replaces or removes the file
    | Fire(f: Faults, race: Race)    // the debounce timer fires and the file is reloaded

  predicate Enabled(w: Watch, e: Event) {
    e.Fire? ==> w.armed
  }

  function Raced(o: Outcome, race: Race): Watch {
    match race
    case Quiet => Watch(o.store, o.wrote)
    case Racing(content) => Watch(if o.wrote then o.store else o.store.(disk := content), true)
  }

  /** A write of our own is noticed by the watcher like anybody else's, and it overwrites an
      edit that raced it. */
  function Step(lang: Lang, w: Watch, e: Event): Watch
    requires Enabled(w, e)
  {
    match e
    case Edit(content) => Watch(w.store.(disk := content), true)
    case Fire(f, race) => Raced(Reloaded(lang, w.store, f), race)
  }

  const RELOAD := Fire(NO_FAULTS, Quiet)

  predicate ValidRun(lang: Lang, w: Watch, es: seq<Event>)
    decreases |es|, 0
  {
    es == [] || (ValidRun(lang, w, Front(es)) && Enabled(After(lang, w, Front(es)), Last(es)))
  }

  function After(lang: Lang, w: Watch, es: seq<Event>): Watch
    requires ValidRun(lang, w, es)
    decreases |es|, 1
  {
    if es == [] then w else Step(lang, After(lang, w, Front(es)), Last(es))
  }

  /** The plugin starts watching only after a first reload has succeeded. */
  predicate Started(lang: Lang, w: Watch) {
    Linked(lang, w.store) && Agrees(w.store)
  }

  lemma StartEstablishes(lang: Lang, disk: Option<string>, f: Faults)
    requires Reloaded(lang, Store(disk, None, "", false), f).ok
    ensures Started(lang, Watch(Reloaded(lang, Store(disk, None, "", false), f).store, false))
  {
    ReloadAgrees(lang, Store(disk, None, "", false), f);
  }

  ghost predicate Flawless(es: seq<Event>) {
    forall i :: 0 <= i < |es| && es[i].Fire? ==> es[i].f == NO_FAULTS
  }

  lemma FaultFreeSucceeds(lang: Lang, s: Store)
    ensures Reloaded(lang, s, NO_FAULTS).ok
  {
  }

  lemma StaysLoaded(lang: Lang, s: Store, f: Faults)
    requires s.loaded
    ensures Reloaded(lang, s, f).store.loaded
  {
  }

  lemma RacedAgrees(lang: Lang, o: Outcome, race: Race)
    requires o.store.loaded && Linked(lang, o.store) && (o.ok ==> Agrees(o.store))
    ensures var w := Raced(o, race);
            w.store.loaded && Linked(lang, w.store) && (o.ok && !w.armed ==> Agrees(w.store))
  {
  }

  /** One event: the link is kept, a fault-free reload that leaves the watcher idle leaves the
      file agreeing with the last good one, and an edit arms the watcher. */
  lemma AgreementStep(lang: Lang, w: Watch, e: Event)
    requires w.store.loaded && Linked(lang, w.store) && Enabled(w, e)
    ensures var w' := Step(lang, w, e);
            && w'.store.loaded && Linked(lang, w'.store)
            && (e.Fire? && e.f == NO_FAULTS && !w'.armed ==> Agrees(w'.store))
            && (e.Edit? ==> w'.armed)
  {
    match e
    case Edit(_) =>
    case Fire(f, race) =>
      ReloadAgrees(lang, w.store, f);
      FaultFreeSucceeds(lang, w.store);
      StaysLoaded(lang, w.store, f);
      RacedAgrees(lang, Reloaded(lang, w.store, f), race);
  }

  /** Over whole runs of edits and reloads: the matcher always holds exactly the rules of
      the last good file, and if no operation failed, then whenever the watcher is idle the
      file on disk is that last good file. */
  lemma {:induction false} AgreementOverRuns(lang: Lang, w: Watch, es: seq<Event>)
    requires Started(lang, w) && ValidRun(lang, w, es)
    ensures var w' := After(lang, w, es);
            && w'.store.loaded && Linked(lang, w'.store)
            && (Flawless(es) && !w'.armed ==> Agrees(w'.store))
    decreases |es|
  {
    if es == [] {
    } else {
      AgreementOverRuns(lang, w, Front(es));
      AgreementStep(lang, After(lang, w, Front(es)), Last(es));
      assert Last(es) == es[|es| - 1];
    }
  }

  /** What the loop does on its own after an edit: reload as long as it is armed. */
  function Settle(lang: Lang, w: Watch, rounds: nat): Watch
    decreases rounds
  {
    if rounds == 0 || !w.armed then w else Settle(lang, Step(lang, w, RELOAD), rounds - 1)
  }

  lemma {:induction false} SpinsForever(lang: Lang, w: Watch, rounds: nat)
    requires Linked(lang, w.store) && Agrees(w.store) && w.armed
    requires |w.store.lastGood| > MAX_RULE_FILE_BYTES
    ensures Settle(lang, w, rounds) == w
    decreases rounds
  {
    if rounds == 0 {
    } else {
      QuietExactly(lang, w.store);
      SpinsForever(lang, w, rounds - 1);
    }
  }

  /** From a state of agreement the loop stops at its next reload, or never. */
  lemma SettlesExactly(lang: Lang, w: Watch, rounds: nat)
    requires Linked(lang, w.store) && Agrees(w.store) && rounds >= 1
    requires !w.armed ==> |w.store.lastGood| <= MAX_RULE_FILE_BYTES
    ensures Settle(lang, w, rounds) == Watch(w.store, |w.store.lastGood| > MAX_RULE_FILE_BYTES)
  {
    if w.armed {
      if |w.store.lastGood| > MAX_RULE_FILE_BYTES {
        SpinsForever(lang, w, rounds);
      } else {
        QuietExactly(lang, w.store);
        var w1 := Step(lang, w, RELOAD);
        assert w1 == Watch(w.store, false);
        assert Settle(lang, w, rounds) == Settle(lang, w1, rounds - 1) == w1;
      }
    }
  }

  /** What a reload makes of a file: it is adopted when it exists, is within the cap and, once
      something is loaded, has a valid rule or nothing to parse. */
  predicate Adopted(lang: Lang, content: Option<string>, loaded: bool) {
    && content.Some? && |content.value| <= MAX_RULE_FILE_BYTES
    && var p := Parse(lang, content.value);
       p.rules != [] || p.meaningful == 0 || !loaded
  }

  /** The last good file that an edit leads to: the cleaned edit, or the previous one when the
      edit is a removal, is too large, or has lines but no valid rule. Before anything is
      loaded the previous one is empty. */
  function NextGood(lang: Lang, s: Store, content: Option<string>): string {
    if Adopted(lang, content, s.loaded) then Print(Parse(lang, content.value).rules) else s.lastGood
  }

  /** The first load, when nothing fails: a file within the cap is kept, in its cleaned form, and
      its rules are in force; the file is cleared if and only if it is missing, over the cap
      or without a valid rule. */
  lemma FirstLoad(lang: Lang, s: Store)
    requires !s.loaded && s.lastGood == ""
    ensures var o := Reloaded(lang, s, NO_FAULTS);
            && o.ok && o.store.loaded && o.store.disk == Some(o.store.lastGood)
            && (s.disk.Some? && |s.disk.value| <= MAX_RULE_FILE_BYTES ==>
                  var rules := Parse(lang, s.disk.value).rules;
                  o.store.lastGood == Print(rules) && o.store.matcher == Some(rules))
            && (o.store == Store(Some(""), Some([]), "", true) <==>
                  || s.disk.None?
                  || |s.disk.value| > MAX_RULE_FILE_BYTES
                  || Parse(lang, s.disk.value).rules == [])
            && o.store.lastGood == NextGood(lang, s, s.disk)
            && (o.wrote <==> s.disk != Some(o.store.lastGood))
  {
  }

  /** Every later load, when nothing fails: an adopted file is kept, in its cleaned form, and its
      rules are in force; any other file is replaced by the last good one. */
  lemma LaterLoad(lang: Lang, s: Store)
    requires s.loaded
    ensures var o := Reloaded(lang, s, NO_FAULTS);
            && o.ok
            && (Adopted(lang, s.disk, true) ==>
                  var rules := Parse(lang, s.disk.value).rules;
                  && o.store == Store(Some(Print(rules)), Some(rules), Print(rules), true)
                  && (o.wrote <==> s.disk != Some(Print(rules))))
            && (!Adopted(lang, s.disk, true) ==> o.store == s.(disk := Some(s.lastGood)) && o.wrote)
  {
  }

  /** The first reload after an edit installs `NextGood`, and does not write the file only if
      that is within the cap. */
  lemma FirstReload(lang: Lang, s: Store, content: Option<string>)
    requires s.loaded || s.lastGood == ""
    ensures var o := Reloaded(lang, s.(disk := content), NO_FAULTS);
            && o.ok && o.store.lastGood == NextGood(lang, s, content)
            && (!o.wrote ==> |NextGood(lang, s, content)| <= MAX_RULE_FILE_BYTES)
  {
    if s.loaded {
      LaterLoad(lang, s.(disk := content));
    } else {
      FirstLoad(lang, s.(disk := content));
    }
  }

  /** The file is written exactly when it is not already the last good one, within the cap. */
  lemma WritesExactly(lang: Lang, s: Store)
    requires s.loaded && Linked(lang, s)
    ensures var good := NextGood(lang, s, s.disk);
            Reloaded(lang, s, NO_FAULTS).wrote <==> s.disk != Some(good) || |good| > MAX_RULE_FILE_BYTES
  {
    LaterLoad(lang, s);
    LastGoodSanitizes(lang, s.matcher, s.lastGood);
  }

  /** A reload with failures: if it reports success nothing was lost to them, and if it reports a
      failure, matcher and last good copy are those of before, and so is the file, unless it
      was the first load that cleared an invalid file and then could not build a matcher. */
  lemma FailedLoad(lang: Lang, s: Store, f: Faults)
    ensures var o, clean := Reloaded(lang, s, f), Reloaded(lang, s, NO_FAULTS);
            && (o.ok ==> o == clean)
            && (!o.ok ==>
                  && (f.read || f.build || f.write)
                  && o.store.(disk := s.disk) == s
                  && (o.store.disk == s.disk
                      || (!s.loaded && f.build && !Adopted(lang, s.disk, false) && o.store.disk == Some(""))))
  {
  }

  /** Quiescence, exactly: after any one external edit the loop's own writes stop after at
      most two reloads, with file, last good copy and matcher in agreement, if and only if
      the last good file that the edit leads to is within the size cap; otherwise the loop
      reloads and rewrites the same file for ever. */
  lemma Quiescence(lang: Lang, s: Store, content: Option<string>, rounds: nat)
    requires Linked(lang, s) && s.loaded && rounds >= 2
    ensures var settled := Settle(lang, Step(lang, Watch(s, false), Edit(content)), rounds);
            && Agrees(settled.store) && Linked(lang, settled.store)
            && settled.store.lastGood == NextGood(lang, s, content)
            && (settled.armed <==> |NextGood(lang, s, content)| > MAX_RULE_FILE_BYTES)
  {
    var edited := Step(lang, Watch(s, false), Edit(content));
    FirstReload(lang, s, content);
    ReloadAgrees(lang, edited.store, NO_FAULTS);
    SettlesExactly(lang, Step(lang, edited, RELOAD), rounds - 1);
  }

  // ---------- files of a safe size ----------

  predicate Small(content: Option<string>) {
    content.Some? ==> |content.value| <= SAFE_SIZE
  }

  ghost predicate SmallEdits(es: seq<Event>) {
    forall i :: 0 <= i < |es| ==>
      match es[i]
      case Edit(content) => Small(content)
      case Fire(_, race) => race.Racing? ==> Small(race.content)
  }

  predicate SmallStore(s: Store) {
    && |s.lastGood| <= MAX_RULE_FILE_BYTES
    && (Small(s.disk) || s.disk == Some(s.lastGood))
  }

  lemma SmallApplied(s: Store, raw: string, r: Sanitized, f: Faults)
    requires s.loaded && SmallStore(s) && s.disk == Some(raw)
    requires r.Clean? ==> |r.cleaned| <= MAX_RULE_FILE_BYTES
    ensures SmallStore(Applied(s, raw, r, f).store)
  {
  }

  lemma SmallReload(lang: Lang, s: Store, f: Faults)
    requires Linked(lang, s) && s.loaded && SmallStore(s)
    ensures SmallStore(Reloaded(lang, s, f).store)
  {
    if s.disk.Some? {
      var raw := s.disk.value;
      if |raw| <= SAFE_SIZE {
        GrowthBound(lang, raw);
      } else {
        LastGoodSanitizes(lang, s.matcher, s.lastGood);
      }
      SmallApplied(s, raw, Sanitize(lang, raw), f);
    }
  }

  lemma SmallSettles(lang: Lang, w: Watch)
    requires Linked(lang, w.store) && w.store.loaded && SmallStore(w.store) && w.armed
    ensures !Settle(lang, w, 2).armed && Agrees(Settle(lang, w, 2).store)
  {
    SmallReload(lang, w.store, NO_FAULTS);
    ReloadAgrees(lang, w.store, NO_FAULTS);
    FaultFreeSucceeds(lang, w.store);
    FirstReload(lang, w.store, w.store.disk);
    SettlesExactly(lang, Step(lang, w, RELOAD), 1);
  }

  lemma {:induction false} StaysSmall(lang: Lang, w: Watch, es: seq<Event>)
    requires Started(lang, w) && SmallStore(w.store)
    requires ValidRun(lang, w, es) && SmallEdits(es)
    ensures SmallStore(After(lang, w, es).store)
    decreases |es|
  {
    if es == [] {
    } else {
      StaysSmall(lang, w, Front(es));
      AgreementOverRuns(lang, w, Front(es));
      if Last(es).Fire? {
        SmallReload(lang, After(lang, w, Front(es)).store, Last(es).f);
      }
    }
  }

  /** As long as nobody writes a file of more than 233016 bytes, the loop always goes quiet:
      in every reachable state two reloads leave it idle and in agreement. */
  lemma SafeFilesGoQuiet(lang: Lang, w: Watch, es: seq<Event>)
    requires Started(lang, w) && SmallStore(w.store)
    requires ValidRun(lang, w, es) && SmallEdits(es)
    ensures var w' := After(lang, w, es);
            && SmallStore(w'.store)
            && (w'.armed ==> !Settle(lang, w', 2).armed && Agrees(Settle(lang, w', 2).store))
  {
    AgreementOverRuns(lang, w, es);
    StaysSmall(lang, w, es);
    if After(lang, w, es).armed {
      SmallSettles(lang, After(lang, w, es));
    }
  }

  /** And beyond that size there is an accepted file after which the loop never stops. */
  lemma EndlessRewrite(lang: Lang, s: Store, rounds: nat)
    requires Linked(lang, s) && s.loaded && rounds >= 2 && !lang.isIP("a")
    ensures exists raw: string :: |raw| <= MAX_RULE_FILE_BYTES
              && Settle(lang, Step(lang, Watch(s, false), Edit(Some(raw))), rounds).armed
  {
    var n := 116509;
    GrowthAttained(lang, n);
    var raw := Text.Join(Repeat("a", n), '\n');
    Quiescence(lang, s, Some(raw), rounds);
    assert |NextGood(lang, s, Some(raw))| > MAX_RULE_FILE_BYTES;
  }
}
