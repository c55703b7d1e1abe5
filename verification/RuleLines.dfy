/** Which lines of a rule file give which rules, in terms of their characters.
 *
 * Nothing here is defined through the parser; the lemmas say what it amounts to.
 */
module RuleLines {
  import opened Options
  import opened Sequences
  import opened Text
  import opened Rules

  predicate Space(c: char) {
    c in {' ', '\t', '\n', '\U{0B}', '\U{0C}', '\r'}
  }

  predicate AllSpace(s: string) {
    forall i :: 0 <= i < |s| ==> Space(s[i])
  }

  predicate NoSpace(s: string) {
    forall i :: 0 <= i < |s| ==> !Space(s[i])
  }

  // ---------- valid names ----------

  predicate NameChar(c: char) {
    'a' <= c <= 'z' || '0' <= c <= '9' || c == '-' || c == '_'
  }

  predicate Edge(c: char) {
    c == '.' || c == '-'
  }

  predicate DotWithin(s: string, i: nat)
    requires i + 64 <= |s|
  {
    exists k :: i <= k < i + 64 && s[k] == '.'
  }

  /** Names, without reference to labels: letters, digits, '-', '_' and dots; no dot or hyphen at
      either end or next to a dot; and no 64 characters in a row without a dot. */
  ghost predicate Name(s: string) {
    && s != "" && !Edge(s[0]) && !Edge(Last(s))
    && (forall i :: 0 <= i < |s| ==> s[i] == '.' || NameChar(s[i]))
    && (forall i :: 0 < i < |s| - 1 && s[i] == '.' ==> !Edge(s[i - 1]) && !Edge(s[i + 1]))
    && (forall i: nat :: i + 64 <= |s| ==> DotWithin(s, i))
  }

  predicate Labels(s: string) {
    forall i :: 0 <= i < |Split(s, '.')| ==> ValidLabel(Split(s, '.')[i])
  }

  lemma LabelIsName(s: string)
    requires '.' !in s
    ensures ValidLabel(s) <==> Name(s)
  {
    assert forall i :: 0 <= i < |s| ==> s[i] != '.';
    if |s| >= 64 {
      assert !DotWithin(s, 0);
    }
  }

  lemma NameCuts(head: string, tail: string)
    requires '.' !in head && Name(head) && Name(tail)
    ensures Name(head + ['.'] + tail)
  {
    var s := head + ['.'] + tail;
    LabelIsName(head);
    assert forall j :: 0 <= j < |head| ==> s[j] == head[j] != '.';
    assert s[|head|] == '.' && Last(s) == Last(tail);
    forall i: nat | i + 64 <= |s|
      ensures DotWithin(s, i)
    {
      if i > |head| {
        assert DotWithin(tail, i - |head| - 1);
        var k :| i - |head| - 1 <= k < i - |head| - 1 + 64 && tail[k] == '.';
        assert s[k + |head| + 1] == '.';
      }
    }
    forall i | 0 < i < |s| - 1 && s[i] == '.'
      ensures !Edge(s[i - 1]) && !Edge(s[i + 1])
    {
      if i > |head| {
        assert tail[i - |head| - 1] == '.';
      }
    }
  }

  lemma NameParts(head: string, tail: string)
    requires '.' !in head && Name(head + ['.'] + tail)
    ensures Name(head) && Name(tail)
  {
    var s := head + ['.'] + tail;
    assert s[|head|] == '.';
    assert Last(s) == if tail == "" then '.' else Last(tail);
    assert s[0] == if head == "" then '.' else head[0];
    assert s[0] == head[0] && s[|head| - 1] == Last(head) && s[|head| + 1] == tail[0];
    assert forall i :: 0 <= i < |head| ==> head[i] == s[i];
    assert forall i :: 0 <= i < |tail| ==> tail[i] == s[i + |head| + 1];
    forall i: nat | i + 64 <= |tail|
      ensures DotWithin(tail, i)
    {
      assert DotWithin(s, i + |head| + 1);
      var k :| i + |head| + 1 <= k < i + |head| + 1 + 64 && s[k] == '.';
      assert tail[k - |head| - 1] == '.';
    }
    assert |head| >= 64 ==> !DotWithin(s, 0);
  }

  lemma LabelsCut(head: string, tail: string)
    requires '.' !in head
    ensures Labels(head + ['.'] + tail) <==> ValidLabel(head) && Labels(tail)
  {
    var rest := Split(tail, '.');
    SplitFirst(head, '.', tail);
    assert ([head] + rest)[0] == head;
    assert forall j :: 0 <= j < |rest| ==> rest[j] == ([head] + rest)[j + 1];
  }

  lemma {:induction false} LabelsAreNames(s: string)
    ensures Labels(s) <==> Name(s)
    decreases |s|
  {
    var i := IndexOf(s, '.');
    if i < 0 {
      LabelIsName(s);
      assert Split(s, '.')[0] == s;
    } else {
      var head, tail := s[..i], s[i + 1..];
      assert s == head + ['.'] + tail;
      LabelsCut(head, tail);
      LabelIsName(head);
      LabelsAreNames(tail);
      if Name(s) {
        NameParts(head, tail);
      } else if Name(head) && Name(tail) {
        NameCuts(head, tail);
      }
    }
  }

  /** Valid patterns, exactly: names of at most 253 characters that are no IP address. */
  lemma ValidPatternExactly(lang: Lang, p: string)
    ensures ValidPattern(lang, p) <==> Name(p) && |p| <= 253 && !lang.isIP(p)
  {
    LabelsAreNames(p);
  }

  // ---------- texts and rules ----------

  /** The second text is the first with its capital letters made small. */
  predicate Folds(given: string, p: string) {
    && |given| == |p|
    && forall i :: 0 <= i < |p| ==>
         p[i] == if 'A' <= given[i] <= 'Z' then given[i] - 'A' + 'a' else given[i]
  }

  lemma FoldsExactly(given: string, p: string)
    ensures Lower(given) == p <==> Folds(given, p)
  {
    assert Folds(given, p) ==> forall i :: 0 <= i < |p| ==> Lower(given)[i] == p[i];
  }

  /** The text gives a name, alone or after one of three types, up to letter case and one
      trailing dot. */
  ghost predicate NameRule(lang: Lang, typ: string, p: string, given: string, text: string, rule: string) {
    && (typ == "domain" || typ == "full" || typ == "keyword")
    && rule == typ + ":" + p
    && (text == typ + ":" + given || (typ == "domain" && text == given))
    && Name(p) && |p| <= 253 && !lang.isIP(p)
    && (Folds(given, p) || Folds(given, p + "."))
  }

  /** The text is a regular expression, which is taken as it is. */
  ghost predicate RegexpRule(lang: Lang, p: string, text: string, rule: string) {
    text == rule == "regexp:" + p && p != "" && |p| <= 4096 && lang.compiles(p)
  }

  /** The rule that a text without spaces stands for. */
  ghost predicate StandsFor(lang: Lang, text: string, rule: string) {
    || (exists typ, p, given :: NameRule(lang, typ, p, given, text, rule))
    || (exists p :: RegexpRule(lang, p, text, rule))
  }

  lemma TypedGives(lang: Lang, typ: string, given: string, rule: string, text: string)
    requires NormalizeTyped(lang, typ, given) == Some(rule)
    requires text == typ + ":" + given || (typ == "domain" && text == given)
    requires typ == "regexp" ==> text == "regexp:" + given
    ensures StandsFor(lang, text, rule)
  {
    if DomainType(typ) {
      var p := NormalizeDomainPattern(lang, given).value;
      PatternAcceptedExactly(lang, given, p);
      ValidPatternExactly(lang, p);
      FoldsExactly(given, p);
      FoldsExactly(given, p + ".");
      assert NameRule(lang, typ, p, given, text, rule);
    } else {
      assert rule == "regexp" + ":" + given == "regexp:" + given;
      assert RegexpRule(lang, given, text, rule);
    }
  }

  lemma NameHasNoColon(p: string, given: string)
    requires Name(p) && (Folds(given, p) || Folds(given, p + "."))
    ensures ':' !in given
  {
    assert forall i :: 0 <= i < |p| ==> p[i] != ':';
  }

  lemma NameTyped(lang: Lang, typ: string, p: string, given: string, text: string, rule: string)
    requires NameRule(lang, typ, p, given, text, rule)
    ensures NormalizeTyped(lang, typ, given) == Some(rule)
  {
    ValidPatternExactly(lang, p);
    FoldsExactly(given, p);
    FoldsExactly(given, p + ".");
    PatternAcceptedExactly(lang, given, p);
  }

  lemma NoSpaceAfter(head: string, tail: string)
    requires NoSpace(head + tail)
    ensures SpaceFree(tail)
  {
    assert forall i :: 0 <= i < |tail| ==> tail[i] == (head + tail)[|head| + i];
  }

  lemma SpelledOut(lang: Lang, typ: string, given: string, rule: string)
    requires DomainType(typ) || typ == "regexp"
    requires NoSpace(typ + ":" + given) && NormalizeTyped(lang, typ, given) == Some(rule)
    ensures NormalizeRule(lang, typ + ":" + given) == Some(rule)
  {
    NoSpaceAfter(typ + ":", given);
    TypeText(typ);
    TypedRule(lang, typ, given);
  }

  lemma LeftOut(lang: Lang, given: string, rule: string)
    requires NoSpace(given) && ':' !in given && NormalizeTyped(lang, "domain", given) == Some(rule)
    ensures NormalizeRule(lang, given) == Some(rule)
  {
  }

  lemma NameGives(lang: Lang, typ: string, p: string, given: string, text: string, rule: string)
    requires NoSpace(text) && NameRule(lang, typ, p, given, text, rule)
    ensures NormalizeRule(lang, text) == Some(rule)
  {
    NameTyped(lang, typ, p, given, text, rule);
    NameHasNoColon(p, given);
    if text == typ + ":" + given {
      SpelledOut(lang, typ, given, rule);
    } else {
      LeftOut(lang, given, rule);
    }
  }

  lemma RegexpGives(lang: Lang, p: string, text: string, rule: string)
    requires NoSpace(text) && RegexpRule(lang, p, text, rule)
    ensures NormalizeRule(lang, text) == Some(rule)
  {
    assert "regexp" + ":" + p == "regexp:" + p;
    SpelledOut(lang, "regexp", p, rule);
  }

  /** Which texts normalize to which rules, exactly. */
  lemma TextAcceptedExactly(lang: Lang, text: string, rule: string)
    requires NoSpace(text)
    ensures NormalizeRule(lang, text) == Some(rule) <==> StandsFor(lang, text, rule)
  {
    if NormalizeRule(lang, text) == Some(rule) {
      var colon := IndexOf(text, ':');
      if colon < 0 {
        TypedGives(lang, "domain", text, rule, text);
      } else {
        var typ, given := text[..colon], text[colon + 1..];
        assert text == typ + ":" + given;
        TypedGives(lang, typ, given, rule, text);
      }
    }
    if typ, p, given :| NameRule(lang, typ, p, given, text, rule) {
      NameGives(lang, typ, p, given, text, rule);
    } else if p :| RegexpRule(lang, p, text, rule) {
      RegexpGives(lang, p, text, rule);
    }
  }

  // ---------- trimming ----------

  lemma {:induction false} LeftTrimmed(a: string, t: string)
    requires AllSpace(a) && (t == "" || !Space(t[0]))
    ensures TrimLeft(a + t) == t
    decreases |a|
  {
    if a == "" {
      assert a + t == t;
    } else {
      assert (a + t)[1..] == a[1..] + t;
      LeftTrimmed(a[1..], t);
    }
  }

  lemma {:induction false} RightTrimmed(t: string, z: string)
    requires AllSpace(z) && (t == "" || !Space(Last(t)))
    ensures TrimRight(t + z) == t
    decreases |z|
  {
    if z == "" {
      assert t + z == t;
    } else {
      assert Front(t + z) == t + Front(z);
      RightTrimmed(t, Front(z));
    }
  }

  /** A text that begins and ends with no space. */
  predicate Trimmed(t: string) {
    t != "" ==> !Space(t[0]) && !Space(Last(t))
  }

  /** Spaces around a trimmed text are trimmed off. */
  lemma Trims(a: string, t: string, z: string)
    requires AllSpace(a) && Trimmed(t) && AllSpace(z)
    ensures TrimSpace(a + t + z) == t
  {
    if t == "" {
      LeftTrimmed(a + z, "");
      assert a + t + z == a + z + "";
    } else {
      LeftTrimmed(a, t + z);
      assert a + t + z == a + (t + z);
      RightTrimmed(t, z);
    }
  }

  lemma {:induction false} LeftParts(s: string) returns (a: string)
    ensures AllSpace(a) && s == a + TrimLeft(s)
    ensures TrimLeft(s) == "" || !Space(TrimLeft(s)[0])
    decreases |s|
  {
    if s == "" || !Space(s[0]) {
      a := "";
    } else {
      a := LeftParts(s[1..]);
      a := [s[0]] + a;
    }
  }

  lemma {:induction false} RightParts(s: string) returns (z: string)
    ensures AllSpace(z) && s == TrimRight(s) + z
    ensures TrimRight(s) == "" || !Space(Last(TrimRight(s)))
    decreases |s|
  {
    if s == "" || !Space(Last(s)) {
      z := "";
    } else {
      z := RightParts(Front(s));
      z := z + [Last(s)];
    }
  }

  /** What trimming takes off are spaces. */
  lemma TrimParts(s: string) returns (a: string, z: string)
    ensures AllSpace(a) && AllSpace(z) && s == a + TrimSpace(s) + z && Trimmed(TrimSpace(s))
  {
    a := LeftParts(s);
    z := RightParts(TrimLeft(s));
    assert TrimSpace(s) != "" ==> TrimSpace(s)[0] == TrimLeft(s)[0];
  }

  /** The carriage return that is cut off first is a space as well. */
  lemma ReturnIsSpace(raw: string) returns (z: string)
    ensures AllSpace(z) && raw == TrimSuffix(raw, '\r') + z
    ensures TrimSpace(TrimSuffix(raw, '\r')) == TrimSpace(raw)
  {
    z := raw[|TrimSuffix(raw, '\r')|..];
    var a, b := TrimParts(TrimSuffix(raw, '\r'));
    var line := TrimSpace(TrimSuffix(raw, '\r'));
    assert raw == a + line + (b + z);
    Trims(a, line, b + z);
  }

  // ---------- lines ----------

  /** What may follow the text of a line: spaces, or spaces and a comment right after a blank
      or a tab. */
  ghost predicate Trailer(z: string) {
    || AllSpace(z)
    || exists b: string, c: string ::
         z == b + "#" + c && b != "" && AllSpace(b) && (Last(b) == ' ' || Last(b) == '\t')
  }

  /** A line that carries this text. */
  ghost predicate Carries(raw: string, text: string) {
    && text != "" && NoSpace(text) && text[0] != '#'
    && exists a: string, z: string :: AllSpace(a) && raw == a + text + z && Trailer(z)
  }

  lemma Carry(a: string, text: string, z: string)
    requires text != "" && NoSpace(text) && text[0] != '#' && AllSpace(a) && Trailer(z)
    ensures Carries(a + text + z, text)
  {
  }

  lemma {:induction false} CommentAt(line: string, from: nat, at: nat)
    requires 1 <= from <= at < |line| && StartsComment(line, at)
    requires forall i :: from <= i < at ==> !StartsComment(line, i)
    ensures CommentFrom(line, from) == at
    decreases at - from
  {
    if from == at {
    } else {
      CommentAt(line, from + 1, at);
    }
  }

  lemma {:induction false} NoCommentAt(line: string, from: nat)
    requires 1 <= from
    requires forall i :: from <= i < |line| ==> !StartsComment(line, i)
    ensures CommentFrom(line, from) == -1
    decreases |line| - from
  {
    if from >= |line| {
    } else {
      NoCommentAt(line, from + 1);
    }
  }

  lemma {:induction false} CommentFound(line: string, from: nat)
    requires 1 <= from
    ensures var i := CommentFrom(line, from); i == -1 || (from <= i < |line| && StartsComment(line, i))
    decreases |line| - from
  {
    if from >= |line| {
    } else {
      CommentFound(line, from + 1);
    }
  }

  /** Cutting the comment off a trimmed line that carries a text leaves the text. */
  lemma CutLeavesText(text: string, b: string, c: string)
    requires text != "" && NoSpace(text) && b != "" && AllSpace(b) && (Last(b) == ' ' || Last(b) == '\t')
    ensures CutComment(text + b + "#" + c) == text
  {
    var line, at := text + b + "#" + c, |text| + |b|;
    assert line[at] == '#' && line[at - 1] == Last(b);
    assert forall i :: 0 <= i < |text| ==> line[i] == text[i];
    assert forall i :: |text| <= i < at ==> line[i] == b[i - |text|];
    CommentAt(line, 1, at);
    assert line[..at] == "" + text + b;
    Trims("", text, b);
  }

  lemma TrailerTrimmed(text: string, z: string) returns (z': string, rest: string)
    requires text != "" && NoSpace(text) && Trailer(z)
    ensures AllSpace(rest) && z == z' + rest && Trailer(z') && Trimmed(text + z')
    ensures z' == "" || !AllSpace(z')
  {
    if AllSpace(z) {
      z', rest := "", z;
      assert text + "" == text;
    } else {
      var b, c :| z == b + "#" + c && b != "" && AllSpace(b) && (Last(b) == ' ' || Last(b) == '\t');
      rest := RightParts(c);
      var c' := TrimRight(c);
      z' := b + "#" + c';
      assert z == z' + rest;
      assert z'[|b|] == '#';
      assert Last(text + z') == if c' == "" then '#' else Last(c');
    }
  }

  /** A line that carries a text is parsed as that text. */
  lemma CarriedIsParsed(lang: Lang, raw: string, text: string)
    requires Carries(raw, text)
    ensures TrimSpace(TrimSuffix(raw, '\r')) != "" && TrimSpace(TrimSuffix(raw, '\r'))[0] != '#'
    ensures CutComment(TrimSpace(TrimSuffix(raw, '\r'))) == text
  {
    var a, z :| AllSpace(a) && raw == a + text + z && Trailer(z);
    var more, rest := TrailerTrimmed(text, z);
    var ret := ReturnIsSpace(raw);
    assert raw == a + (text + more) + rest;
    Trims(a, text + more, rest);
    assert TrimSpace(TrimSuffix(raw, '\r')) == text + more;
    if more == "" {
      assert text + more == text;
      NoCommentAt(text, 1);
    } else {
      var b, c :| more == b + "#" + c && b != "" && AllSpace(b) && (Last(b) == ' ' || Last(b) == '\t');
      CutLeavesText(text, b, c);
      Regroup(a, text, b, c, rest);
    }
  }

  /** What is cut off at the comment of a trimmed line, and what is left, put together. */
  lemma CutParts(line: string, at: nat) returns (b: string)
    requires Trimmed(line) && line != "" && 1 <= at < |line| && StartsComment(line, at)
    requires var text := TrimSpace(line[..at]); text != "" && NoSpace(text)
    ensures line == TrimSpace(line[..at]) + b + "#" + line[at + 1..]
    ensures b != "" && AllSpace(b) && (Last(b) == ' ' || Last(b) == '\t')
  {
    var head := line[..at];
    var text := TrimSpace(head);
    var a, z := TrimParts(head);
    b := z;
    NoLeadingSpace(a, text + b, head);
    assert head == text + b && Last(head) == line[at - 1];
    assert line == head + "#" + line[at + 1..];
  }

  lemma NoLeadingSpace(a: string, rest: string, s: string)
    requires s == a + rest && s != "" && !Space(s[0]) && AllSpace(a)
    ensures a == "" && s == rest
  {
  }

  lemma Regroup(a: string, text: string, b: string, c: string, z: string)
    ensures text + b + "#" + c == text + (b + "#" + c)
    ensures a + (text + b + "#" + c) + z == a + text + (b + "#" + (c + z))
  {
  }

  lemma CarriesCut(a: string, line: string, z: string, at: nat)
    requires AllSpace(a) && Trimmed(line) && line != "" && line[0] != '#'
    requires 1 <= at < |line| && StartsComment(line, at)
    requires var text := TrimSpace(line[..at]); text != "" && NoSpace(text)
    ensures Carries(a + line + z, TrimSpace(line[..at]))
  {
    var text, c := TrimSpace(line[..at]), line[at + 1..];
    var b := CutParts(line, at);
    Regroup(a, text, b, c, z);
    assert text[0] == line[0];
    Carry(a, text, b + "#" + (c + z));
  }

  /** A line that is parsed as a text without spaces carries it. */
  lemma ParsedIsCarried(raw: string)
    requires var line := TrimSpace(TrimSuffix(raw, '\r'));
             line != "" && line[0] != '#' && CutComment(line) != "" && NoSpace(CutComment(line))
    ensures Carries(raw, CutComment(TrimSpace(TrimSuffix(raw, '\r'))))
  {
    var ret := ReturnIsSpace(raw);
    var line := TrimSpace(raw);
    var a, z := TrimParts(raw);
    var at := CommentFrom(line, 1);
    CommentFound(line, 1);
    if at < 0 {
      Carry(a, line, z);
    } else {
      CarriesCut(a, line, z, at);
    }
  }

  ghost predicate YieldsRule(lang: Lang, raw: string, rule: string) {
    exists text :: Carries(raw, text) && StandsFor(lang, text, rule)
  }

  /** Accepted lines, exactly: a line of a rule file yields a rule if and only if it carries a text
      that stands for it. */
  lemma LineAcceptedExactly(lang: Lang, raw: string, rule: string)
    ensures SanitizeLine(lang, raw) == Accepted(rule)
            <==> YieldsRule(lang, raw, rule)
  {
    if SanitizeLine(lang, raw) == Accepted(rule) {
      var text := CutComment(TrimSpace(TrimSuffix(raw, '\r')));
      RuleStable(lang, text, rule);
      ParsedIsCarried(raw);
      TextAcceptedExactly(lang, text, rule);
    }
    if text :| Carries(raw, text) && StandsFor(lang, text, rule) {
      CarriedIsParsed(lang, raw, text);
      TextAcceptedExactly(lang, text, rule);
    }
  }

  /** A comment line: spaces, then a hash. */
  ghost predicate CommentLine(raw: string) {
    exists a: string, c: string :: AllSpace(a) && raw == a + "#" + c
  }

  /** Ignored lines, exactly: those of spaces only, and those whose first other character is a
      hash. All others are counted. */
  lemma LineIgnoredExactly(lang: Lang, raw: string)
    ensures SanitizeLine(lang, raw) == Blank <==> AllSpace(raw) || CommentLine(raw)
  {
    var ret := ReturnIsSpace(raw);
    var line := TrimSpace(raw);
    var a, z := TrimParts(raw);
    if line == "" {
      assert AllSpace(raw);
    } else {
      assert raw[|a|] == line[0];
      CommentLineExactly(raw, a, line + z);
    }
  }

  lemma CommentLineExactly(raw: string, a: string, rest: string)
    requires AllSpace(a) && raw == a + rest && rest != "" && !Space(rest[0])
    ensures CommentLine(raw) <==> rest[0] == '#'
  {
    LeftTrimmed(a, rest);
    if rest[0] == '#' {
      assert raw == a + "#" + rest[1..];
    }
    if b: string, c: string :| AllSpace(b) && raw == b + "#" + c {
      assert raw == b + ("#" + c);
      LeftTrimmed(b, "#" + c);
    }
  }

  // ---------- whole files ----------

  function Joined(p: Parsed, q: Parsed): Parsed {
    Parsed(p.rules + q.rules, p.meaningful + q.meaningful, p.rejected + q.rejected)
  }

  lemma {:induction false} CollectConcat(rs: seq<LineResult>, qs: seq<LineResult>)
    ensures Collect(rs + qs) == Joined(Collect(rs), Collect(qs))
    decreases |qs|
  {
    if qs == [] {
      assert rs + qs == rs;
    } else {
      assert Front(rs + qs) == rs + Front(qs);
      CollectConcat(rs, Front(qs));
    }
  }

  lemma {:induction false} SplitConcat(a: string, b: string, sep: char)
    ensures Split(a + [sep] + b, sep) == Split(a, sep) + Split(b, sep)
    decreases |a|
  {
    var i := IndexOf(a, sep);
    if i < 0 {
      SplitFirst(a, sep, b);
    } else {
      var head, tail := a[..i], a[i + 1..];
      assert a + [sep] + b == head + [sep] + (tail + [sep] + b);
      SplitFirst(head, sep, tail + [sep] + b);
      SplitConcat(tail, b, sep);
    }
  }

  lemma ResultsConcat(lang: Lang, ls: seq<string>, ms: seq<string>)
    ensures Results(lang, ls + ms) == Results(lang, ls) + Results(lang, ms)
  {
  }

  /** A file is parsed line by line: two files joined at a line break parse to the rules of the
      first followed by those of the second, and the counts add up. */
  lemma ParseConcat(lang: Lang, a: string, b: string)
    ensures Parse(lang, a + "\n" + b) == Joined(Parse(lang, a), Parse(lang, b))
  {
    var ls, ms := Split(a, '\n'), Split(b, '\n');
    assert Split(a + "\n" + b, '\n') == ls + ms by {
      SplitConcat(a, b, '\n');
      assert a + "\n" + b == a + ['\n'] + b;
    }
    ResultsConcat(lang, ls, ms);
    CollectConcat(Results(lang, ls), Results(lang, ms));
  }

  lemma CollectOne(r: LineResult)
    ensures Collect([r]) == Count(Parsed([], 0, 0), r)
  {
    assert Front([r]) == [];
  }

  /** And a file of one line gives the rule it yields, if any, is counted unless it is ignored, and
      is rejected when it is counted and yields none. */
  lemma ParseLine(lang: Lang, raw: string)
    requires '\n' !in raw
    ensures var p := Parse(lang, raw);
            && (forall rule :: p.rules == [rule] <==> YieldsRule(lang, raw, rule))
            && |p.rules| <= 1
            && p.meaningful == (if AllSpace(raw) || CommentLine(raw) then 0 else 1)
            && p.rejected == p.meaningful - |p.rules|
  {
    var r := SanitizeLine(lang, raw);
    assert Split(raw, '\n') == [raw];
    var rs := Results(lang, [raw]);
    assert rs == [r];
    CollectOne(r);
    LineIgnoredExactly(lang, raw);
    forall rule
      ensures Parse(lang, raw).rules == [rule] <==> YieldsRule(lang, raw, rule)
    {
      LineAcceptedExactly(lang, raw, rule);
      assert [rule][0] == rule;
      assert r.Accepted? ==> Parse(lang, raw).rules == [r.rule];
    }
  }
}
