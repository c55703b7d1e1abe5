/** Parsing and re-printing an operator's rule file.
 *
 * Text is ASCII. Whether a regular expression compiles and whether a text is an IP
 * address are two arbitrary fixed predicates.
 */
module Rules {
  import opened Sequences
  import opened Options
  import opened Text

  const MAX_RULE_FILE_BYTES := 0x10_0000
  const MAX_REGEXP_RULE_SIZE := 4096
  const MAX_NAME := 253
  const MAX_LABEL := 63

  datatype Lang = Lang(compiles: string -> bool, isIP: string -> bool)

  // ---------- one rule ----------

  predicate LabelChar(c: char) {
    'a' <= c <= 'z' || '0' <= c <= '9' || c == '-' || c == '_'
  }

  predicate ValidLabel(name: string) {
    && 0 < |name| <= MAX_LABEL
    && (forall i :: 0 <= i < |name| ==> LabelChar(name[i]))
    && name[0] != '-' && name[|name| - 1] != '-'
  }

  predicate ValidPattern(lang: Lang, p: string) {
    && p != "" && |p| <= MAX_NAME && !lang.isIP(p)
    && forall i :: 0 <= i < |Split(p, '.')| ==> ValidLabel(Split(p, '.')[i])
  }

  function NormalizeDomainPattern(lang: Lang, pattern: string): Option<string> {
    var p := TrimSuffix(Lower(pattern), '.');
    if ValidPattern(lang, p) then Some(p) else None
  }

  predicate DomainType(typ: string) {
    typ == "domain" || typ == "full" || typ == "keyword"
  }

  function NormalizeTyped(lang: Lang, typ: string, pattern: string): Option<string> {
    if pattern == "" then None
    else if DomainType(typ) then
      match NormalizeDomainPattern(lang, pattern)
      case Some(p) => Some(typ + ":" + p)
      case None => None
    else if typ == "regexp" && |pattern| <= MAX_REGEXP_RULE_SIZE && lang.compiles(pattern) then
      Some(typ + ":" + pattern)
    else None
  }

  function NormalizeRule(lang: Lang, line: string): Option<string> {
    if !SpaceFree(line) then None
    else
      var colon := IndexOf(line, ':');
      if colon < 0 then NormalizeTyped(lang, "domain", line)
      else NormalizeTyped(lang, line[..colon], line[colon + 1..])
  }

  // ---------- one line ----------

  predicate StartsComment(line: string, i: int)
    requires 1 <= i < |line|
  {
    line[i] == '#' && (line[i - 1] == ' ' || line[i - 1] == '\t')
  }

  function CommentFrom(line: string, i: nat): int
    requires 1 <= i
    decreases |line| - i
  {
    if i >= |line| then -1 else if StartsComment(line, i) then i else CommentFrom(line, i + 1)
  }

  method InlineCommentIndex(line: string) returns (index: int)
    ensures index == CommentFrom(line, 1)
    ensures index < 0 ==> forall i :: 1 <= i < |line| ==> !StartsComment(line, i)
    ensures index >= 0 ==> 1 <= index < |line| && StartsComment(line, index)
                           && forall i :: 1 <= i < index ==> !StartsComment(line, i)
  {
    var i := 1;
    while i < |line|
      invariant 1 <= i
      invariant CommentFrom(line, 1) == CommentFrom(line, i)
      invariant forall j :: 1 <= j < i && j < |line| ==> !StartsComment(line, j)
    {
      if StartsComment(line, i) {
        return i;
      }
      i := i + 1;
    }
    return -1;
  }

  lemma {:induction false} CommentInRange(line: string, i: nat)
    requires 1 <= i
    ensures CommentFrom(line, i) < |line|
    ensures SpaceFree(line) ==> CommentFrom(line, i) == -1
    decreases |line| - i
  {
    if i >= |line| {
    } else {
      CommentInRange(line, i + 1);
    }
  }

  datatype LineResult = Blank | Rejected | Accepted(rule: string)

  function CutComment(line: string): string {
    CommentInRange(line, 1);
    var i := CommentFrom(line, 1);
    if i >= 0 then TrimSpace(line[..i]) else line
  }

  function SanitizeLine(lang: Lang, raw: string): LineResult {
    var line := TrimSpace(TrimSuffix(raw, '\r'));
    if line == "" || line[0] == '#' then Blank
    else match NormalizeRule(lang, CutComment(line))
      case Some(rule) => Accepted(rule)
      case None => Rejected
  }

  // ---------- the whole file ----------

  datatype Parsed = Parsed(rules: seq<string>, meaningful: nat, rejected: nat)

  function Count(p: Parsed, r: LineResult): Parsed {
    match r
    case Blank => p
    case Rejected => p.(meaningful := p.meaningful + 1, rejected := p.rejected + 1)
    case Accepted(rule) => p.(rules := p.rules + [rule], meaningful := p.meaningful + 1)
  }

  function Results(lang: Lang, lines: seq<string>): (rs: seq<LineResult>)
    ensures |rs| == |lines|
    ensures forall i :: 0 <= i < |lines| ==> rs[i] == SanitizeLine(lang, lines[i])
  {
    seq(|lines|, i requires 0 <= i < |lines| => SanitizeLine(lang, lines[i]))
  }

  function Collect(rs: seq<LineResult>): Parsed {
    if rs == [] then Parsed([], 0, 0) else Count(Collect(Front(rs)), Last(rs))
  }

  /** Parsing without regard to the size cap. */
  function Parse(lang: Lang, raw: string): Parsed {
    Collect(Results(lang, Split(raw, '\n')))
  }

  function Print(rules: seq<string>): string {
    if rules == [] then "" else Join(rules, '\n') + "\n"
  }

  datatype Sanitized = TooLarge | Clean(parsed: Parsed, cleaned: string)

  function Sanitize(lang: Lang, raw: string): Sanitized {
    if |raw| > MAX_RULE_FILE_BYTES then TooLarge
    else Clean(Parse(lang, raw), Print(Parse(lang, raw).rules))
  }

  /** The body of the loop of `SanitizeRules`. */
  method SanitizeOne(lang: Lang, raw: string) returns (r: LineResult)
    ensures r == SanitizeLine(lang, raw)
  {
    var line := TrimSpace(TrimSuffix(raw, '\r'));
    if line == "" || line[0] == '#' {
      return Blank;
    }
    var index := InlineCommentIndex(line);
    if index >= 0 {
      line := TrimSpace(line[..index]);
    }
    match NormalizeRule(lang, line)
    case None => return Rejected;
    case Some(rule) => return Accepted(rule);
  }

  method SanitizeRules(lang: Lang, raw: string) returns (r: Sanitized)
    ensures r == Sanitize(lang, raw)
  {
    if |raw| > MAX_RULE_FILE_BYTES {
      return TooLarge;
    }
    var rules, meaningful, rejected := [], 0, 0;
    var lines := Split(raw, '\n');
    ghost var rs := Results(lang, lines);
    for i := 0 to |lines|
      invariant Parsed(rules, meaningful, rejected) == Collect(rs[..i])
    {
      assert rs[..i + 1][..i] == rs[..i];
      var result := SanitizeOne(lang, lines[i]);
      if result.Blank? {
        continue;
      }
      meaningful := meaningful + 1;
      if result.Rejected? {
        rejected := rejected + 1;
        continue;
      }
      rules := rules + [result.rule];
    }
    assert rs[..|lines|] == rs;
    return Clean(Parsed(rules, meaningful, rejected), if rules == [] then "" else Join(rules, '\n') + "\n");
  }

  // ---------- what an accepted rule looks like ----------

  /** A rule is canonical when the parser accepts it as it stands. */
  ghost predicate Canonical(lang: Lang, rule: string) {
    SanitizeLine(lang, rule) == Accepted(rule) && '\n' !in rule
  }

  /** Normalizing a domain pattern is idempotent: the result is lower-case, and it cannot
      end in the dot that is trimmed because then its last label would be empty. */
  lemma PatternStable(lang: Lang, p: string)
    requires ValidPattern(lang, p) && forall i :: 0 <= i < |p| ==> LowerChar(p[i]) == p[i]
    ensures NormalizeDomainPattern(lang, p) == Some(p)
  {
    assert Lower(p) == p;
    if p[|p| - 1] == '.' {
      SplitTrailing(p, '.');
      assert false;
    }
  }

  /** Exactly which patterns normalize to `r`: those that differ from the valid name `r` in
      letter case and one trailing dot at most. */
  lemma PatternAcceptedExactly(lang: Lang, pattern: string, r: string)
    ensures NormalizeDomainPattern(lang, pattern) == Some(r)
            <==> ValidPattern(lang, r) && (Lower(pattern) == r || Lower(pattern) == r + ".")
  {
    var lower := Lower(pattern);
    if ValidPattern(lang, r) {
      if r[|r| - 1] == '.' {
        SplitTrailing(r, '.');
        assert false;
      }
      assert TrimSuffix(r + ".", '.') == r;
    }
    assert lower == TrimSuffix(lower, '.') || lower == TrimSuffix(lower, '.') + ".";
  }

  lemma LowerStable(pattern: string)
    ensures forall i :: 0 <= i < |pattern| ==> LowerChar(Lower(pattern)[i]) == Lower(pattern)[i]
    ensures SpaceFree(pattern) ==> SpaceFree(Lower(pattern))
  {
  }

  lemma TypedStable(lang: Lang, typ: string, pattern: string)
    requires SpaceFree(pattern) && NormalizeTyped(lang, typ, pattern).Some?
    ensures DomainType(typ) || typ == "regexp"
    ensures var rule := NormalizeTyped(lang, typ, pattern).value;
            exists p :: rule == typ + ":" + p && SpaceFree(p) && |p| <= |pattern|
                        && NormalizeTyped(lang, typ, p) == Some(rule)
  {
    var rule := NormalizeTyped(lang, typ, pattern).value;
    if DomainType(typ) {
      var p := NormalizeDomainPattern(lang, pattern).value;
      LowerStable(pattern);
      PatternStable(lang, p);
      assert rule == typ + ":" + p && SpaceFree(p) && |p| <= |pattern|;
      assert NormalizeTyped(lang, typ, p) == Some(rule);
    } else {
      assert rule == typ + ":" + pattern;
    }
  }

  lemma TypeText(typ: string)
    requires DomainType(typ) || typ == "regexp"
    ensures ':' !in typ && SpaceFree(typ) && typ != "" && typ[0] != '#'
  {
  }

  /** A rule that spells out its type is cut at that type again. */
  lemma TypedRule(lang: Lang, typ: string, p: string)
    requires ':' !in typ && SpaceFree(typ) && SpaceFree(p)
    ensures SpaceFree(typ + ":" + p)
    ensures NormalizeRule(lang, typ + ":" + p) == NormalizeTyped(lang, typ, p)
  {
    var rule := typ + ":" + p;
    assert rule == typ + [':'] + p;
    FirstIndex(typ, ':', p);
    assert rule[..|typ|] == typ && rule[|typ| + 1..] == p;
  }

  lemma RuleStable(lang: Lang, line: string, rule: string)
    requires NormalizeRule(lang, line) == Some(rule)
    ensures NormalizeRule(lang, rule) == Some(rule)
    ensures SpaceFree(rule) && rule != "" && rule[0] != '#'
    ensures line != "" && |rule| <= |line| + 7
  {
    var colon := IndexOf(line, ':');
    var typ := if colon < 0 then "domain" else line[..colon];
    var pattern := if colon < 0 then line else line[colon + 1..];
    assert NormalizeTyped(lang, typ, pattern) == Some(rule);
    TypedStable(lang, typ, pattern);
    var p :| rule == typ + ":" + p && SpaceFree(p) && |p| <= |pattern|
             && NormalizeTyped(lang, typ, p) == Some(rule);
    TypeText(typ);
    TypedRule(lang, typ, p);
    assert rule[0] == typ[0];
  }

  lemma CutShrinks(line: string)
    ensures |CutComment(line)| <= |line|
  {
    CommentInRange(line, 1);
    var i := CommentFrom(line, 1);
    if i >= 0 {
      TrimSpaceShrinks(line[..i]);
    }
  }

  /** Every rule the parser produces is canonical, and at most seven characters longer than
      the line it came from. */
  lemma AcceptedIsCanonical(lang: Lang, raw: string, rule: string)
    requires SanitizeLine(lang, raw) == Accepted(rule)
    ensures Canonical(lang, rule)
    ensures 1 <= |raw| && |rule| <= |raw| + 7
  {
    var line := TrimSpace(TrimSuffix(raw, '\r'));
    TrimSpaceShrinks(TrimSuffix(raw, '\r'));
    CutShrinks(line);
    RuleStable(lang, CutComment(line), rule);
    SpaceFreeTrim(rule);
    CommentInRange(rule, 1);
  }

  // ---------- the parse/print fixed point ----------

  ghost predicate AllCanonical(lang: Lang, rules: seq<string>) {
    forall i :: 0 <= i < |rules| ==> Canonical(lang, rules[i])
  }

  lemma {:induction false} CollectFacts(lines: seq<string>, rs: seq<LineResult>)
    requires |lines| == |rs|
    requires forall i :: 0 <= i < |rs| && rs[i].Accepted? ==> 1 <= |lines[i]| && |rs[i].rule| <= |lines[i]| + 7
    ensures var p := Collect(rs);
            && p.meaningful == |p.rules| + p.rejected
            && 2 * Total(p.rules) <= 9 * Total(lines)
            && (forall j :: 0 <= j < |p.rules| ==> Accepted(p.rules[j]) in rs)
    decreases |rs|
  {
    if rs == [] {
    } else {
      var n := |rs| - 1;
      CollectFacts(lines[..n], rs[..n]);
      var before := Collect(rs[..n]).rules;
      if rs[n].Accepted? {
        assert (before + [rs[n].rule])[..|before|] == before;
      }
    }
  }

  /** Parsing yields canonical rules only, accounts for every meaningful line, and lengthens
      the text by a factor of at most 9/2. */
  lemma ParseFacts(lang: Lang, raw: string)
    ensures var p := Parse(lang, raw);
            && AllCanonical(lang, p.rules)
            && p.meaningful == |p.rules| + p.rejected
            && 2 * Total(p.rules) <= 9 * (|raw| + 1)
  {
    var lines := Split(raw, '\n');
    var rs := Results(lang, lines);
    forall i | 0 <= i < |lines| && rs[i].Accepted?
      ensures Canonical(lang, rs[i].rule) && 1 <= |lines[i]| && |rs[i].rule| <= |lines[i]| + 7
    {
      AcceptedIsCanonical(lang, lines[i], rs[i].rule);
    }
    CollectFacts(lines, rs);
    JoinSplit(raw, '\n');
    JoinLength(lines, '\n');
  }

  lemma {:induction false} CollectAccepted(rs: seq<LineResult>, rules: seq<string>)
    requires |rs| == |rules| && forall i :: 0 <= i < |rs| ==> rs[i] == Accepted(rules[i])
    ensures Collect(rs) == Parsed(rules, |rules|, 0)
    decreases |rs|
  {
    if rs == [] {
    } else {
      var n := |rs| - 1;
      CollectAccepted(rs[..n], rules[..n]);
      assert rules == rules[..n] + [rules[n]];
    }
  }

  lemma SplitPrint(rules: seq<string>)
    requires forall i :: 0 <= i < |rules| ==> '\n' !in rules[i]
    ensures Split(Print(rules), '\n') == rules + [""]
  {
    if rules == [] {
      assert Split("", '\n') == [""];
    } else {
      JoinTerminated(rules, '\n');
      SplitJoin(rules + [""], '\n');
      assert "\n" == ['\n'];
    }
  }

  lemma CollectTerminated(rs: seq<LineResult>, rules: seq<string>)
    requires |rs| == |rules| + 1 && rs[|rules|] == Blank
    requires forall i :: 0 <= i < |rules| ==> rs[i] == Accepted(rules[i])
    ensures Collect(rs) == Parsed(rules, |rules|, 0)
  {
    CollectAccepted(rs[..|rules|], rules);
  }

  lemma EmptyLine(lang: Lang)
    ensures SanitizeLine(lang, "") == Blank
  {
  }

  /** Printing canonical rules and parsing the result gives the rules back. */
  lemma PrintParse(lang: Lang, rules: seq<string>)
    requires AllCanonical(lang, rules)
    ensures Parse(lang, Print(rules)) == Parsed(rules, |rules|, 0)
  {
    SplitPrint(rules);
    EmptyLine(lang);
    var rs := Results(lang, rules + [""]);
    forall i | 0 <= i < |rules|
      ensures rs[i] == Accepted(rules[i])
    {
      assert Canonical(lang, rules[i]);
    }
    CollectTerminated(rs, rules);
  }

  /** The fixed point of the sanitizer: what it prints, it parses to the same rules and
      prints to the same bytes, rejecting nothing. */
  lemma FixedPoint(lang: Lang, raw: string)
    ensures var rules := Parse(lang, raw).rules;
            var cleaned := Print(rules);
            && Parse(lang, cleaned) == Parsed(rules, |rules|, 0)
            && (|cleaned| <= MAX_RULE_FILE_BYTES <==>
                  Sanitize(lang, cleaned) == Clean(Parsed(rules, |rules|, 0), cleaned))
  {
    ParseFacts(lang, raw);
    PrintParse(lang, Parse(lang, raw).rules);
  }

  // ---------- growth ----------

  lemma PrintLength(rules: seq<string>)
    ensures |Print(rules)| == Total(rules)
  {
    if rules != [] {
      JoinLength(rules, '\n');
    }
  }

  lemma GrowthBound(lang: Lang, raw: string)
    ensures 2 * |Print(Parse(lang, raw).rules)| <= 9 * (|raw| + 1)
  {
    ParseFacts(lang, raw);
    PrintLength(Parse(lang, raw).rules);
  }

  /** The same text `n` times. */
  function Repeat(s: string, n: nat): (r: seq<string>)
    ensures |r| == n && forall i :: 0 <= i < n ==> r[i] == s
  {
    seq(n, _ => s)
  }

  lemma {:induction false} RepeatTotal(s: string, n: nat)
    ensures Total(Repeat(s, n)) == n * (|s| + 1)
  {
    if n == 0 {
    } else {
      RepeatTotal(s, n - 1);
      assert Repeat(s, n)[..n - 1] == Repeat(s, n - 1);
      assert n * (|s| + 1) == (n - 1) * (|s| + 1) + |s| + 1;
    }
  }

  lemma ShortName(lang: Lang)
    requires !lang.isIP("a")
    ensures SanitizeLine(lang, "a") == Accepted("domain:a")
  {
    SpaceFreeTrim("a");
    assert Lower("a") == "a" && TrimSuffix("a", '.') == "a";
    assert Split("a", '.') == ["a"];
    assert ValidLabel("a");
    assert IndexOf("a", ':') < 0;
    CommentInRange("a", 1);
    assert NormalizeRule(lang, "a") == Some("domain" + ":" + "a");
  }

  lemma RepeatSizes(s: string, n: nat)
    requires n >= 1
    ensures |Join(Repeat(s, n), '\n')| == n * (|s| + 1) - 1
    ensures |Print(Repeat(s, n))| == n * (|s| + 1)
  {
    RepeatTotal(s, n);
    JoinLength(Repeat(s, n), '\n');
    PrintLength(Repeat(s, n));
  }

  /** A file of equal lines parses to equal rules. */
  lemma ParseRepeat(lang: Lang, line: string, rule: string, n: nat)
    requires SanitizeLine(lang, line) == Accepted(rule) && '\n' !in line && n >= 1
    ensures Parse(lang, Join(Repeat(line, n), '\n')) == Parsed(Repeat(rule, n), n, 0)
  {
    SplitJoin(Repeat(line, n), '\n');
    CollectAccepted(Results(lang, Repeat(line, n)), Repeat(rule, n));
  }

  /** The growth bound is attained: n one-letter lines grow to exactly 9/2 of their size. */
  lemma GrowthAttained(lang: Lang, n: nat)
    requires !lang.isIP("a") && n >= 1
    ensures var raw := Join(Repeat("a", n), '\n');
            && |raw| == 2 * n - 1
            && Parse(lang, raw).rules != []
            && |Print(Parse(lang, raw).rules)| == 9 * n
  {
    var line, rule := "a", "domain:a";
    ShortName(lang);
    ParseRepeat(lang, line, rule, n);
    RepeatSizes(line, n);
    RepeatSizes(rule, n);
  }

  const SAFE_SIZE := 233016

  /** The edge, exactly: files of up to n bytes are all guaranteed a cleaned form within the
      cap if and only if n <= 233016. */
  lemma SafeSizeExactly(lang: Lang, n: nat)
    requires !lang.isIP("a")
    ensures (forall raw: string :: |raw| <= n ==> |Print(Parse(lang, raw).rules)| <= MAX_RULE_FILE_BYTES)
            <==> n <= SAFE_SIZE
  {
    if n <= SAFE_SIZE {
      forall raw: string | |raw| <= n
        ensures |Print(Parse(lang, raw).rules)| <= MAX_RULE_FILE_BYTES
      {
        GrowthBound(lang, raw);
      }
    } else {
      GrowthAttained(lang, 116509);
      var raw := Join(Repeat("a", 116509), '\n');
      assert |raw| <= n && |Print(Parse(lang, raw).rules)| > MAX_RULE_FILE_BYTES;
    }
  }
}
