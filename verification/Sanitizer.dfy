/**
 The sanitizer: a scan of every line of every file against every pattern, and a quick check that
 searches a text as a whole.
 */
module Sanitizer {
  import opened Regexes
  import Exporter

  /** One forbidden pattern: its expression, whether ASCII case is ignored, its description. */
  datatype Rule = Rule(regex: Regex, ci: bool, description: string)

  datatype Category = Category(name: string, rules: seq<Rule>)

  datatype Violation = Violation(file: string, line: nat, category: string, pattern: string, match_: string)

  // --- the scan --------------------------------------------------------------------

  predicate Hits(r: Rule, text: string) {
    Found(r.ci, r.regex, text)
  }

  function StripLeft(s: string): string {
    if s != "" && s[0] in Exporter.SPACES then StripLeft(s[1..]) else s
  }

  function StripRight(s: string): string {
    if s != "" && s[|s| - 1] in Exporter.SPACES then StripRight(s[..|s| - 1]) else s
  }

  /** `line.strip()[:120]` */
  function Excerpt(line: string): string {
    var t := StripRight(StripLeft(line));
    if |t| <= 120 then t else t[..120]
  }

  /** The line without the white space at its ends, cut to a hundred and twenty characters. */
  ghost predicate IsExcerpt(e: string, line: string) {
    exists a: nat, b: nat :: Trimmed(line, a, b) && e == line[a..if b - a <= 120 then b else a + 120]
  }

  predicate Trimmed(line: string, a: nat, b: nat) {
    && a <= b <= |line|
    && (forall i :: 0 <= i < a ==> line[i] in Exporter.SPACES)
    && (forall i :: b <= i < |line| ==> line[i] in Exporter.SPACES)
    && (a < b ==> line[a] !in Exporter.SPACES && line[b - 1] !in Exporter.SPACES)
  }

  lemma {:induction false} StripLeftIs(s: string) returns (a: nat)
    ensures a <= |s| && StripLeft(s) == s[a..] && (a < |s| ==> s[a] !in Exporter.SPACES)
    ensures forall i :: 0 <= i < a ==> s[i] in Exporter.SPACES
  {
    a := 0;
    if s != "" && s[0] in Exporter.SPACES {
      var n := StripLeftIs(s[1..]);
      a := n + 1;
      assert forall i :: 0 < i < a ==> s[i] == s[1..][i - 1];
    }
  }

  lemma {:induction false} StripRightIs(s: string) returns (b: nat)
    ensures b <= |s| && StripRight(s) == s[..b] && (b > 0 ==> s[b - 1] !in Exporter.SPACES)
    ensures forall i :: b <= i < |s| ==> s[i] in Exporter.SPACES
  {
    b := |s|;
    if s != "" && s[|s| - 1] in Exporter.SPACES {
      b := StripRightIs(s[..|s| - 1]);
    }
  }

  lemma TrimmedOnce(line: string, a: nat, b: nat, a': nat, b': nat)
    requires Trimmed(line, a, b) && Trimmed(line, a', b')
    ensures line[a..if b - a <= 120 then b else a + 120] == line[a'..if b' - a' <= 120 then b' else a' + 120]
  {
    if a' < b' {
      assert line[a'] !in Exporter.SPACES && line[b' - 1] !in Exporter.SPACES;
    }
  }

  lemma ExcerptMeans(line: string, e: string)
    ensures e == Excerpt(line) <==> IsExcerpt(e, line)
  {
    var a := StripLeftIs(line);
    var n := StripRightIs(line[a..]);
    var b := a + n;
    assert Trimmed(line, a, b) by {
      assert forall i :: b <= i < |line| ==> line[i] == line[a..][i - a];
    }
    assert Excerpt(line) == line[a..if n <= 120 then b else a + 120] by {
      assert line[a..][..n] == line[a..b];
    }
    hide StripLeft, StripRight, Excerpt;
    if IsExcerpt(e, line) {
      var x: nat, y: nat :| Trimmed(line, x, y) && e == line[x..if y - x <= 120 then y else x + 120];
      TrimmedOnce(line, a, b, x, y);
    }
  }

  function Report(file: string, n: nat, category: string, r: Rule, line: string): Violation {
    Violation(file, n, category, r.description, Excerpt(line))
  }

  /** What one rule reports on the first `n` lines. */
  function ScanLines(file: string, category: string, r: Rule, lines: seq<string>, n: nat): seq<Violation>
    requires n <= |lines|
  {
    if n == 0 then []
    else
      ScanLines(file, category, r, lines, n - 1)
      + (if Hits(r, lines[n - 1]) then [Report(file, n, category, r, lines[n - 1])] else [])
  }

  function ScanRules(file: string, category: Category, lines: seq<string>, n: nat): seq<Violation>
    requires n <= |category.rules|
  {
    if n == 0 then []
    else ScanRules(file, category, lines, n - 1) + ScanLines(file, category.name, category.rules[n - 1], lines, |lines|)
  }

  function ScanCategory(file: string, category: Category, lines: seq<string>): seq<Violation> {
    ScanRules(file, category, lines, |category.rules|)
  }

  function ScanCategories(file: string, categories: seq<Category>, lines: seq<string>, n: nat): seq<Violation>
    requires n <= |categories|
  {
    if n == 0 then []
    else
      ScanCategories(file, categories, lines, n - 1) + ScanCategory(file, categories[n - 1], lines)
  }

  function Scan(categories: seq<Category>, content: string, file: string): seq<Violation> {
    ScanCategories(file, categories, Split(content), |categories|)
  }

  /** The innermost loop: one rule over every line. */
  method ScanRule(file: string, category: string, rule: Rule, lines: seq<string>) returns (violations: seq<Violation>)
    ensures violations == ScanLines(file, category, rule, lines, |lines|)
  {
    hide Hits, Report;
    violations := [];
    var n := 0;
    while n < |lines|
      invariant 0 <= n <= |lines| && violations == ScanLines(file, category, rule, lines, n)
    {
      if Hits(rule, lines[n]) {
        violations := violations + [Report(file, n + 1, category, rule, lines[n])];
      }
      n := n + 1;
    }
  }

  /** Every rule of one category over every line. */
  method ScanOneCategory(file: string, category: Category, lines: seq<string>) returns (violations: seq<Violation>)
    ensures violations == ScanCategory(file, category, lines)
  {
    hide ScanLines;
    violations := [];
    var p := 0;
    while p < |category.rules|
      invariant 0 <= p <= |category.rules| && violations == ScanRules(file, category, lines, p)
    {
      var found := ScanRule(file, category.name, category.rules[p], lines);
      violations := violations + found;
      p := p + 1;
    }
  }

  /** Scan one file's content against every category. */
  method ScanContent(categories: seq<Category>, content: string, file: string) returns (violations: seq<Violation>)
    ensures violations == Scan(categories, content, file)
  {
    hide ScanCategory, Split;
    violations := [];
    var lines := Split(content);
    var c := 0;
    while c < |categories|
      invariant 0 <= c <= |categories| && violations == ScanCategories(file, categories, lines, c)
    {
      var found := ScanOneCategory(file, categories[c], lines);
      violations := violations + found;
      c := c + 1;
    }
  }

  predicate QuickClean(categories: seq<Category>, content: string) {
    forall c, p :: 0 <= c < |categories| && 0 <= p < |categories[c].rules| ==> !Hits(categories[c].rules[p], content)
  }

  /** True if no rule is found anywhere in the text; stops at the first that is. */
  method QuickCheck(categories: seq<Category>, content: string) returns (clean: bool)
    ensures clean == QuickClean(categories, content)
  {
    var c := 0;
    while c < |categories|
      invariant 0 <= c <= |categories|
      invariant forall i, p :: 0 <= i < c && 0 <= p < |categories[i].rules| ==> !Hits(categories[i].rules[p], content)
    {
      var p := 0;
      while p < |categories[c].rules|
        invariant 0 <= p <= |categories[c].rules|
        invariant forall q :: 0 <= q < p ==> !Hits(categories[c].rules[q], content)
      {
        if Hits(categories[c].rules[p], content) {
          return false;
        }
        p := p + 1;
      }
      c := c + 1;
    }
    clean := true;
  }

  datatype ScanResult = ScanResult(isClean: bool, violations: seq<Violation>, filesScanned: nat)

  function ScanFiles(categories: seq<Category>, files: seq<(string, string)>, n: nat): seq<Violation>
    requires n <= |files|
  {
    if n == 0 then [] else ScanFiles(categories, files, n - 1) + Scan(categories, files[n - 1].1, files[n - 1].0)
  }

  /** Scan every file of a bundle. */
  method Validate(categories: seq<Category>, files: seq<(string, string)>) returns (r: ScanResult)
    ensures r == ScanResult(r.violations == [], ScanFiles(categories, files, |files|), |files|)
  {
    var violations := [];
    var k := 0;
    while k < |files|
      invariant 0 <= k <= |files| && violations == ScanFiles(categories, files, k)
    {
      var found := ScanContent(categories, files[k].1, files[k].0);
      violations := violations + found;
      k := k + 1;
    }
    r := ScanResult(|violations| == 0, violations, |files|);
  }

  // ---------------------------------------------------------------------------
  // What the scan reports
  // ---------------------------------------------------------------------------

  lemma {:induction false} ScanLinesReports(file: string, category: string, r: Rule, lines: seq<string>, n: nat, v: Violation)
    requires n <= |lines|
    ensures v in ScanLines(file, category, r, lines, n)
            <==> exists k :: 0 <= k < n && Hits(r, lines[k]) && v == Report(file, k + 1, category, r, lines[k])
  {
    if n > 0 {
      hide Hits, Report;
      ScanLinesReports(file, category, r, lines, n - 1, v);
    }
  }

  lemma {:induction false} ScanRulesReports(file: string, c: Category, lines: seq<string>, n: nat, v: Violation)
    requires n <= |c.rules|
    ensures v in ScanRules(file, c, lines, n)
            <==> exists p :: 0 <= p < n && v in ScanLines(file, c.name, c.rules[p], lines, |lines|)
  {
    if n > 0 {
      hide ScanLines;
      ScanRulesReports(file, c, lines, n - 1, v);
      var before, last := ScanRules(file, c, lines, n - 1), ScanLines(file, c.name, c.rules[n - 1], lines, |lines|);
      assert ScanRules(file, c, lines, n) == before + last;
      hide ScanRules;
      var all := before + last;
      assert v in all <==> v in before || v in last;
      if p :| 0 <= p < n && v in ScanLines(file, c.name, c.rules[p], lines, |lines|) {
        assert p == n - 1 || p < n - 1;
      }
    }
  }

  lemma {:induction false} ScanCategoriesReports(file: string, cs: seq<Category>, lines: seq<string>, n: nat, v: Violation)
    requires n <= |cs|
    ensures v in ScanCategories(file, cs, lines, n)
            <==> exists c :: 0 <= c < n && v in ScanCategory(file, cs[c], lines)
  {
    if n > 0 {
      hide ScanCategory;
      ScanCategoriesReports(file, cs, lines, n - 1, v);
    }
  }

  /** Rule `p` of category `c` is found on line `k`. */
  predicate HitAt(cs: seq<Category>, content: string, c: nat, p: nat, k: nat) {
    c < |cs| && p < |cs[c].rules| && k < |Split(content)| && Hits(cs[c].rules[p], Split(content)[k])
  }

  /** The violation is what that hit is reported as. */
  ghost predicate ReportedBy(cs: seq<Category>, content: string, file: string, v: Violation, c: nat, p: nat, k: nat) {
    && HitAt(cs, content, c, p, k)
    && v.file == file
    && v.line == k + 1
    && v.category == cs[c].name
    && v.pattern == cs[c].rules[p].description
    && IsExcerpt(v.match_, Split(content)[k])
  }

  lemma ReportMeans(cs: seq<Category>, content: string, file: string, v: Violation, c: nat, p: nat, k: nat)
    requires HitAt(cs, content, c, p, k)
    ensures v == Report(file, k + 1, cs[c].name, cs[c].rules[p], Split(content)[k])
            <==> ReportedBy(cs, content, file, v, c, p, k)
  {
    hide Excerpt, IsExcerpt, Split, Hits;
    ExcerptMeans(Split(content)[k], v.match_);
  }

  /** The scan reports a violation exactly for every rule found on a line, with its line number. */
  lemma ScanReportsExactly(cs: seq<Category>, content: string, file: string, v: Violation)
    ensures v in Scan(cs, content, file) <==> exists c: nat, p: nat, k: nat :: ReportedBy(cs, content, file, v, c, p, k)
  {
    hide Hits, Report, Split, ScanLines, ScanRules, ScanCategories, IsExcerpt;
    var lines := Split(content);
    ScanCategoriesReports(file, cs, lines, |cs|, v);
    forall c | 0 <= c < |cs|
      ensures v in ScanCategory(file, cs[c], lines)
              <==> exists p :: 0 <= p < |cs[c].rules| && v in ScanLines(file, cs[c].name, cs[c].rules[p], lines, |lines|)
    {
      ScanRulesReports(file, cs[c], lines, |cs[c].rules|, v);
    }
    forall c, p | 0 <= c < |cs| && 0 <= p < |cs[c].rules|
      ensures v in ScanLines(file, cs[c].name, cs[c].rules[p], lines, |lines|)
              <==> exists k :: 0 <= k < |lines| && Hits(cs[c].rules[p], lines[k])
                               && v == Report(file, k + 1, cs[c].name, cs[c].rules[p], lines[k])
    {
      ScanLinesReports(file, cs[c].name, cs[c].rules[p], lines, |lines|, v);
    }
    if c: nat, p: nat, k: nat :| ReportedBy(cs, content, file, v, c, p, k) {
      ReportMeans(cs, content, file, v, c, p, k);
      assert v in ScanLines(file, cs[c].name, cs[c].rules[p], lines, |lines|);
      assert v in ScanCategory(file, cs[c], lines);
    }
    if v in ScanCategories(file, cs, lines, |cs|) {
      var c :| 0 <= c < |cs| && v in ScanCategory(file, cs[c], lines);
      var p :| 0 <= p < |cs[c].rules| && v in ScanLines(file, cs[c].name, cs[c].rules[p], lines, |lines|);
      var k :| 0 <= k < |lines| && Hits(cs[c].rules[p], lines[k])
               && v == Report(file, k + 1, cs[c].name, cs[c].rules[p], lines[k]);
      ReportMeans(cs, content, file, v, c, p, k);
      assert ReportedBy(cs, content, file, v, c, p, k);
    }
  }

  lemma ScanIsClean(cs: seq<Category>, content: string, file: string)
    ensures Scan(cs, content, file) == [] <==> forall c: nat, p: nat, k: nat :: !HitAt(cs, content, c, p, k)
  {
    hide Scan, HitAt;
    if Scan(cs, content, file) != [] {
      var v := Scan(cs, content, file)[0];
      ScanReportsExactly(cs, content, file, v);
    } else if c: nat, p: nat, k: nat :| HitAt(cs, content, c, p, k) {
      HitReported(cs, content, file, c, p, k);
    }
  }

  /** A bundle is clean exactly when no rule is found on any line of any of its files. */
  lemma {:induction false} BundleIsClean(cs: seq<Category>, files: seq<(string, string)>, n: nat)
    requires n <= |files|
    ensures ScanFiles(cs, files, n) == []
            <==> forall f: nat, c: nat, p: nat, k: nat :: f < n ==> !HitAt(cs, files[f].1, c, p, k)
  {
    if n > 0 {
      hide Scan, HitAt;
      BundleIsClean(cs, files, n - 1);
      ScanIsClean(cs, files[n - 1].1, files[n - 1].0);
    }
  }

  lemma HitReported(cs: seq<Category>, content: string, file: string, c: nat, p: nat, k: nat)
    requires HitAt(cs, content, c, p, k)
    ensures Scan(cs, content, file) != []
  {
    hide Scan, Hits, Report, Split;
    var v := Report(file, k + 1, cs[c].name, cs[c].rules[p], Split(content)[k]);
    ReportMeans(cs, content, file, v, c, p, k);
    assert ReportedBy(cs, content, file, v, c, p, k);
    ScanReportsExactly(cs, content, file, v);
  }

  // ---------------------------------------------------------------------------
  // The quick check and the scan
  // ---------------------------------------------------------------------------

  lemma HitBreaksQuick(cs: seq<Category>, content: string, c: nat, p: nat, k: nat)
    requires HitAt(cs, content, c, p, k)
    ensures !QuickClean(cs, content)
  {
    hide Found, Split;
    var r := cs[c].rules[p];
    LineMatchIsTextMatch(r.ci, r.regex, content, k);
    assert Hits(r, content);
  }

  /** A text the quick check passes has nothing to report. */
  lemma QuickCleanScansClean(cs: seq<Category>, content: string, file: string)
    requires QuickClean(cs, content)
    ensures Scan(cs, content, file) == []
  {
    hide Scan, HitAt, QuickClean;
    ScanIsClean(cs, content, file);
    if c: nat, p: nat, k: nat :| HitAt(cs, content, c, p, k) {
      HitBreaksQuick(cs, content, c, p, k);
    }
  }

  // --- exactly when they agree --------------------------------------------------------

  /** Some rule has a match in the text that holds no line feed. */
  predicate LineMatch(cs: seq<Category>, content: string) {
    exists c, p :: 0 <= c < |cs| && 0 <= p < |cs[c].rules|
                   && FoundWithoutFeed(cs[c].rules[p].ci, cs[c].rules[p].regex, content)
  }

  /** The scan reports something exactly when some rule has a match that holds no line feed. */
  lemma ScanFindsLineMatches(cs: seq<Category>, content: string, file: string)
    ensures Scan(cs, content, file) != [] <==> LineMatch(cs, content)
  {
    hide Scan, Found, Split, FoundWithoutFeed;
    ScanIsClean(cs, content, file);
    if c: nat, p: nat, k: nat :| HitAt(cs, content, c, p, k) {
      var r := cs[c].rules[p];
      LineSearchIff(r.ci, r.regex, content);
      assert FoundOnALine(r.ci, r.regex, content);
    }
    if c, p :| 0 <= c < |cs| && 0 <= p < |cs[c].rules|
               && FoundWithoutFeed(cs[c].rules[p].ci, cs[c].rules[p].regex, content) {
      var r := cs[c].rules[p];
      LineSearchIff(r.ci, r.regex, content);
      var k :| 0 <= k < |Split(content)| && Found(r.ci, r.regex, Split(content)[k]);
      assert HitAt(cs, content, c, p, k);
    }
  }

  predicate ChecksAgree(cs: seq<Category>, content: string, file: string) {
    QuickClean(cs, content) <==> Scan(cs, content, file) == []
  }

  /** The quick check and the scan agree on a text exactly when the text is clean to the quick check
      or some rule has a match in it that holds no line feed. */
  lemma ChecksAgreeIff(cs: seq<Category>, content: string, file: string)
    ensures ChecksAgree(cs, content, file) <==> QuickClean(cs, content) || LineMatch(cs, content)
  {
    hide Scan, QuickClean, LineMatch;
    ScanFindsLineMatches(cs, content, file);
    if QuickClean(cs, content) {
      QuickCleanScansClean(cs, content, file);
    }
  }

  /** A string that a rule matches as a whole. */
  predicate Matched(cs: seq<Category>, s: string) {
    exists c, p :: 0 <= c < |cs| && 0 <= p < |cs[c].rules| && InLang(cs[c].rules[p].ci, cs[c].rules[p].regex, s)
  }

  lemma MatchInside(cs: seq<Category>, content: string)
    requires !QuickClean(cs, content)
    ensures exists i, j :: 0 <= i <= j <= |content| && Matched(cs, content[i..j])
  {
    hide InLang;
    var c, p :| 0 <= c < |cs| && 0 <= p < |cs[c].rules| && Hits(cs[c].rules[p], content);
    var i, j :| 0 <= i <= j <= |content| && InLang(cs[c].rules[p].ci, cs[c].rules[p].regex, content[i..j]);
    assert Matched(cs, content[i..j]);
  }

  lemma MatchedIsFound(cs: seq<Category>, s: string)
    requires Matched(cs, s)
    ensures !QuickClean(cs, s)
  {
    hide InLang;
    var c, p :| 0 <= c < |cs| && 0 <= p < |cs[c].rules| && InLang(cs[c].rules[p].ci, cs[c].rules[p].regex, s);
    assert s[0..|s|] == s;
    assert Hits(cs[c].rules[p], s);
  }

  lemma LineMatchInPart(cs: seq<Category>, s: string, i: nat, j: nat)
    requires i <= j <= |s| && LineMatch(cs, s[i..j])
    ensures LineMatch(cs, s)
  {
    hide InLang;
    var c, p :| 0 <= c < |cs| && 0 <= p < |cs[c].rules|
                && FoundWithoutFeed(cs[c].rules[p].ci, cs[c].rules[p].regex, s[i..j]);
    PartKeepsMatch(cs[c].rules[p].ci, cs[c].rules[p].regex, s, i, j);
  }

  lemma SliceOfSlice(s: string, i: nat, j: nat, x: nat, y: nat)
    requires i <= j <= |s| && x <= y <= j - i
    ensures s[i..j][x..y] == s[i + x..i + y]
  {
    forall k | 0 <= k < y - x ensures s[i..j][x..y][k] == s[i + x..i + y][k] {
      assert s[i..j][x..y][k] == s[i..j][x + k];
    }
  }

  lemma PartKeepsMatch(ci: bool, r: Regex, s: string, i: nat, j: nat)
    requires i <= j <= |s| && FoundWithoutFeed(ci, r, s[i..j])
    ensures FoundWithoutFeed(ci, r, s)
  {
    hide InLang;
    var t := s[i..j];
    var x, y :| 0 <= x <= y <= |t| && InLang(ci, r, t[x..y]) && '\n' !in t[x..y];
    SliceOfSlice(s, i, j, x, y);
  }

  /** A table's two checks agree on every text exactly when every string that one of its rules
      matches holds a match, of some rule, without a line feed. */
  lemma ChecksAlwaysAgreeIff(cs: seq<Category>, file: string)
    ensures (forall s :: ChecksAgree(cs, s, file)) <==> (forall s :: Matched(cs, s) ==> LineMatch(cs, s))
  {
    hide ChecksAgree, Matched, LineMatch, QuickClean;
    if forall s :: ChecksAgree(cs, s, file) {
      forall s | Matched(cs, s) ensures LineMatch(cs, s) {
        MatchedIsFound(cs, s);
        ChecksAgreeIff(cs, s, file);
      }
    }
    if forall s :: Matched(cs, s) ==> LineMatch(cs, s) {
      forall s ensures ChecksAgree(cs, s, file) {
        ChecksAgreeIff(cs, s, file);
        if !QuickClean(cs, s) {
          MatchInside(cs, s);
          var i, j :| 0 <= i <= j <= |s| && Matched(cs, s[i..j]);
          LineMatchInPart(cs, s, i, j);
        }
      }
    }
  }

  /** No rule can match a line feed. */
  predicate LineRules(cs: seq<Category>) {
    forall c, p :: 0 <= c < |cs| && 0 <= p < |cs[c].rules| ==> NewlineFree(cs[c].rules[p].regex)
  }

  /** In particular, they agree for rules that cannot match a line feed. */
  lemma ScanAgreesOnLineRules(cs: seq<Category>, content: string, file: string)
    requires LineRules(cs)
    ensures QuickClean(cs, content) <==> Scan(cs, content, file) == []
  {
    hide Scan, InLang, NewlineFree;
    ChecksAgreeIff(cs, content, file);
    if c, p :| 0 <= c < |cs| && 0 <= p < |cs[c].rules| && Hits(cs[c].rules[p], content) {
      var r := cs[c].rules[p];
      var i, j :| 0 <= i <= j <= |content| && InLang(r.ci, r.regex, content[i..j]);
      NoNewlineMatched(r.ci, r.regex, content[i..j]);
      assert FoundWithoutFeed(r.ci, r.regex, content);
    }
  }

  // ---------------------------------------------------------------------------
  // The exporter and the sanitizer
  // ---------------------------------------------------------------------------

  /** The rule searches for what one of the exporter's patterns searches for. */
  ghost predicate Shared(r: Rule) {
    exists k :: 0 <= k < |Exporter.PRIVATE_PATTERNS| && r.ci && r.regex == Exporter.AsRegex(Exporter.PRIVATE_PATTERNS[k])
  }

  /** Text that went through the exporter triggers no rule the two have in common. */
  lemma StrippedTextPassesSharedRules(cs: seq<Category>, content: string, c: nat, p: nat, k: nat)
    requires c < |cs| && p < |cs[c].rules|
    ensures Shared(cs[c].rules[p]) ==> !HitAt(cs, Exporter.Strip(Exporter.PRIVATE_PATTERNS, content), c, p, k)
  {
    hide Exporter.Strip, Exporter.HasMatch, Found, Split, Exporter.AsRegex;
    var text, r := Exporter.Strip(Exporter.PRIVATE_PATTERNS, content), cs[c].rules[p];
    if q :| 0 <= q < |Exporter.PRIVATE_PATTERNS| && r.ci && r.regex == Exporter.AsRegex(Exporter.PRIVATE_PATTERNS[q]) {
      Exporter.StripTheorem(content);
      Exporter.SearchIsFound(Exporter.PRIVATE_PATTERNS[q], text);
      if HitAt(cs, text, c, p, k) {
        LineMatchIsTextMatch(r.ci, r.regex, text, k);
      }
    }
  }

  /** Whatever text went through the exporter, each thing a scan reports in it comes from a rule that
      is not one of the exporter's patterns. */
  lemma StrippedTextReports(cs: seq<Category>, content: string, file: string, v: Violation)
    requires v in Scan(cs, Exporter.Strip(Exporter.PRIVATE_PATTERNS, content), file)
    ensures exists c: nat, p: nat, k: nat ::
              && ReportedBy(cs, Exporter.Strip(Exporter.PRIVATE_PATTERNS, content), file, v, c, p, k)
              && !Shared(cs[c].rules[p])
  {
    hide Exporter.Strip, Scan, Split, Report, Shared, Hits;
    var text := Exporter.Strip(Exporter.PRIVATE_PATTERNS, content);
    ScanReportsExactly(cs, text, file, v);
    var c: nat, p: nat, k: nat :| ReportedBy(cs, text, file, v, c, p, k);
    StrippedTextPassesSharedRules(cs, content, c, p, k);
  }
}
