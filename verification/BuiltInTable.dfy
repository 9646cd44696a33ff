/**
 The sanitizer's built-in table, category by category, and what its expressions match: how many
 characters a match needs at the least, which short texts therefore no rule is found in, and for each
 category but one a text in two lines that some rule matches across the line feed while none matches
 either line. The expressions are built from words, sets of characters and repetition; each rule says
 whether it ignores ASCII case. What follows for the two checks of the sanitizer is in `BuiltInRules`.
 */
module BuiltInTable {
  import opened Regexes
  import opened Sanitizer
  import Exporter

  /** The expressions in order, one after the other. */
  function Then(rs: seq<Regex>): Regex {
    if rs == [] then Eps else if |rs| == 1 then rs[0] else Cat(rs[0], Then(rs[1..]))
  }

  function Times(r: Regex, n: nat): Regex {
    if n == 0 then Eps else Cat(r, Times(r, n - 1))
  }

  function Plus(r: Regex): Regex {
    Cat(r, Star(r))
  }

  const SPACE := OneOf(Exporter.SPACES)
  /** `[_\s]*` */
  const GAP := Star(OneOf(Exporter.SPACES + {'_'}))
  const SETS := OneOf({':', '='})
  const QUOTE := OneOf({'"', '\''})
  const ANY := Star(NoneOf({'\n'}))
  const HEX := OneOf({'0', '1', '2', '3', '4', '5', '6', '7', '8', '9',
                      'a', 'b', 'c', 'd', 'e', 'f', 'A', 'B', 'C', 'D', 'E', 'F'})

  const KEY_RULE :=
    Rule(Then([Text("private"), GAP, Text("key"), Star(SPACE), SETS]), true, "Private key assignment")

  const PRIVATE_DATA := Category("private_data", [
    KEY_RULE,
    Rule(Then([Text("seed"), GAP, Text("phrase"), Star(SPACE), SETS]), true, "Seed phrase assignment"),
    Rule(Then([Text("mnemonic"), Star(SPACE), SETS, Star(SPACE), QUOTE]), true, "Mnemonic literal"),
    Rule(Then([Text("wallet"), GAP, Text("secret"), Star(SPACE), SETS]), true, "Wallet secret"),
    Rule(Text("DARDAN_CONFIG"), true, "Dardan-specific config"),
    Rule(Then([Text("dardan"), OneOf({'_', '.'})]), true, "Dardan reference"),
    Rule(Then([Text("0x"), Times(HEX, 64)]), false, "Raw 256-bit hex literal (possible key)"),
    Rule(Then([Text("api"), GAP, Text("secret"), Star(SPACE), SETS, Star(SPACE), QUOTE]), true, "API secret literal"),
    Rule(Text("INTERNAL_SECRET"), true, "Internal secret marker"),
    Rule(Then([Text("password"), Star(SPACE), SETS, Star(SPACE), QUOTE, Plus(NoneOf({'"', '\''})), QUOTE]), true,
         "Hardcoded password")])

  const SECURITY_LAYER := Category("security_layer", [
    Rule(Text("MatrixSecurityLayer"), true, "Matrix security layer reference"),
    Rule(Text("NeoSafe.internal"), true, "NeoSafe internal reference"),
    Rule(Text("CLOSED_SOURCE_ONLY"), true, "Closed-source marker"),
    Rule(Then([Text("security_layer."), Alt(Text("encrypt"), Alt(Text("decrypt"), Text("sign")))]), true, "Security layer method"),
    Rule(Then([Text("from"), Plus(SPACE), Text("matrix.security")]), true, "Matrix security import"),
    Rule(Then([Text("import"), Plus(SPACE), ANY, Text("matrix.security")]), true, "Matrix security import")])

  const MATRIX_ROUTING := Category("matrix_routing", [
    Rule(Text("matrix.private."), true, "Matrix private routing"),
    Rule(Text("matrix.internal."), true, "Matrix internal routing"),
    Rule(Text("INTERNAL_ROUTE"), true, "Internal route marker"),
    Rule(Text("governance.internal"), true, "Internal governance endpoint"),
    Rule(Then([Text("from"), Plus(SPACE), Text("matrix.routing")]), true, "Matrix routing import"),
    Rule(Text("matrix_router."), true, "Matrix router reference")])

  const CLOSED_SOURCE := Category("closed_source", [
    Rule(Text("DO_NOT_EXPORT"), true, "Do-not-export marker"),
    Rule(Text("INTERNAL_USE_ONLY"), true, "Internal-use marker"),
    Rule(Text("PROPRIETARY"), true, "Proprietary marker"),
    Rule(Then([Text("#"), Alt(Text(" "), Eps), Text("COPYRIGHT"), ANY, Text("MATRIX")]), true, "Matrix copyright header"),
    Rule(Text("CONFIDENTIAL"), true, "Confidential marker")])

  const BUILT_IN := [PRIVATE_DATA, SECURITY_LAYER, MATRIX_ROUTING, CLOSED_SOURCE]

  // ---------------------------------------------------------------------------
  // How short a match can be
  // ---------------------------------------------------------------------------

  /** The least number of characters a match needs. */
  function MinLen(r: Regex): nat {
    match r
    case Eps => 0
    case Text(w) => |w|
    case OneOf(_) => 1
    case NoneOf(_) => 1
    case Cat(a, b) => MinLen(a) + MinLen(b)
    case Alt(a, b) => if MinLen(a) < MinLen(b) then MinLen(a) else MinLen(b)
    case Star(_) => 0
  }

  lemma {:induction false} MatchNeeds(ci: bool, r: Regex, s: string)
    requires InLang(ci, r, s)
    ensures |s| >= MinLen(r)
  {
    match r
    case Cat(a, b) =>
      var k :| 0 <= k <= |s| && InLang(ci, a, s[..k]) && InLang(ci, b, s[k..]);
      MatchNeeds(ci, a, s[..k]);
      MatchNeeds(ci, b, s[k..]);
    case Alt(a, b) =>
      if InLang(ci, a, s) {
        MatchNeeds(ci, a, s);
      } else {
        MatchNeeds(ci, b, s);
      }
    case _ =>
  }

  lemma ShortLineIsClean(ci: bool, r: Regex, line: string)
    requires |line| < MinLen(r)
    ensures !Found(ci, r, line)
  {
    forall i, j | 0 <= i <= j <= |line| ensures !InLang(ci, r, line[i..j]) {
      if InLang(ci, r, line[i..j]) {
        MatchNeeds(ci, r, line[i..j]);
      }
    }
  }

  lemma {:induction false} TimesNeeds(r: Regex, n: nat)
    requires MinLen(r) >= 1
    ensures MinLen(Times(r, n)) >= n
  {
    if n > 0 {
      TimesNeeds(r, n - 1);
    }
  }

  /** A sequence needs at least what one part, or two, of it need. */
  lemma {:induction false} PartNeeds(rs: seq<Regex>, k: nat)
    requires k < |rs|
    ensures MinLen(Then(rs)) >= MinLen(rs[k])
  {
    if k > 0 {
      PartNeeds(rs[1..], k - 1);
    }
  }

  lemma {:induction false} PartsNeed(rs: seq<Regex>, j: nat, k: nat)
    requires j < k < |rs|
    ensures MinLen(Then(rs)) >= MinLen(rs[j]) + MinLen(rs[k])
  {
    if j > 0 {
      PartsNeed(rs[1..], j - 1, k - 1);
    } else {
      PartNeeds(rs[1..], k - 1);
    }
  }

  lemma WordsNeed(rs: seq<Regex>, j: nat, a: string, k: nat, b: string)
    requires j < k < |rs| && rs[j] == Text(a) && rs[k] == Text(b)
    ensures MinLen(Then(rs)) >= |a| + |b|
  {
    PartsNeed(rs, j, k);
  }

  lemma PrivateDataNeeds(p: nat)
    requires p < |PRIVATE_DATA.rules|
    ensures MinLen(PRIVATE_DATA.rules[p].regex) >= 7
    ensures p != 5 ==> MinLen(PRIVATE_DATA.rules[p].regex) > 7
  {
    hide Then, Times;
    if p == 0 {
      WordsNeed([Text("private"), GAP, Text("key"), Star(SPACE), SETS], 0, "private", 2, "key");
    } else if p == 1 {
      WordsNeed([Text("seed"), GAP, Text("phrase"), Star(SPACE), SETS], 0, "seed", 2, "phrase");
    } else if p == 2 {
      PartNeeds([Text("mnemonic"), Star(SPACE), SETS, Star(SPACE), QUOTE], 0);
    } else if p == 3 {
      WordsNeed([Text("wallet"), GAP, Text("secret"), Star(SPACE), SETS], 0, "wallet", 2, "secret");
    } else if p == 5 {
      PartsNeed([Text("dardan"), OneOf({'_', '.'})], 0, 1);
    } else if p == 6 {
      PartNeeds([Text("0x"), Times(HEX, 64)], 1);
      TimesNeeds(HEX, 64);
    } else if p == 7 {
      WordsNeed([Text("api"), GAP, Text("secret"), Star(SPACE), SETS, Star(SPACE), QUOTE], 0, "api", 2, "secret");
    } else if p == 9 {
      PartNeeds([Text("password"), Star(SPACE), SETS, Star(SPACE), QUOTE, Plus(NoneOf({'"', '\''})), QUOTE], 0);
    }
  }

  lemma SecurityLayerNeeds(p: nat)
    requires p < |SECURITY_LAYER.rules|
    ensures MinLen(SECURITY_LAYER.rules[p].regex) > 15
  {
    hide Then;
    if p == 3 {
      PartsNeed([Text("security_layer."), Alt(Text("encrypt"), Alt(Text("decrypt"), Text("sign")))], 0, 1);
    } else if p == 4 {
      WordsNeed([Text("from"), Plus(SPACE), Text("matrix.security")], 0, "from", 2, "matrix.security");
    } else if p == 5 {
      WordsNeed([Text("import"), Plus(SPACE), ANY, Text("matrix.security")], 0, "import", 3, "matrix.security");
    }
  }

  lemma MatrixRoutingNeeds(p: nat)
    requires p < |MATRIX_ROUTING.rules|
    ensures MinLen(MATRIX_ROUTING.rules[p].regex) >= 14
    ensures p != 2 && p != 5 ==> MinLen(MATRIX_ROUTING.rules[p].regex) > 14
  {
    hide Then;
    if p == 4 {
      WordsNeed([Text("from"), Plus(SPACE), Text("matrix.routing")], 0, "from", 2, "matrix.routing");
    }
  }

  lemma ClosedSourceNeeds(p: nat)
    requires p < |CLOSED_SOURCE.rules|
    ensures MinLen(CLOSED_SOURCE.rules[p].regex) > 7
  {
    hide Then;
    if p == 3 {
      PartNeeds([Text("#"), Alt(Text(" "), Eps), Text("COPYRIGHT"), ANY, Text("MATRIX")], 2);
    }
  }

  // --- rules exactly as long as the line -------------------------------------------------

  /** A word as long as the line that differs from it somewhere is not found in it. */
  lemma WordMisses(w: string, line: string, at: nat)
    requires at < |w| == |line| && !Same(true, w[at], line[at])
    ensures !Found(true, Text(w), line)
  {
    hide InLang;
    forall i, j | 0 <= i <= j <= |line| ensures !InLang(true, Text(w), line[i..j]) {
      Exporter.WordMeans(w, line[i..j]);
    }
  }

  lemma DardanStart(head: string, line: string, i: nat, j: nat, k: nat)
    requires line == "private" && i <= j <= |line| && k < j - i && k == 6 && head == line[i..j][..k]
    ensures !Exporter.StartsWithWord("dardan", head)
  {
    assert i == 0 && head[0] == 'p';
    assert !Same(true, "dardan"[0], head[0]);
  }

  lemma DardanMisses()
    ensures !Found(true, PRIVATE_DATA.rules[5].regex, "private")
  {
    hide InLang;
    var dot := OneOf({'_', '.'});
    assert Then([Text("dardan"), dot]) == Cat(Text("dardan"), dot) by {
      assert [Text("dardan"), dot][1..] == [dot];
    }
    var line := "private";
    forall i, j | 0 <= i <= j <= |line| ensures !InLang(true, Cat(Text("dardan"), dot), line[i..j]) {
      var s := line[i..j];
      if InLang(true, Cat(Text("dardan"), dot), s) {
        Exporter.CatMeans(Text("dardan"), dot, s);
        var k :| 0 <= k <= |s| && InLang(true, Text("dardan"), s[..k]) && InLang(true, dot, s[k..]);
        Exporter.WordMeans("dardan", s[..k]);
        MatchNeeds(true, dot, s[k..]);
        DardanStart(s[..k], line, i, j, k);
      }
    }
  }

  // ---------------------------------------------------------------------------
  // Where the two checks part
  // ---------------------------------------------------------------------------

  lemma {:induction false} NoFeed(s: string)
    requires '\n' !in s
    ensures Split(s) == [s]
  {
    if s != "" {
      SplitCons(s);
      NoFeed(s[1..]);
      assert s[0] in s;
      assert s == [s[0]] + s[1..];
      assert [s] + [] == [s];
    }
  }

  lemma {:induction false} FirstPiece(a: string, b: string)
    requires '\n' !in a
    ensures Split(a + ("\n" + b)) == [a] + Split(b)
  {
    var s := a + ("\n" + b);
    SplitCons(s);
    if a == "" {
      assert s[1..] == b;
    } else {
      assert s[1..] == a[1..] + ("\n" + b);
      FirstPiece(a[1..], b);
      assert a[0] in a;
      assert [a[0]] + a[1..] == a;
      assert ([a[1..]] + Split(b))[1..] == Split(b);
    }
  }

  /** Two lines that no rule is found on, though one is found across them. */
  lemma AcrossLines(cs: seq<Category>, a: string, b: string, file: string)
    requires '\n' !in a && '\n' !in b && Matched(cs, a + ("\n" + b))
    requires forall c, p :: 0 <= c < |cs| && 0 <= p < |cs[c].rules| ==> !Hits(cs[c].rules[p], a) && !Hits(cs[c].rules[p], b)
    ensures !QuickClean(cs, a + ("\n" + b))
    ensures Scan(cs, a + ("\n" + b), file) == []
  {
    hide Hits, Scan, Split, QuickClean, Matched;
    var s := a + ("\n" + b);
    MatchedIsFound(cs, s);
    FirstPiece(a, b);
    NoFeed(b);
    ScanIsClean(cs, s, file);
  }

  /** Two lines for each of the first three categories: one of its rules matches them with the line
      feed between, none is found on either. */
  function Apart(c: nat): (string, string) {
    if c == 0 then ("private", "key=") else if c == 1 then ("from", "matrix.security") else ("from", "matrix.routing")
  }

  lemma Joined(a: Regex, s: string, b: Regex, t: string)
    requires InLang(true, a, s) && InLang(true, b, t)
    ensures InLang(true, Cat(a, b), s + t)
  {
    assert (s + t)[..|s|] == s && (s + t)[|s|..] == t;
  }

  lemma OneCharacter()
    ensures InLang(true, SETS, "=")
    ensures InLang(true, Star(SPACE), "")
    ensures InLang(true, GAP, "\n")
    ensures InLang(true, SPACE, "\n")
  {
    assert Same(true, '=', "="[0]);
    assert Same(true, '\n', "\n"[0]);
    var one := OneOf(Exporter.SPACES + {'_'});
    assert InLang(true, one, "\n");
    assert "\n"[..1] == "\n" && "\n"[1..] == "";
    assert InLang(true, GAP, "");
  }

  lemma WordItself(w: string)
    ensures InLang(true, Text(w), w)
  {
    Exporter.WordMeans(w, w);
  }

  lemma ThenCons(a: Regex, rest: seq<Regex>)
    requires rest != []
    ensures Then([a] + rest) == Cat(a, Then(rest))
  {
    assert ([a] + rest)[1..] == rest;
  }

  lemma KeyMatches()
    ensures InLang(true, KEY_RULE.regex, "private" + ("\n" + "key="))
  {
    hide InLang, Then;
    OneCharacter();
    WordItself("private");
    WordItself("key");
    var t1, t2, t3 := [SETS], [Star(SPACE), SETS], [Text("key"), Star(SPACE), SETS];
    var t4 := [GAP] + t3;
    assert t2 == [Star(SPACE)] + t1 && t3 == [Text("key")] + t2;
    ThenOne(SETS);
    ThenCons(Star(SPACE), t1);
    ThenCons(Text("key"), t2);
    ThenCons(GAP, t3);
    ThenCons(Text("private"), t4);
    assert [Text("private"), GAP, Text("key"), Star(SPACE), SETS] == [Text("private")] + t4;
    Joined(Star(SPACE), "", SETS, "=");
    assert "" + "=" == "=";
    Joined(Text("key"), "key", Then(t2), "=");
    assert "key" + "=" == "key=";
    Joined(GAP, "\n", Then(t3), "key=");
    Joined(Text("private"), "private", Then(t4), "\n" + "key=");
  }

  lemma ThenOne(r: Regex)
    ensures Then([r]) == r
  {
  }

  lemma FromMatches(w: string)
    ensures InLang(true, Then([Text("from"), Plus(SPACE), Text(w)]), "from" + ("\n" + w))
  {
    hide InLang, Then;
    OneCharacter();
    WordItself("from");
    WordItself(w);
    ThenOne(Text(w));
    ThenCons(Plus(SPACE), [Text(w)]);
    ThenCons(Text("from"), [Plus(SPACE), Text(w)]);
    assert [Plus(SPACE)] + [Text(w)] == [Plus(SPACE), Text(w)];
    assert [Text("from")] + [Plus(SPACE), Text(w)] == [Text("from"), Plus(SPACE), Text(w)];
    Joined(SPACE, "\n", Star(SPACE), "");
    assert "\n" + "" == "\n";
    Joined(Plus(SPACE), "\n", Text(w), w);
    Joined(Text("from"), "from", Then([Plus(SPACE), Text(w)]), "\n" + w);
  }

  lemma ApartMatches(c: nat)
    requires c < 3
    ensures Matched([BUILT_IN[c]], Apart(c).0 + ("\n" + Apart(c).1))
  {
    hide InLang, Then, Times;
    if c == 0 {
      KeyMatches();
      InTable(PRIVATE_DATA, 0, "private" + ("\n" + "key="));
    } else if c == 1 {
      FromMatches("matrix.security");
      InTable(SECURITY_LAYER, 4, "from" + ("\n" + "matrix.security"));
    } else {
      FromMatches("matrix.routing");
      InTable(MATRIX_ROUTING, 4, "from" + ("\n" + "matrix.routing"));
    }
  }

  lemma InTable(c: Category, p: nat, s: string)
    requires p < |c.rules| && InLang(c.rules[p].ci, c.rules[p].regex, s)
    ensures Matched([c], s)
  {
    hide InLang;
    assert [c][0] == c;
  }

  /** No built-in rule is found on "private", nor on any shorter line. */
  lemma ShortMisses(c: nat, p: nat, line: string)
    requires c < |BUILT_IN| && p < |BUILT_IN[c].rules| && (line == "private" || |line| < 7)
    ensures !Hits(BUILT_IN[c].rules[p], line)
  {
    hide InLang, Then, Times, MinLen, Found;
    if c == 0 {
      if p == 5 {
        if line == "private" {
          DardanMisses();
        } else {
          PrivateDataNeeds(p);
          ShortLineIsClean(true, PRIVATE_DATA.rules[5].regex, line);
        }
      } else {
        PrivateDataNeeds(p);
        ShortLineIsClean(PRIVATE_DATA.rules[p].ci, PRIVATE_DATA.rules[p].regex, line);
      }
    } else if c == 1 {
      SecurityLayerNeeds(p);
      ShortLineIsClean(SECURITY_LAYER.rules[p].ci, SECURITY_LAYER.rules[p].regex, line);
    } else if c == 2 {
      MatrixRoutingNeeds(p);
      ShortLineIsClean(MATRIX_ROUTING.rules[p].ci, MATRIX_ROUTING.rules[p].regex, line);
    } else {
      ClosedSourceNeeds(p);
      ShortLineIsClean(CLOSED_SOURCE.rules[p].ci, CLOSED_SOURCE.rules[p].regex, line);
    }
  }

  lemma SecondLineMisses(c: nat, p: nat)
    requires 1 <= c < 3 && p < |BUILT_IN[c].rules|
    ensures !Hits(BUILT_IN[c].rules[p], Apart(c).1)
  {
    hide InLang, Then, Times, MinLen, Found;
    if c == 1 {
      SecurityLayerNeeds(p);
      ShortLineIsClean(SECURITY_LAYER.rules[p].ci, SECURITY_LAYER.rules[p].regex, "matrix.security");
    } else if p == 2 {
      WordMisses("INTERNAL_ROUTE", "matrix.routing", 0);
    } else if p == 5 {
      WordMisses("matrix_router.", "matrix.routing", 6);
    } else {
      MatrixRoutingNeeds(p);
      ShortLineIsClean(MATRIX_ROUTING.rules[p].ci, MATRIX_ROUTING.rules[p].regex, "matrix.routing");
    }
  }

  // --- the category that cannot match a line feed ----------------------------------------

  lemma {:induction false} ThenIsLine(rs: seq<Regex>)
    requires forall k :: 0 <= k < |rs| ==> NewlineFree(rs[k])
    ensures NewlineFree(Then(rs))
  {
    if |rs| > 1 {
      ThenIsLine(rs[1..]);
    }
  }

  lemma ClosedSourceIsLine(p: nat)
    requires p < |CLOSED_SOURCE.rules|
    ensures NewlineFree(CLOSED_SOURCE.rules[p].regex)
  {
    hide Then;
    if p == 3 {
      ThenIsLine([Text("#"), Alt(Text(" "), Eps), Text("COPYRIGHT"), ANY, Text("MATRIX")]);
    }
  }
}
