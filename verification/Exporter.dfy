/**
 The exporter's rewriting of private references: each of ten patterns in turn is replaced wherever
 it is found.  Proved complete and idempotent.
 */
module Exporter {
  import opened Wrappers
  import opened Regexes

  /** A private pattern: a word, for some followed by optional white space and `=`; ASCII case is
      ignored. */
  datatype Pattern = Pattern(word: string, assigns: bool)

  const PRIVATE_PATTERNS: seq<Pattern> := [
    Pattern("PRIVATE_KEY", true),
    Pattern("SEED_PHRASE", true),
    Pattern("WALLET_SECRET", true),
    Pattern("DARDAN_CONFIG", false),
    Pattern("INTERNAL_USE_ONLY", false),
    Pattern("DO_NOT_EXPORT", false),
    Pattern("CLOSED_SOURCE_ONLY", false),
    Pattern("MatrixSecurityLayer", false),
    Pattern("NeoSafe.internal", false),
    Pattern("matrix.private.", false)]

  const REPLACEMENT := "# [STRIPPED BY BRIDGE]"

  /** The ASCII characters `\s` matches. */
  const SPACES: set<char> := {' ', '\t', '\n', '\r', '\U{0B}', '\U{0C}', '\U{1C}', '\U{1D}', '\U{1E}', '\U{1F}'}

  predicate StartsWithWord(word: string, s: string) {
    |word| <= |s| && forall i :: 0 <= i < |word| ==> Same(true, word[i], s[i])
  }

  function SpaceRun(s: string): (n: nat)
    ensures n <= |s|
    ensures forall i :: 0 <= i < n ==> s[i] in SPACES
    ensures n < |s| ==> s[n] !in SPACES
  {
    if s == "" || s[0] !in SPACES then 0 else 1 + SpaceRun(s[1..])
  }

  /** Length of the match at the start of `s`, if there is one. */
  function MatchLen(p: Pattern, s: string): (n: Option<nat>)
    ensures n.Some? ==> |p.word| <= n.value <= |s|
  {
    if !StartsWithWord(p.word, s) then None
    else if !p.assigns then Some(|p.word|)
    else
      var rest := s[|p.word|..];
      var n := SpaceRun(rest);
      if n < |rest| && rest[n] == '=' then Some(|p.word| + n + 1) else None
  }

  /** `pattern.search(s)` */
  predicate HasMatch(p: Pattern, s: string) {
    MatchLen(p, s).Some? || (s != "" && HasMatch(p, s[1..]))
  }

  /** `pattern.sub(REPLACEMENT, s)`: leftmost matches, left to right, without overlap. */
  function Sub(p: Pattern, s: string): string
    decreases |s|
  {
    if s == "" then ""
    else
      var n := MatchLen(p, s);
      if n.Some? && n.value > 0 then REPLACEMENT + Sub(p, s[n.value..]) else [s[0]] + Sub(p, s[1..])
  }

  function Strip(ps: seq<Pattern>, s: string): string {
    if ps == [] then s
    else
      var before := Strip(ps[..|ps| - 1], s);
      if HasMatch(ps[|ps| - 1], before) then Sub(ps[|ps| - 1], before) else before
  }

  /** The source's loop over the patterns. */
  method StripPrivateRefs(content: string) returns (r: string)
    ensures r == Strip(PRIVATE_PATTERNS, content)
  {
    r := content;
    var k := 0;
    while k < |PRIVATE_PATTERNS|
      invariant 0 <= k <= |PRIVATE_PATTERNS| && r == Strip(PRIVATE_PATTERNS[..k], content)
    {
      assert PRIVATE_PATTERNS[..k + 1][..k] == PRIVATE_PATTERNS[..k];
      if HasMatch(PRIVATE_PATTERNS[k], r) {
        r := Sub(PRIVATE_PATTERNS[k], r);
      }
      k := k + 1;
    }
    assert PRIVATE_PATTERNS[..k] == PRIVATE_PATTERNS;
  }

  // ---------------------------------------------------------------------------
  // No replacement creates a match
  // ---------------------------------------------------------------------------

  /** No position of `r` reads `a` then `b`, the end of `r` counting as any second character. */
  predicate NoPair(r: string, a: char, b: char) {
    forall i :: 0 <= i < |r| && Same(true, a, r[i]) ==> i + 1 < |r| && !Same(true, b, r[i + 1])
  }

  /** The word does not begin inside the replacement, and no match contains its first character. */
  predicate Safe(p: Pattern) {
    && |p.word| >= 2
    && (forall i :: 0 <= i < |p.word| ==> !Same(true, p.word[i], '#'))
    && NoPair(REPLACEMENT, p.word[0], p.word[1])
  }

  /** The letters that follow one another in the replacement, ignoring case. */
  lemma ReplacementLetters()
    ensures |REPLACEMENT| == 22
    ensures forall i :: 0 <= i < 22 ==>
              Lower(REPLACEMENT[i]) == "# [stripped by bridge]"[i]
  {
  }

  lemma SafeWord(p: Pattern)
    requires |p.word| >= 2 && forall i :: 0 <= i < |p.word| ==> p.word[i] != '#'
    requires (Lower(p.word[0]), Lower(p.word[1])) in
             {('p', 'r'), ('s', 'e'), ('w', 'a'), ('d', 'a'), ('i', 'n'), ('d', 'o'), ('c', 'l'), ('m', 'a'), ('n', 'e')}
    ensures Safe(p)
  {
    ReplacementLetters();
    assert forall i :: 0 <= i < |p.word| ==> !Same(true, p.word[i], '#');
    hide Lower;
    var low := "# [stripped by bridge]";
    forall i | 0 <= i < 22 && Lower(p.word[0]) == low[i] ensures i + 1 < 22 && Lower(p.word[1]) != low[i + 1] {
    }
  }

  lemma SafeFrom(k: nat)
    requires k < |PRIVATE_PATTERNS|
    ensures Safe(PRIVATE_PATTERNS[k])
  {
    hide Safe;
    if k < 5 {
      assert PRIVATE_PATTERNS[..5][k] == PRIVATE_PATTERNS[k];
      SafeWord(PRIVATE_PATTERNS[..5][k]);
    } else {
      assert PRIVATE_PATTERNS[5..][k - 5] == PRIVATE_PATTERNS[k];
      SafeWord(PRIVATE_PATTERNS[5..][k - 5]);
    }
  }

  lemma TenAreSafe()
    ensures forall k :: 0 <= k < |PRIVATE_PATTERNS| ==> Safe(PRIVATE_PATTERNS[k])
  {
    hide Safe;
    forall k | 0 <= k < |PRIVATE_PATTERNS| ensures Safe(PRIVATE_PATTERNS[k]) {
      SafeFrom(k);
    }
  }

  /** A match reads no `#`. */
  lemma MatchHasNoHash(p: Pattern, s: string)
    requires Safe(p) && MatchLen(p, s).Some?
    ensures MatchLen(p, s).value > 0
    ensures '#' !in s[..MatchLen(p, s).value] && forall i :: 0 <= i < MatchLen(p, s).value ==> s[i] != '#'
  {
    var n := MatchLen(p, s).value;
    var rest := s[|p.word|..];
    forall i | 0 <= i < n ensures s[i] != '#' {
      if i >= |p.word| {
        assert s[i] == rest[i - |p.word|];
      }
    }
  }

  lemma SpaceRunIs(s: string, n: nat)
    requires n < |s| && s[n] !in SPACES && forall i :: 0 <= i < n ==> s[i] in SPACES
    ensures SpaceRun(s) == n
  {
    var m := SpaceRun(s);
  }

  /** Whether there is a match depends on the matched characters alone. */
  lemma MatchDependsOnPrefix(p: Pattern, s: string, t: string, n: nat)
    requires MatchLen(p, s) == Some(n) && n <= |t| && s[..n] == t[..n]
    ensures MatchLen(p, t) == Some(n)
  {
    assert forall i :: 0 <= i < n ==> s[i] == s[..n][i] == t[..n][i] == t[i];
    if p.assigns {
      var m := n - |p.word| - 1;
      var a, b := s[|p.word|..], t[|p.word|..];
      assert forall i :: 0 <= i <= m ==> a[i] == b[i];
      SpaceRunIs(b, m);
    }
  }

  /** What a substitution leaves before its first replacement is untouched. */
  lemma {:induction false} UntouchedPrefix(q: Pattern, s: string, m: nat)
    requires m <= |Sub(q, s)| && '#' !in Sub(q, s)[..m]
    ensures m <= |s| && Sub(q, s)[..m] == s[..m]
    decreases |s|
  {
    if m > 0 && s != "" {
      var n := MatchLen(q, s);
      assert Sub(q, s)[0] == Sub(q, s)[..m][0] != '#';
      assert REPLACEMENT[0] == '#';
      if n.None? || n.value == 0 {
        var tail := Sub(q, s[1..]);
        assert Sub(q, s)[..m] == [s[0]] + tail[..m - 1];
        UntouchedPrefix(q, s[1..], m - 1);
        assert s[..m] == [s[0]] + s[1..][..m - 1];
      }
    }
  }

  lemma {:induction false} NoMatchInside(p: Pattern, r: string, t: string)
    requires |p.word| >= 2 && NoPair(r, p.word[0], p.word[1]) && HasMatch(p, r + t)
    ensures HasMatch(p, t)
  {
    if r == "" {
      assert r + t == t;
    } else {
      assert (r + t)[1..] == r[1..] + t && (r + t)[0] == r[0];
      assert |r| > 1 ==> (r + t)[1] == r[1];
      NoMatchInside(p, r[1..], t);
    }
  }

  lemma {:induction false} MatchInSuffix(p: Pattern, s: string, n: nat)
    requires n <= |s| && HasMatch(p, s[n..])
    ensures HasMatch(p, s)
  {
    if n > 0 {
      assert s[1..][n - 1..] == s[n..];
      MatchInSuffix(p, s[1..], n - 1);
    } else {
      assert s[0..] == s;
    }
  }

  /** A kept character that starts a match after the substitution started one before it. */
  lemma KeptMatch(p: Pattern, q: Pattern, s: string)
    requires Safe(p) && s != "" && MatchLen(p, Sub(q, s)).Some?
    ensures MatchLen(p, s).Some?
  {
    hide MatchLen, Sub, Safe;
    MatchHasNoHash(p, Sub(q, s));
    var m := MatchLen(p, Sub(q, s)).value;
    UntouchedPrefix(q, s, m);
    MatchDependsOnPrefix(p, Sub(q, s), s, m);
  }

  lemma SubReplaces(q: Pattern, s: string, n: nat)
    requires s != "" && MatchLen(q, s) == Some(n) && n > 0
    ensures Sub(q, s) == REPLACEMENT + Sub(q, s[n..])
  {
  }

  lemma SubKeeps(q: Pattern, s: string)
    requires s != "" && (MatchLen(q, s).None? || MatchLen(q, s).value == 0)
    ensures Sub(q, s) == [s[0]] + Sub(q, s[1..])
    ensures Sub(q, s)[1..] == Sub(q, s[1..])
  {
  }

  /** A substitution creates no match of any pattern. */
  lemma {:induction false} SubCreatesNothing(p: Pattern, q: Pattern, s: string)
    requires Safe(p) && HasMatch(p, Sub(q, s))
    ensures HasMatch(p, s)
    decreases |s|
  {
    if s != "" {
      var n := MatchLen(q, s);
      if n.Some? && n.value > 0 {
        hide MatchLen, Sub, NoPair;
        SubReplaces(q, s, n.value);
        NoMatchInside(p, REPLACEMENT, Sub(q, s[n.value..]));
        SubCreatesNothing(p, q, s[n.value..]);
        MatchInSuffix(p, s, n.value);
      } else {
        hide MatchLen, Sub, NoPair, Safe;
        SubKeeps(q, s);
        if MatchLen(p, Sub(q, s)).Some? {
          KeptMatch(p, q, s);
        } else {
          SubCreatesNothing(p, q, s[1..]);
        }
      }
    }
  }

  /** A substitution leaves no match of its own pattern. */
  lemma {:induction false} SubIsClean(q: Pattern, s: string)
    requires Safe(q)
    ensures !HasMatch(q, Sub(q, s))
    decreases |s|
  {
    if s != "" {
      var n := MatchLen(q, s);
      if n.Some? {
        hide Sub, NoPair;
        MatchHasNoHash(q, s);
        SubReplaces(q, s, n.value);
        SubIsClean(q, s[n.value..]);
        if HasMatch(q, Sub(q, s)) {
          NoMatchInside(q, REPLACEMENT, Sub(q, s[n.value..]));
        }
      } else {
        hide Sub, NoPair, MatchLen, Safe;
        SubKeeps(q, s);
        SubIsClean(q, s[1..]);
        if MatchLen(q, Sub(q, s)).Some? {
          KeptMatch(q, q, s);
        }
      }
    }
  }

  ghost predicate AllSafe(ps: seq<Pattern>) {
    forall k :: 0 <= k < |ps| ==> Safe(ps[k])
  }

  ghost predicate Clean(ps: seq<Pattern>, s: string) {
    forall k :: 0 <= k < |ps| ==> !HasMatch(ps[k], s)
  }

  /** After the loop no pattern, early or late, has a match left. */
  lemma {:induction false} StripIsComplete(ps: seq<Pattern>, s: string)
    requires AllSafe(ps)
    ensures Clean(ps, Strip(ps, s))
  {
    if ps != [] {
      hide HasMatch, Sub, Safe;
      var n := |ps| - 1;
      StripIsComplete(ps[..n], s);
      var before, q := Strip(ps[..n], s), ps[n];
      assert forall k :: 0 <= k < n ==> ps[k] == ps[..n][k];
      if HasMatch(q, before) {
        SubIsClean(q, before);
        forall k | 0 <= k < n ensures !HasMatch(ps[k], Sub(q, before)) {
          if HasMatch(ps[k], Sub(q, before)) {
            SubCreatesNothing(ps[k], q, before);
          }
        }
      }
    }
  }

  lemma {:induction false} CleanIsUntouched(ps: seq<Pattern>, s: string)
    requires Clean(ps, s)
    ensures Strip(ps, s) == s
  {
    if ps != [] {
      hide HasMatch, Sub;
      var n := |ps| - 1;
      assert forall k :: 0 <= k < n ==> ps[k] == ps[..n][k];
      CleanIsUntouched(ps[..n], s);
    }
  }

  /** Stripping is complete: for every text, none of the ten patterns matches the result; text none
      of them matches is returned as it is; so a second pass changes nothing. */
  lemma StripTheorem(s: string)
    ensures Clean(PRIVATE_PATTERNS, Strip(PRIVATE_PATTERNS, s))
    ensures Clean(PRIVATE_PATTERNS, s) <==> Strip(PRIVATE_PATTERNS, s) == s
    ensures Strip(PRIVATE_PATTERNS, Strip(PRIVATE_PATTERNS, s)) == Strip(PRIVATE_PATTERNS, s)
  {
    TenAreSafe();
    hide HasMatch, Safe, Strip;
    StripIsComplete(PRIVATE_PATTERNS, s);
    CleanIsUntouched(PRIVATE_PATTERNS, Strip(PRIVATE_PATTERNS, s));
    if Clean(PRIVATE_PATTERNS, s) {
      CleanIsUntouched(PRIVATE_PATTERNS, s);
    }
  }

  // ---------------------------------------------------------------------------
  // The patterns as regular expressions
  // ---------------------------------------------------------------------------

  const SPACE_STAR := Star(OneOf(SPACES))

  function AsRegex(p: Pattern): Regex {
    if p.assigns then Cat(Text(p.word), Cat(SPACE_STAR, Text("="))) else Text(p.word)
  }

  lemma WordMeans(w: string, s: string)
    ensures InLang(true, Text(w), s) <==> |s| == |w| && StartsWithWord(w, s)
  {
  }

  lemma SpaceOne(s: string)
    ensures InLang(true, OneOf(SPACES), s) <==> |s| == 1 && s[0] in SPACES
  {
    if |s| == 1 && s[0] in SPACES {
      assert Same(true, s[0], s[0]);
    }
  }

  lemma {:induction false} SpaceStarMeans(s: string)
    ensures InLang(true, SPACE_STAR, s) <==> forall i :: 0 <= i < |s| ==> s[i] in SPACES
    decreases |s|
  {
    if s != "" {
      if InLang(true, SPACE_STAR, s) {
        var k :| 0 < k <= |s| && InLang(true, OneOf(SPACES), s[..k]) && InLang(true, SPACE_STAR, s[k..]);
        SpaceOne(s[..k]);
        SpaceStarMeans(s[k..]);
        assert k == 1;
        assert forall i :: 1 <= i < |s| ==> s[i] == s[1..][i - 1];
      }
      if forall i :: 0 <= i < |s| ==> s[i] in SPACES {
        SpaceOne(s[..1]);
        SpaceStarMeans(s[1..]);
        assert InLang(true, OneOf(SPACES), s[..1]) && InLang(true, SPACE_STAR, s[1..]);
      }
    }
  }

  lemma AssignmentMeans(s: string)
    ensures InLang(true, Cat(SPACE_STAR, Text("=")), s)
            <==> s != "" && s[|s| - 1] == '=' && forall i :: 0 <= i < |s| - 1 ==> s[i] in SPACES
  {
    hide InLang;
    if InLang(true, Cat(SPACE_STAR, Text("=")), s) {
      CatMeans(SPACE_STAR, Text("="), s);
      var k :| 0 <= k <= |s| && InLang(true, SPACE_STAR, s[..k]) && InLang(true, Text("="), s[k..]);
      SpaceStarMeans(s[..k]);
      WordMeans("=", s[k..]);
      assert k == |s| - 1 && s[k..][0] == s[k];
      assert forall i :: 0 <= i < k ==> s[i] == s[..k][i];
    }
    if s != "" && s[|s| - 1] == '=' && forall i :: 0 <= i < |s| - 1 ==> s[i] in SPACES {
      var k := |s| - 1;
      SpaceStarMeans(s[..k]);
      WordMeans("=", s[k..]);
      CatMeans(SPACE_STAR, Text("="), s);
    }
  }

  /** The match found at a position is the one the regular expression describes. */
  lemma MatchIsInLang(p: Pattern, s: string, n: nat)
    requires n <= |s|
    ensures MatchLen(p, s) == Some(n) <==> InLang(true, AsRegex(p), s[..n])
  {
    if !p.assigns {
      WordMeans(p.word, s[..n]);
    } else {
      AssignedMatch(p, s, n);
    }
  }

  lemma MatchToLang(p: Pattern, s: string, n: nat)
    requires n <= |s| && p.assigns && MatchLen(p, s) == Some(n)
    ensures InLang(true, AsRegex(p), s[..n])
  {
    hide InLang;
    var w, m, rest := |p.word|, s[..n], s[|p.word|..];
    WordMeans(p.word, m[..w]);
    AssignmentMeans(m[w..]);
    assert forall i :: 0 <= i < n - w ==> m[w..][i] == rest[i];
    CatMeans(Text(p.word), Cat(SPACE_STAR, Text("=")), m);
  }

  lemma LangToMatch(p: Pattern, s: string, n: nat)
    requires n <= |s| && p.assigns && InLang(true, AsRegex(p), s[..n])
    ensures MatchLen(p, s) == Some(n)
  {
    hide InLang;
    var m := s[..n];
    var gap := Cat(SPACE_STAR, Text("="));
    CatMeans(Text(p.word), gap, m);
    var k :| 0 <= k <= |m| && InLang(true, Text(p.word), m[..k]) && InLang(true, gap, m[k..]);
    WordMeans(p.word, m[..k]);
    AssignmentMeans(m[k..]);
    var w := |p.word|;
    var rest := s[w..];
    assert forall i :: 0 <= i < n - w ==> m[w..][i] == rest[i];
    SpaceRunIs(rest, n - w - 1);
    assert forall i :: 0 <= i < w ==> m[..w][i] == s[i];
  }

  lemma AssignedMatch(p: Pattern, s: string, n: nat)
    requires n <= |s| && p.assigns
    ensures MatchLen(p, s) == Some(n) <==> InLang(true, AsRegex(p), s[..n])
  {
    hide InLang, MatchLen, AsRegex;
    if MatchLen(p, s) == Some(n) {
      MatchToLang(p, s, n);
    }
    if InLang(true, AsRegex(p), s[..n]) {
      LangToMatch(p, s, n);
    }
  }

  lemma {:induction false} CatMeans(a: Regex, b: Regex, s: string)
    ensures InLang(true, Cat(a, b), s)
            <==> exists k :: 0 <= k <= |s| && InLang(true, a, s[..k]) && InLang(true, b, s[k..])
  {
  }

  lemma {:induction false} HasMatchAt(p: Pattern, s: string)
    ensures HasMatch(p, s) <==> exists i :: 0 <= i <= |s| && MatchLen(p, s[i..]).Some?
  {
    hide MatchLen;
    assert s[0..] == s;
    if s != "" {
      HasMatchAt(p, s[1..]);
      assert forall i :: 1 <= i <= |s| ==> s[i..] == s[1..][i - 1..];
      assert forall i :: 0 <= i <= |s| - 1 ==> s[1..][i..] == s[i + 1..];
    }
  }

  /** Searching with the exporter's matcher is searching with its regular expression. */
  lemma SearchIsFound(p: Pattern, s: string)
    ensures HasMatch(p, s) <==> Found(true, AsRegex(p), s)
  {
    hide InLang, MatchLen, AsRegex, HasMatch;
    HasMatchAt(p, s);
    if i :| 0 <= i <= |s| && MatchLen(p, s[i..]).Some? {
      var n := MatchLen(p, s[i..]).value;
      MatchIsInLang(p, s[i..], n);
      assert s[i..][..n] == s[i..i + n];
    }
    if Found(true, AsRegex(p), s) {
      var i, j :| 0 <= i <= j <= |s| && InLang(true, AsRegex(p), s[i..j]);
      assert s[i..][..j - i] == s[i..j];
      MatchIsInLang(p, s[i..], j - i);
    }
  }

  // ---------------------------------------------------------------------------
  // Everything else is kept
  // ---------------------------------------------------------------------------

  /** kept[0] + cut[0] + kept[1] + ... + kept[|cut|] */
  function Weave(kept: seq<string>, cut: seq<string>): string
    requires |kept| == |cut| + 1
  {
    if cut == [] then kept[0] else kept[0] + (cut[0] + Weave(kept[1..], cut[1..]))
  }

  function Marks(n: nat): (m: seq<string>)
    ensures |m| == n
  {
    seq(n, _ => REPLACEMENT)
  }

  lemma WeaveLater(x: string, kept: seq<string>, cut: seq<string>)
    requires |kept| == |cut| + 1
    ensures Weave(kept[0 := x + kept[0]], cut) == x + Weave(kept, cut)
    ensures Weave([""] + kept, [x] + cut) == x + Weave(kept, cut)
  {
    assert kept[0 := x + kept[0]][1..] == kept[1..];
    assert ([""] + kept)[1..] == kept && ([x] + cut)[1..] == cut;
    if cut != [] {
      var tail := cut[0] + Weave(kept[1..], cut[1..]);
      assert (x + kept[0]) + tail == x + (kept[0] + tail);
    }
  }

  lemma MarksNext(n: nat)
    ensures Marks(n + 1) == [REPLACEMENT] + Marks(n)
    ensures Marks(n + 1)[1..] == Marks(n)
  {
  }

  /** No match begins in a replacement. */
  lemma {:induction false} SubPasses(q: Pattern, r: string, t: string)
    requires |q.word| >= 2 && NoPair(r, q.word[0], q.word[1])
    ensures Sub(q, r + t) == r + Sub(q, t)
  {
    if r == "" {
      assert r + t == t;
    } else {
      assert (r + t)[1..] == r[1..] + t && (r + t)[0] == r[0];
      assert |r| > 1 ==> (r + t)[1] == r[1];
      assert MatchLen(q, r + t).None?;
      hide MatchLen;
      SubKeeps(q, r + t);
      SubPasses(q, r[1..], t);
    }
  }

  /** A match does not reach into the replacement after it. */
  lemma MatchInPiece(q: Pattern, kept: seq<string>, n: nat)
    requires Safe(q) && kept != [] && MatchLen(q, Weave(kept, Marks(|kept| - 1))) == Some(n)
    ensures 0 < n <= |kept[0]|
    ensures InLang(true, AsRegex(q), kept[0][..n])
  {
    var t := Weave(kept, Marks(|kept| - 1));
    hide MatchLen, Safe, InLang, AsRegex;
    MatchHasNoHash(q, t);
    assert |kept| > 1 ==> t[|kept[0]|] == Marks(|kept| - 1)[0][0] == REPLACEMENT[0] == '#';
    MatchIsInLang(q, t, n);
    assert t[..n] == kept[0][..n];
  }

  /** One more pattern: what it cuts lies between the replacements that are there. */
  ghost predicate Cuts(q: Pattern, kept: seq<string>, cut: seq<string>, k: seq<string>, c: seq<string>)
    requires |kept| == |cut| + 1
  {
    && |k| == |c| + 1
    && Weave(k, c) == Weave(kept, cut)
    && Sub(q, Weave(kept, Marks(|cut|))) == Weave(k, Marks(|c|))
    && forall x :: x in c ==> x in cut || InLang(true, AsRegex(q), x)
  }

  lemma CutsAfterMark(q: Pattern, kept: seq<string>, cut: seq<string>, k: seq<string>, c: seq<string>)
    requires Safe(q) && |kept| == |cut| + 1 && cut != [] && kept[0] == "" && Cuts(q, kept[1..], cut[1..], k, c)
    ensures Cuts(q, kept, cut, [""] + k, [cut[0]] + c)
  {
    hide MatchLen, InLang, AsRegex, Sub;
    MarksNext(|cut| - 1);
    SubPasses(q, REPLACEMENT, Weave(kept[1..], Marks(|cut| - 1)));
    hide Safe;
    WeaveLater(cut[0], k, c);
    WeaveLater(REPLACEMENT, k, Marks(|c|));
    MarksNext(|c|);
    assert Weave(kept, Marks(|cut|)) == REPLACEMENT + Weave(kept[1..], Marks(|cut| - 1));
  }

  lemma CutsMatch(q: Pattern, kept: seq<string>, cut: seq<string>, n: nat, k: seq<string>, c: seq<string>)
    requires Safe(q) && |kept| == |cut| + 1 && MatchLen(q, Weave(kept, Marks(|cut|))) == Some(n) && 0 < n <= |kept[0]|
    requires InLang(true, AsRegex(q), kept[0][..n]) && Cuts(q, kept[0 := kept[0][n..]], cut, k, c)
    ensures Cuts(q, kept, cut, [""] + k, [kept[0][..n]] + c)
  {
    hide MatchLen, InLang, AsRegex, Sub, Safe, Weave;
    var x, rest, t := kept[0][..n], kept[0 := kept[0][n..]], Weave(kept, Marks(|cut|));
    assert x + rest[0] == kept[0];
    assert kept == rest[0 := kept[0]];
    WeaveLater(x, rest, cut);
    WeaveLater(x, rest, Marks(|cut|));
    assert t[n..] == Weave(rest, Marks(|cut|));
    SubReplaces(q, t, n);
    WeaveLater(x, k, c);
    WeaveLater(REPLACEMENT, k, Marks(|c|));
    MarksNext(|c|);
  }

  lemma CutsLater(q: Pattern, kept: seq<string>, cut: seq<string>, k: seq<string>, c: seq<string>)
    requires Safe(q) && |kept| == |cut| + 1 && MatchLen(q, Weave(kept, Marks(|cut|))).None? && kept[0] != ""
    requires Cuts(q, kept[0 := kept[0][1..]], cut, k, c)
    ensures Cuts(q, kept, cut, k[0 := kept[0][..1] + k[0]], c)
  {
    hide MatchLen, InLang, AsRegex, Sub, Safe, Weave;
    var x, rest, t := kept[0][..1], kept[0 := kept[0][1..]], Weave(kept, Marks(|cut|));
    assert x + rest[0] == kept[0];
    assert kept == rest[0 := kept[0]];
    WeaveLater(x, rest, cut);
    WeaveLater(x, rest, Marks(|cut|));
    assert t[1..] == Weave(rest, Marks(|cut|)) && [t[0]] == x;
    SubKeeps(q, t);
    WeaveLater(x, k, c);
    WeaveLater(x, k, Marks(|c|));
  }

  lemma {:induction false} SubCuts(q: Pattern, kept: seq<string>, cut: seq<string>)
    returns (k: seq<string>, c: seq<string>)
    requires Safe(q) && |kept| == |cut| + 1
    ensures Cuts(q, kept, cut, k, c)
    decreases |kept|, |kept[0]|
  {
    if kept[0] == "" && cut == [] {
      return kept, cut;
    }
    hide MatchLen, InLang, AsRegex, Sub, Safe, Weave, Cuts;
    if kept[0] == "" {
      k, c := SubCuts(q, kept[1..], cut[1..]);
      CutsAfterMark(q, kept, cut, k, c);
      return [""] + k, [cut[0]] + c;
    }
    var n := MatchLen(q, Weave(kept, Marks(|cut|)));
    if n.Some? {
      MatchInPiece(q, kept, n.value);
      k, c := SubCuts(q, kept[0 := kept[0][n.value..]], cut);
      CutsMatch(q, kept, cut, n.value, k, c);
      return [""] + k, [kept[0][..n.value]] + c;
    }
    k, c := SubCuts(q, kept[0 := kept[0][1..]], cut);
    CutsLater(q, kept, cut, k, c);
    k := k[0 := kept[0][..1] + k[0]];
  }

  ghost predicate MatchedByOne(ps: seq<Pattern>, x: string) {
    exists j :: 0 <= j < |ps| && InLang(true, AsRegex(ps[j]), x)
  }

  /** `s` falls into these parts, of which `r` keeps `kept` and replaces `cut`. */
  ghost predicate CutInto(ps: seq<Pattern>, s: string, r: string, kept: seq<string>, cut: seq<string>) {
    && |kept| == |cut| + 1
    && s == Weave(kept, cut)
    && r == Weave(kept, Marks(|cut|))
    && forall k :: 0 <= k < |cut| ==> MatchedByOne(ps, cut[k])
  }

  /** `r` is `s` with parts replaced, each of them matched as a whole by one of the expressions, and
      everything between them as it was. */
  ghost predicate OnlyCuts(ps: seq<Pattern>, s: string, r: string) {
    exists kept, cut :: CutInto(ps, s, r, kept, cut)
  }

  lemma StillMatched(ps: seq<Pattern>, x: string)
    requires ps != [] && (MatchedByOne(ps[..|ps| - 1], x) || InLang(true, AsRegex(ps[|ps| - 1]), x))
    ensures MatchedByOne(ps, x)
  {
    hide InLang, AsRegex;
    if MatchedByOne(ps[..|ps| - 1], x) {
      var j :| 0 <= j < |ps| - 1 && InLang(true, AsRegex(ps[..|ps| - 1][j]), x);
      assert ps[j] == ps[..|ps| - 1][j];
    }
  }

  lemma OnlyCutsNext(ps: seq<Pattern>, s: string, r: string)
    requires ps != [] && Safe(ps[|ps| - 1]) && OnlyCuts(ps[..|ps| - 1], s, r)
    ensures OnlyCuts(ps, s, Sub(ps[|ps| - 1], r))
    ensures OnlyCuts(ps, s, r)
  {
    hide Sub, Safe, InLang, AsRegex, Weave, MatchedByOne;
    var q, before := ps[|ps| - 1], ps[..|ps| - 1];
    forall x | MatchedByOne(before, x) || InLang(true, AsRegex(q), x) ensures MatchedByOne(ps, x) {
      StillMatched(ps, x);
    }
    var kept, cut :| CutInto(before, s, r, kept, cut);
    assert CutInto(ps, s, r, kept, cut);
    var k, c := SubCuts(q, kept, cut);
    assert CutInto(ps, s, Sub(q, r), k, c);
  }

  lemma {:induction false} StripCuts(ps: seq<Pattern>, s: string)
    requires AllSafe(ps)
    ensures OnlyCuts(ps, s, Strip(ps, s))
  {
    if ps == [] {
      hide Weave;
      WeaveOne(s);
      assert Marks(0) == [];
      assert CutInto(ps, s, s, [s], []);
    } else {
      hide HasMatch, Sub, Safe, OnlyCuts;
      var n := |ps| - 1;
      assert forall j :: 0 <= j < n ==> ps[..n][j] == ps[j];
      StripCuts(ps[..n], s);
      OnlyCutsNext(ps, s, Strip(ps[..n], s));
    }
  }

  lemma WeaveOne(s: string)
    ensures Weave([s], []) == s
  {
  }

  /** Stripping only cuts: for every text, the result is the text with some parts replaced by the marker,
      each of them matched as a whole by one of the ten, and everything between them as it was. */
  lemma StripOnlyCuts(s: string)
    ensures OnlyCuts(PRIVATE_PATTERNS, s, Strip(PRIVATE_PATTERNS, s))
    ensures forall n: nat, k: nat :: k < n ==> Marks(n)[k] == "# [STRIPPED BY BRIDGE]"
  {
    TenAreSafe();
    hide Safe, Strip, OnlyCuts;
    StripCuts(PRIVATE_PATTERNS, s);
  }
}
