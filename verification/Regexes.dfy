/**
 The regular expressions the bridge searches with (no anchors, no look-around), by the set of
 strings they match, and what searching a text line by line can miss.
 */
module Regexes {
  datatype Regex =
    | Eps
    | Text(w: string)
    | OneOf(chars: set<char>)
    | NoneOf(chars: set<char>)
    | Cat(a: Regex, b: Regex)
    | Alt(a: Regex, b: Regex)
    | Star(a: Regex)

  function Lower(c: char): char {
    if 'A' <= c <= 'Z' then ((c as int) + 32) as char else c
  }

  /** Character equality, ignoring ASCII case when `ci`. */
  predicate Same(ci: bool, c: char, d: char) {
    if ci then Lower(c) == Lower(d) else c == d
  }

  /** The same character, or, when case is ignored, the same letter in the other case. */
  lemma SameMeans(ci: bool, c: char, d: char)
    ensures Same(ci, c, d) <==>
              || c == d
              || (ci && 'A' <= c <= 'Z' && 'a' <= d <= 'z' && d as int - 'a' as int == c as int - 'A' as int)
              || (ci && 'a' <= c <= 'z' && 'A' <= d <= 'Z' && c as int - 'a' as int == d as int - 'A' as int)
  {
    assert 'A' as int == 65 && 'a' as int == 97;
  }

  /** Whether the whole of `s` matches. */
  predicate InLang(ci: bool, r: Regex, s: string)
    decreases r, |s|
  {
    match r
    case Eps => s == ""
    case Text(w) => |s| == |w| && forall i :: 0 <= i < |w| ==> Same(ci, w[i], s[i])
    case OneOf(cs) => |s| == 1 && exists c :: c in cs && Same(ci, c, s[0])
    case NoneOf(cs) => |s| == 1 && forall c :: c in cs ==> !Same(ci, c, s[0])
    case Cat(a, b) => exists k :: 0 <= k <= |s| && InLang(ci, a, s[..k]) && InLang(ci, b, s[k..])
    case Alt(a, b) => InLang(ci, a, s) || InLang(ci, b, s)
    case Star(a) => s == "" || exists k :: 0 < k <= |s| && InLang(ci, a, s[..k]) && InLang(ci, r, s[k..])
  }

  /** Whether some substring of `s` matches: what `search` answers. */
  predicate Found(ci: bool, r: Regex, s: string) {
    exists i, j :: 0 <= i <= j <= |s| && InLang(ci, r, s[i..j])
  }

  /** The pieces of `s` between line feeds: `s.split("\n")`. */
  function Split(s: string): (lines: seq<string>)
    ensures lines != []
    ensures forall l :: l in lines ==> '\n' !in l
  {
    if s == "" then [""]
    else
      var rest := Split(s[1..]);
      assert rest[0] in rest;
      if s[0] == '\n' then [""] + rest
      else
        assert '\n' !in [s[0]] + rest[0];
        [[s[0]] + rest[0]] + rest[1..]
  }

  /** The lines with a line feed between each two. */
  function Joined(lines: seq<string>): string
    requires lines != []
  {
    if |lines| == 1 then lines[0] else lines[0] + ("\n" + Joined(lines[1..]))
  }

  /** The lines of a text are the one way to write it as pieces without line feeds. */
  lemma {:induction false} SplitIff(s: string, lines: seq<string>)
    requires lines != []
    ensures lines == Split(s) <==> Joined(lines) == s && forall l :: l in lines ==> '\n' !in l
  {
    JoinedSplit(s);
    if Joined(lines) == s && forall l :: l in lines ==> '\n' !in l {
      SplitJoined(lines);
    }
  }

  lemma {:induction false} JoinedSplit(s: string)
    ensures Joined(Split(s)) == s
  {
    if s != "" {
      var rest := Split(s[1..]);
      JoinedSplit(s[1..]);
      assert s == [s[0]] + s[1..];
      if s[0] == '\n' {
        assert ([""] + rest)[1..] == rest;
      } else {
        assert ([[s[0]] + rest[0]] + rest[1..])[1..] == rest[1..];
        assert |rest| > 1 ==> [s[0]] + (rest[0] + ("\n" + Joined(rest[1..]))) == ([s[0]] + rest[0]) + ("\n" + Joined(rest[1..]));
      }
    }
  }

  lemma {:induction false} SplitJoined(lines: seq<string>)
    requires lines != [] && forall l :: l in lines ==> '\n' !in l
    ensures Split(Joined(lines)) == lines
    decreases |lines|, |lines[0]|
  {
    var s := Joined(lines);
    if lines[0] == "" {
      if |lines| > 1 {
        assert s == "\n" + Joined(lines[1..]) && s[1..] == Joined(lines[1..]);
        SplitJoined(lines[1..]);
        assert [""] + lines[1..] == lines;
      } else {
        assert lines == [""];
      }
    } else {
      var c, shorter := lines[0][0], [lines[0][1..]] + lines[1..];
      assert lines[0] in lines && c in lines[0];
      assert shorter[1..] == lines[1..];
      assert s == [c] + Joined(shorter) && s[1..] == Joined(shorter);
      assert forall l :: l in shorter ==> l in lines || l == lines[0][1..];
      SplitJoined(shorter);
      assert [c] + shorter[0] == lines[0] && s[0] != '\n';
      assert [lines[0]] + lines[1..] == lines;
    }
  }

  lemma FoundInPart(ci: bool, r: Regex, a: string, part: string, b: string)
    requires Found(ci, r, part)
    ensures Found(ci, r, a + part + b)
  {
    var i, j :| 0 <= i <= j <= |part| && InLang(ci, r, part[i..j]);
    assert (a + part + b)[|a| + i..|a| + j] == part[i..j];
  }

  /** Every line is a contiguous part of the text. */
  lemma {:induction false} LineIsPart(s: string, k: nat) returns (a: string, b: string)
    requires k < |Split(s)|
    ensures s == a + Split(s)[k] + b
    ensures k == 0 ==> a == ""
  {
    if s == "" {
      a, b := "", "";
    } else {
      var rest := Split(s[1..]);
      assert s == [s[0]] + s[1..];
      if s[0] == '\n' {
        if k == 0 {
          a, b := "", s;
        } else {
          a, b := LineIsPart(s[1..], k - 1);
          a := [s[0]] + a;
          assert Split(s)[k] == rest[k - 1];
        }
      } else {
        a, b := LineIsPart(s[1..], k);
        if k == 0 {
          assert Split(s)[0] == [s[0]] + rest[0];
        } else {
          assert Split(s)[k] == rest[k];
          a := [s[0]] + a;
        }
      }
    }
  }

  /** A match within a line is a match within the text. */
  lemma LineMatchIsTextMatch(ci: bool, r: Regex, s: string, k: nat)
    requires k < |Split(s)| && Found(ci, r, Split(s)[k])
    ensures Found(ci, r, s)
  {
    hide InLang, Found, Split;
    var a, b := LineIsPart(s, k);
    FoundInPart(ci, r, a, Split(s)[k], b);
  }

  /** No character the expression consumes can be a line feed. */
  predicate NewlineFree(r: Regex) {
    match r
    case Eps => true
    case Text(w) => '\n' !in w
    case OneOf(cs) => '\n' !in cs
    case NoneOf(cs) => '\n' in cs
    case Cat(a, b) => NewlineFree(a) && NewlineFree(b)
    case Alt(a, b) => NewlineFree(a) && NewlineFree(b)
    case Star(a) => NewlineFree(a)
  }

  lemma NoFeedInParts(s: string, k: nat)
    requires k <= |s| && '\n' !in s[..k] && '\n' !in s[k..]
    ensures '\n' !in s
  {
    assert s == s[..k] + s[k..];
  }

  lemma CharactersHaveNoFeed(ci: bool, r: Regex, s: string)
    requires (r.Eps? || r.Text? || r.OneOf? || r.NoneOf?) && NewlineFree(r) && InLang(ci, r, s)
    ensures '\n' !in s
  {
    if r.Text? {
      assert forall i :: 0 <= i < |s| ==> r.w[i] in r.w;
    }
  }

  lemma {:induction false} NoNewlineMatched(ci: bool, r: Regex, s: string)
    requires NewlineFree(r) && InLang(ci, r, s)
    ensures '\n' !in s
    decreases r, |s|
  {
    match r
    case Cat(a, b) =>
      var k :| 0 <= k <= |s| && InLang(ci, a, s[..k]) && InLang(ci, b, s[k..]);
      hide InLang;
      NoNewlineMatched(ci, a, s[..k]);
      NoNewlineMatched(ci, b, s[k..]);
      NoFeedInParts(s, k);
    case Alt(a, b) =>
      if InLang(ci, a, s) {
        NoNewlineMatched(ci, a, s);
      } else {
        NoNewlineMatched(ci, b, s);
      }
    case Star(a) =>
      if s != "" {
        var k :| 0 < k <= |s| && InLang(ci, a, s[..k]) && InLang(ci, r, s[k..]);
        hide InLang;
        NoNewlineMatched(ci, a, s[..k]);
        NoNewlineMatched(ci, r, s[k..]);
        NoFeedInParts(s, k);
      }
    case _ => CharactersHaveNoFeed(ci, r, s);
  }

  lemma SplitCons(s: string)
    requires s != ""
    ensures s[0] == '\n' ==> Split(s) == [""] + Split(s[1..])
    ensures s[0] != '\n' ==> Split(s) == [[s[0]] + Split(s[1..])[0]] + Split(s[1..])[1..]
  {
  }

  lemma {:induction false} PrefixInFirstLine(s: string, j: nat)
    requires j <= |s| && '\n' !in s[..j]
    ensures j <= |Split(s)[0]| && Split(s)[0][..j] == s[..j]
  {
    if j > 0 {
      assert s[..j] == [s[0]] + s[1..][..j - 1];
      PrefixInFirstLine(s[1..], j - 1);
      SplitCons(s);
      hide Split;
      assert s[0] in s[..j];
      var first := Split(s[1..])[0];
      assert ([s[0]] + first)[..j] == [s[0]] + first[..j - 1];
    }
  }

  /** A stretch of the text without a line feed lies within one line. */
  lemma {:induction false} PartIsInLine(s: string, i: nat, j: nat) returns (k: nat, x: nat)
    requires i <= j <= |s| && '\n' !in s[i..j]
    ensures k < |Split(s)|
    ensures x + (j - i) <= |Split(s)[k]|
    ensures Split(s)[k][x..x + (j - i)] == s[i..j]
  {
    if i == 0 {
      k, x := 0, 0;
      assert s[0..j] == s[..j];
      PrefixInFirstLine(s, j);
    } else {
      assert s[1..][i - 1..j - 1] == s[i..j];
      k, x := PartIsInLine(s[1..], i - 1, j - 1);
      SplitCons(s);
      hide Split;
      var line := Split(s[1..])[k];
      if s[0] == '\n' {
        k := k + 1;
      } else if k == 0 {
        assert ([s[0]] + line)[x + 1..x + 1 + (j - i)] == line[x..x + (j - i)];
        x := x + 1;
      }
    }
  }

  /** Some line of `s` has a match. */
  predicate FoundOnALine(ci: bool, r: Regex, s: string) {
    exists k :: 0 <= k < |Split(s)| && Found(ci, r, Split(s)[k])
  }

  /** Some match in `s` holds no line feed. */
  predicate FoundWithoutFeed(ci: bool, r: Regex, s: string) {
    exists i, j :: 0 <= i <= j <= |s| && InLang(ci, r, s[i..j]) && '\n' !in s[i..j]
  }

  /** Searching line by line finds exactly the matches that hold no line feed. */
  lemma LineSearchIff(ci: bool, r: Regex, s: string)
    ensures FoundOnALine(ci, r, s) <==> FoundWithoutFeed(ci, r, s)
  {
    hide InLang, Split;
    if k :| 0 <= k < |Split(s)| && Found(ci, r, Split(s)[k]) {
      var line := Split(s)[k];
      assert line in Split(s);
      var i, j :| 0 <= i <= j <= |line| && InLang(ci, r, line[i..j]);
      assert forall x :: 0 <= x < j - i ==> line[i..j][x] == line[i + x];
      var a, b := LineIsPart(s, k);
      assert s[|a| + i..|a| + j] == line[i..j];
    }
    if i, j :| 0 <= i <= j <= |s| && InLang(ci, r, s[i..j]) && '\n' !in s[i..j] {
      var k, x := PartIsInLine(s, i, j);
      assert Found(ci, r, Split(s)[k]);
    }
  }

  /** For an expression that cannot match a line feed, searching the text and searching its lines
      find the same. */
  lemma TextMatchIsLineMatch(ci: bool, r: Regex, s: string)
    requires NewlineFree(r)
    ensures Found(ci, r, s) <==> FoundOnALine(ci, r, s)
  {
    LineSearchIff(ci, r, s);
    if i, j :| 0 <= i <= j <= |s| && InLang(ci, r, s[i..j]) {
      NoNewlineMatched(ci, r, s[i..j]);
    }
  }
}
