/**
 The batch dispatcher: path templates compiled to matchers, first-match resolution over the route
 table, and sequential execution that pads after an abort.
 */
module Routes {
  import opened Wrappers

  // ---------------------------------------------------------------------------
  // Compiling a template
  // ---------------------------------------------------------------------------

  /** One element of a compiled pattern: an escaped character, or the group `([^/]+)`. */
  datatype Elem = Lit(c: char) | Group

  datatype Compiled = Compiled(elems: seq<Elem>, names: seq<string>)

  const NOT_FOUND := "substring not found"

  function IndexOf(s: string, c: char): (r: Option<nat>)
    ensures r.Some? ==> r.value < |s| && s[r.value] == c && c !in s[..r.value]
    ensures r.None? ==> c !in s
  {
    if s == "" then None
    else if s[0] == c then Some(0)
    else
      var r := IndexOf(s[1..], c);
      if r.None? then None
      else
        assert s[..r.value + 1] == [s[0]] + s[1..][..r.value];
        Some(r.value + 1)
  }

  function Prepend(elems: seq<Elem>, names: seq<string>, r: Result<Compiled, string>): Result<Compiled, string> {
    match r
    case Ok(c) => Ok(Compiled(elems + c.elems, names + c.names))
    case Err(e) => Err(e)
  }

  /** What a template compiles to; an unclosed `{` is an error. */
  function CompileFrom(path: string): Result<Compiled, string>
    decreases |path|
  {
    if path == "" then Ok(Compiled([], []))
    else if path[0] == '{' then
      var end := IndexOf(path[1..], '}');
      if end.None? then Err(NOT_FOUND)
      else Prepend([Group], [path[1..1 + end.value]], CompileFrom(path[end.value + 2..]))
    else Prepend([Lit(path[0])], [], CompileFrom(path[1..]))
  }

  lemma PrependNothing(r: Result<Compiled, string>)
    ensures Prepend([], [], r) == r
  {
    if r.Ok? {
      assert [] + r.value.elems == r.value.elems && [] + r.value.names == r.value.names;
    }
  }

  lemma PrependTwice(e: seq<Elem>, n: seq<string>, e1: seq<Elem>, n1: seq<string>, r: Result<Compiled, string>)
    ensures Prepend(e, n, Prepend(e1, n1, r)) == Prepend(e + e1, n + n1, r)
  {
    if r.Ok? {
      assert e + (e1 + r.value.elems) == e + e1 + r.value.elems;
      assert n + (n1 + r.value.names) == n + n1 + r.value.names;
    }
  }

  method Compile(path: string) returns (r: Result<Compiled, string>)
    ensures r == CompileFrom(path)
  {
    var elems, names, i := [], [], 0;
    assert path[0..] == path;
    PrependNothing(CompileFrom(path));
    while i < |path|
      invariant 0 <= i <= |path|
      invariant CompileFrom(path) == Prepend(elems, names, CompileFrom(path[i..]))
    {
      hide Prepend;
      ghost var rest := path[i..];
      var ch := path[i];
      if ch == '{' {
        var end := IndexOf(path[i + 1..], '}');
        assert rest[1..] == path[i + 1..];
        if end.None? {
          return Err(NOT_FOUND);
        }
        var name := path[i + 1..i + 1 + end.value];
        assert rest[1..1 + end.value] == name && rest[end.value + 2..] == path[i + end.value + 2..];
        PrependTwice(elems, names, [Group], [name], CompileFrom(path[i + end.value + 2..]));
        elems, names := elems + [Group], names + [name];
        i := i + end.value + 2;
      } else {
        assert rest[1..] == path[i + 1..];
        PrependTwice(elems, names, [Lit(ch)], [], CompileFrom(path[i + 1..]));
        elems, names := elems + [Lit(ch)], names + [];
        i := i + 1;
      }
    }
    assert elems + [] == elems && names + [] == names;
    r := Ok(Compiled(elems, names));
  }

  // ---------------------------------------------------------------------------
  // Matching
  // ---------------------------------------------------------------------------

  /** How many characters `[^/]+` can take at most. */
  function Run(s: string): (n: nat)
    ensures n <= |s| && '/' !in s[..n]
    ensures n < |s| ==> s[n] == '/'
  {
    if s == "" || s[0] == '/' then 0
    else
      var n := Run(s[1..]);
      assert s[..n + 1] == [s[0]] + s[1..][..n];
      n + 1
  }

  /** `re.match` of the anchored pattern: groups are greedy and give back on failure; `$` also
      matches before one final line feed. */
  function Match(elems: seq<Elem>, s: string): Option<seq<string>>
    decreases |elems|, 0
  {
    if elems == [] then (if s == "" || s == "\n" then Some([]) else None)
    else
      match elems[0]
      case Lit(c) => if s != "" && s[0] == c then Match(elems[1..], s[1..]) else None
      case Group => MatchGroup(elems[1..], s, Run(s))
  }

  function MatchGroup(rest: seq<Elem>, s: string, n: nat): Option<seq<string>>
    requires n <= |s|
    decreases |rest|, n + 1
  {
    if n == 0 then None
    else if Match(rest, s[n..]).Some? then Some([s[..n]] + Match(rest, s[n..]).value)
    else MatchGroup(rest, s, n - 1)
  }

  function Groups(elems: seq<Elem>): nat {
    if elems == [] then 0 else (if elems[0].Group? then 1 else 0) + Groups(elems[1..])
  }

  /** The template with its parameters filled in. */
  function Expand(elems: seq<Elem>, args: seq<string>): string
    requires |args| == Groups(elems)
  {
    if elems == [] then ""
    else if elems[0].Group? then args[0] + Expand(elems[1..], args[1..])
    else [elems[0].c] + Expand(elems[1..], args)
  }

  predicate ArgOk(a: string) {
    a != "" && '/' !in a
  }

  predicate ArgsOk(args: seq<string>) {
    forall k :: 0 <= k < |args| ==> ArgOk(args[k])
  }

  /** `s` is the template filled in with `args`, up to one final line feed. */
  predicate Fits(elems: seq<Elem>, s: string, args: seq<string>) {
    && |args| == Groups(elems) && ArgsOk(args)
    && (s == Expand(elems, args) || s == Expand(elems, args) + "\n")
  }

  /** No longer than `b` at the first argument where the two differ in length. */
  predicate LexAtMost(a: seq<string>, b: seq<string>) {
    a == [] || b == [] || |a[0]| < |b[0]| || (|a[0]| == |b[0]| && LexAtMost(a[1..], b[1..]))
  }

  lemma FitsLit(c: char, rest: seq<Elem>, s: string, args: seq<string>)
    ensures Fits([Lit(c)] + rest, s, args) <==> s != "" && s[0] == c && Fits(rest, s[1..], args)
  {
    var elems := [Lit(c)] + rest;
    assert elems[1..] == rest;
    if |args| == Groups(elems) {
      var tail := Expand(rest, args);
      assert Expand(elems, args) == [c] + tail;
      assert ([c] + tail)[1..] == tail && ([c] + tail + "\n")[1..] == tail + "\n";
      assert s != "" ==> s == [s[0]] + s[1..];
      assert [c] + (tail + "\n") == [c] + tail + "\n";
    }
  }

  lemma FitsGroup(rest: seq<Elem>, s: string, args: seq<string>)
    ensures Fits([Group] + rest, s, args)
            <==> args != [] && ArgOk(args[0]) && |args[0]| <= |s| && s[..|args[0]|] == args[0]
                 && Fits(rest, s[|args[0]|..], args[1..])
  {
    var elems := [Group] + rest;
    assert elems[1..] == rest;
    if args != [] && |args| == Groups(elems) {
      var a, tail := args[0], Expand(rest, args[1..]);
      assert Expand(elems, args) == a + tail;
      assert a + tail + "\n" == a + (tail + "\n");
      assert (a + tail)[|a|..] == tail && (a + (tail + "\n"))[|a|..] == tail + "\n";
      assert |a| <= |s| ==> s == s[..|a|] + s[|a|..];
      assert ArgsOk(args) <==> ArgOk(a) && ArgsOk(args[1..]) by {
        assert forall k :: 0 <= k < |args| - 1 ==> args[1..][k] == args[k + 1];
        assert forall k :: 0 < k < |args| ==> args[k] == args[1..][k - 1];
      }
    }
  }

  /** A group can take any argument no longer than its run, and nothing longer. */
  lemma ArgInRun(s: string, n: nat)
    requires n <= |s|
    ensures ArgOk(s[..n]) <==> 0 < n <= Run(s)
  {
    if n > Run(s) {
      assert s[..n][Run(s)] == '/';
    } else {
      assert forall k :: 0 <= k < n ==> s[..n][k] == s[..Run(s)][k];
    }
  }

  lemma FitsNothing(s: string, args: seq<string>)
    ensures Fits([], s, args) <==> args == [] && (s == "" || s == "\n")
  {
    assert "" + "\n" == "\n";
  }

  lemma LexCons(a: string, b: string, rest: seq<string>, other: seq<string>)
    requires |a| < |b| || (|a| == |b| && LexAtMost(rest, other))
    ensures LexAtMost([a] + rest, [b] + other)
  {
    assert ([a] + rest)[1..] == rest && ([b] + other)[1..] == other;
  }

  /** The matcher accepts exactly the filled-in templates and returns the arguments that take the
      most from the left. */
  lemma {:induction false} MatchIsLongestFit(elems: seq<Elem>, s: string, args: seq<string>)
    ensures Match(elems, s).Some? ==> Fits(elems, s, Match(elems, s).value)
    ensures Fits(elems, s, args) ==> Match(elems, s).Some? && LexAtMost(args, Match(elems, s).value)
    decreases |elems|, 0
  {
    hide Fits;
    if elems == [] {
      FitsNothing(s, args);
      FitsNothing(s, []);
    } else {
      hide LexAtMost;
      var rest := elems[1..];
      assert [elems[0]] + rest == elems;
      match elems[0]
      case Lit(c) =>
        FitsLit(c, rest, s, args);
        if s != "" && s[0] == c {
          MatchIsLongestFit(rest, s[1..], args);
          if Match(elems, s).Some? {
            FitsLit(c, rest, s, Match(elems, s).value);
          }
        }
      case Group =>
        FitsGroup(rest, s, args);
        GroupIsLongestFit(rest, s, Run(s), args);
        if args != [] && |args[0]| <= |s| {
          ArgInRun(s, |args[0]|);
        }
    }
  }

  lemma {:induction false} GroupIsLongestFit(rest: seq<Elem>, s: string, n: nat, args: seq<string>)
    requires n <= Run(s)
    ensures MatchGroup(rest, s, n).Some? ==> Fits([Group] + rest, s, MatchGroup(rest, s, n).value)
    ensures Fits([Group] + rest, s, args) && args != [] && |args[0]| <= n ==>
              MatchGroup(rest, s, n).Some? && LexAtMost(args, MatchGroup(rest, s, n).value)
    decreases |rest|, n + 1
  {
    hide Fits, LexAtMost;
    FitsGroup(rest, s, args);
    if n > 0 {
      var m := Match(rest, s[n..]);
      ArgInRun(s, n);
      if m.Some? {
        var best := [s[..n]] + m.value;
        assert best[1..] == m.value;
        MatchIsLongestFit(rest, s[n..], if args == [] then [] else args[1..]);
        FitsGroup(rest, s, best);
        assert best[0] == s[..n];
        if Fits([Group] + rest, s, args) && |args[0]| <= n {
          LexCons(args[0], s[..n], args[1..], m.value);
          assert [args[0]] + args[1..] == args;
        }
      } else {
        if args != [] {
          MatchIsLongestFit(rest, s[n..], args[1..]);
        }
        GroupIsLongestFit(rest, s, n - 1, args);
      }
    }
  }

  // ---------------------------------------------------------------------------
  // Round trip
  // ---------------------------------------------------------------------------

  /** Every parameter ends its path segment. */
  predicate ParamsEndSegments(elems: seq<Elem>) {
    forall k :: 0 <= k < |elems| - 1 && elems[k].Group? ==> elems[k + 1] == Lit('/')
  }

  lemma {:induction false} RunIsArg(a: string, t: string)
    requires '/' !in a && (t == "" || t[0] == '/')
    ensures Run(a + t) == |a|
  {
    if a == "" {
      assert a + t == t;
    } else {
      assert (a + t)[1..] == a[1..] + t && a[0] in a;
      RunIsArg(a[1..], t);
    }
  }

  /** Matching a filled-in template gives back exactly the arguments used. */
  lemma {:induction false} ExpandRoundTrip(elems: seq<Elem>, args: seq<string>)
    requires ParamsEndSegments(elems) && |args| == Groups(elems) && ArgsOk(args)
    ensures Match(elems, Expand(elems, args)) == Some(args)
  {
    if elems != [] {
      var rest := elems[1..];
      assert ParamsEndSegments(rest) by {
        assert forall k :: 0 <= k < |rest| ==> rest[k] == elems[k + 1];
      }
      if elems[0].Group? {
        var a, t := args[0], Expand(rest, args[1..]);
        assert forall k :: 0 <= k < |args| - 1 ==> args[1..][k] == args[k + 1];
        assert rest != [] ==> rest[0] == elems[1];
        ExpandRoundTrip(rest, args[1..]);
        RunIsArg(a, t);
        assert (a + t)[|a|..] == t && (a + t)[..|a|] == a;
        assert [a] + args[1..] == args;
      } else {
        ExpandRoundTrip(rest, args);
        assert ([elems[0].c] + Expand(rest, args))[1..] == Expand(rest, args);
      }
    }
  }

  // ---------------------------------------------------------------------------
  // Templates as segments
  // ---------------------------------------------------------------------------

  /** A segment of a template: fixed text, then at most one parameter. */
  datatype Segment = Segment(text: string, param: Option<string>)

  predicate SegmentOk(g: Segment) {
    '/' !in g.text && '{' !in g.text && (g.param.Some? ==> '}' !in g.param.value)
  }

  predicate SegmentsOk(gs: seq<Segment>) {
    forall k :: 0 <= k < |gs| ==> SegmentOk(gs[k])
  }

  function SegmentText(g: Segment): string {
    g.text + (if g.param.Some? then "{" + g.param.value + "}" else "")
  }

  /** The template as written in the route table. */
  function Template(gs: seq<Segment>): string {
    if gs == [] then ""
    else SegmentText(gs[0]) + (if |gs| == 1 then "" else "/" + Template(gs[1..]))
  }

  function Lits(s: string): seq<Elem> {
    seq(|s|, k requires 0 <= k < |s| => Lit(s[k]))
  }

  function SegmentElems(g: Segment): seq<Elem> {
    Lits(g.text) + (if g.param.Some? then [Group] else [])
  }

  function SegmentNames(g: Segment): seq<string> {
    if g.param.Some? then [g.param.value] else []
  }

  function Elems(gs: seq<Segment>): seq<Elem> {
    if gs == [] then []
    else SegmentElems(gs[0]) + (if |gs| == 1 then [] else [Lit('/')] + Elems(gs[1..]))
  }

  function Names(gs: seq<Segment>): seq<string> {
    if gs == [] then [] else SegmentNames(gs[0]) + Names(gs[1..])
  }

  lemma {:induction false} CompileText(s: string, t: string)
    requires '{' !in s
    ensures CompileFrom(s + t) == Prepend(Lits(s), [], CompileFrom(t))
  {
    if s == "" {
      assert s + t == t;
      PrependNothing(CompileFrom(t));
      assert Lits(s) == [];
    } else {
      assert (s + t)[1..] == s[1..] + t && s[0] in s;
      CompileText(s[1..], t);
      PrependTwice([Lit(s[0])], [], Lits(s[1..]), [], CompileFrom(t));
      var none: seq<string> := [];
      assert none + none == none;
      assert [Lit(s[0])] + Lits(s[1..]) == Lits(s);
    }
  }

  lemma {:induction false} FirstAt(s: string, c: char, k: nat)
    requires k < |s| && s[k] == c && c !in s[..k]
    ensures IndexOf(s, c) == Some(k)
  {
    if k > 0 {
      assert s[0] in s[..k] && s[1..][..k - 1] == s[..k][1..];
      FirstAt(s[1..], c, k - 1);
    }
  }

  lemma CompileParam(name: string, t: string)
    requires '}' !in name
    ensures CompileFrom("{" + name + "}" + t) == Prepend([Group], [name], CompileFrom(t))
  {
    var s := "{" + name + "}" + t;
    assert s[1..] == name + "}" + t;
    assert s[1..][..|name|] == name;
    FirstAt(s[1..], '}', |name|);
    assert s[1..1 + |name|] == name && s[|name| + 2..] == t;
  }

  lemma CompileSegment(g: Segment, t: string)
    requires SegmentOk(g)
    ensures CompileFrom(SegmentText(g) + t) == Prepend(SegmentElems(g), SegmentNames(g), CompileFrom(t))
  {
    hide CompileFrom, Lits;
    if g.param.Some? {
      var p := "{" + g.param.value + "}";
      assert SegmentText(g) + t == g.text + (p + t);
      CompileText(g.text, p + t);
      CompileParam(g.param.value, t);
      PrependTwice(Lits(g.text), [], [Group], [g.param.value], CompileFrom(t));
      assert [] + [g.param.value] == [g.param.value];
    } else {
      assert SegmentText(g) + t == g.text + t;
      CompileText(g.text, t);
      assert Lits(g.text) + [] == Lits(g.text);
    }
  }

  /** A template of the table's kind compiles to its segments' elements and parameter names. */
  lemma {:induction false} TemplateCompiles(gs: seq<Segment>)
    requires SegmentsOk(gs)
    ensures CompileFrom(Template(gs)) == Ok(Compiled(Elems(gs), Names(gs)))
  {
    if gs != [] {
      hide SegmentOk, SegmentText, SegmentElems, SegmentNames;
      TemplateCompiles(gs[1..]);
      var t := if |gs| == 1 then "" else "/" + Template(gs[1..]);
      CompileSegment(gs[0], t);
      if |gs| > 1 {
        CompileText("/", Template(gs[1..]));
        assert Lits("/") == [Lit('/')] && [] + Names(gs[1..]) == Names(gs[1..]);
      } else {
        assert gs[1..] == [];
      }
    }
  }

  // --- accepting a path -------------------------------------------------------------

  /** `path.split("/")`. */
  function Pieces(path: string): (ps: seq<string>)
    ensures ps != []
  {
    if path == "" then [""]
    else if path[0] == '/' then [""] + Pieces(path[1..])
    else [[path[0]] + Pieces(path[1..])[0]] + Pieces(path[1..])[1..]
  }

  predicate PieceAgrees(g: Segment, piece: string) {
    if g.param.None? then piece == g.text else |piece| > |g.text| && piece[..|g.text|] == g.text
  }

  /** The path has the template's segments: the same fixed text, and something non-empty where a
      parameter stands. */
  predicate Agrees(gs: seq<Segment>, pieces: seq<string>) {
    |gs| == |pieces| && forall k :: 0 <= k < |gs| ==> PieceAgrees(gs[k], pieces[k])
  }

  lemma {:induction false} PiecesOf(a: string, rest: string)
    requires '/' !in a
    ensures Pieces(a) == [a]
    ensures Pieces(a + ("/" + rest)) == [a] + Pieces(rest)
  {
    var s := a + ("/" + rest);
    if a == "" {
      assert s[1..] == rest;
    } else {
      assert s[1..] == a[1..] + ("/" + rest) && a[0] in a;
      PiecesOf(a[1..], rest);
      assert [a[0]] + a[1..] == a;
      assert ([a[1..]] + Pieces(rest))[1..] == Pieces(rest);
    }
  }

  /** Every path is a first piece, or a first piece, a slash and the rest. */
  lemma {:induction false} FirstPiece(path: string) returns (a: string, rest: string)
    ensures '/' !in a
    ensures path == a || path == a + ("/" + rest)
    ensures path == a <==> |Pieces(path)| == 1
  {
    if path == "" {
      return "", "";
    } else if path[0] == '/' {
      assert path == "" + ("/" + path[1..]);
      return "", path[1..];
    } else {
      a, rest := FirstPiece(path[1..]);
      if path[1..] == a {
        assert path == [path[0]] + a;
      } else {
        assert path == [path[0]] + a + ("/" + rest);
      }
      a := [path[0]] + a;
    }
  }

  // --- what the elements of a segment stand for ---------------------------------------

  lemma ExpandChar(c: char, rest: seq<Elem>, args: seq<string>)
    requires |args| == Groups(rest)
    ensures Groups([Lit(c)] + rest) == |args|
    ensures Expand([Lit(c)] + rest, args) == [c] + Expand(rest, args)
  {
    assert ([Lit(c)] + rest)[1..] == rest;
  }

  lemma {:induction false} ExpandText(text: string, rest: seq<Elem>, args: seq<string>)
    requires |args| == Groups(rest)
    ensures Groups(Lits(text) + rest) == |args|
    ensures Expand(Lits(text) + rest, args) == text + Expand(rest, args)
  {
    hide Groups, Expand;
    if text == "" {
      assert Lits(text) + rest == rest;
    } else {
      assert Lits(text) + rest == [Lit(text[0])] + (Lits(text[1..]) + rest);
      ExpandText(text[1..], rest, args);
      ExpandChar(text[0], Lits(text[1..]) + rest, args);
      assert [text[0]] + (text[1..] + Expand(rest, args)) == text + Expand(rest, args);
    }
  }

  /** The argument a segment takes, or nothing. */
  function Own(g: Segment, args: seq<string>): string {
    if g.param.Some? && args != [] then args[0] else ""
  }

  lemma ExpandSegment(g: Segment, rest: seq<Elem>, args: seq<string>)
    requires |args| == Groups(SegmentElems(g) + rest) || |args| == |SegmentNames(g)| + Groups(rest)
    ensures |args| == |SegmentNames(g)| + Groups(rest) == Groups(SegmentElems(g) + rest)
    ensures Expand(SegmentElems(g) + rest, args) == (g.text + Own(g, args)) + Expand(rest, args[|SegmentNames(g)|..])
  {
    hide Expand, Lits;
    if g.param.Some? {
      var inner := [Group] + rest;
      assert SegmentElems(g) + rest == Lits(g.text) + inner;
      assert inner[1..] == rest;
      GroupsOfText(g.text, inner);
      ExpandText(g.text, inner, args);
      ExpandGroup(rest, args);
      assert g.text + (args[0] + Expand(rest, args[1..])) == (g.text + args[0]) + Expand(rest, args[1..]);
    } else {
      assert SegmentElems(g) + rest == Lits(g.text) + rest;
      GroupsOfText(g.text, rest);
      ExpandText(g.text, rest, args);
      assert g.text + "" == g.text && args[0..] == args;
    }
  }

  lemma ExpandGroup(rest: seq<Elem>, args: seq<string>)
    requires |args| == Groups([Group] + rest)
    ensures args != [] && |args[1..]| == Groups(rest)
    ensures Expand([Group] + rest, args) == args[0] + Expand(rest, args[1..])
  {
    assert ([Group] + rest)[1..] == rest;
  }

  lemma {:induction false} GroupsOfText(text: string, rest: seq<Elem>)
    ensures Groups(Lits(text) + rest) == Groups(rest)
  {
    if text == "" {
      assert Lits(text) + rest == rest;
    } else {
      assert (Lits(text) + rest)[1..] == Lits(text[1..]) + rest;
      GroupsOfText(text[1..], rest);
    }
  }

  function AfterFirst(gs: seq<Segment>): seq<Elem>
    requires gs != []
  {
    if |gs| == 1 then [] else [Lit('/')] + Elems(gs[1..])
  }

  predicate Filled(elems: seq<Elem>, p: string, args: seq<string>) {
    |args| == Groups(elems) && ArgsOk(args) && p == Expand(elems, args)
  }

  /** A filled-in template is its first segment filled in, then a slash and the others. */
  lemma FilledSplit(gs: seq<Segment>, p: string, args: seq<string>)
    requires gs != []
    requires |args| >= |SegmentNames(gs[0])|
    ensures var tail := args[|SegmentNames(gs[0])|..];
            Filled(Elems(gs), p, args)
            <==> ArgsOk(args[..|SegmentNames(gs[0])|])
                 && if |gs| == 1 then tail == [] && p == gs[0].text + Own(gs[0], args)
                    else |tail| == Groups(Elems(gs[1..])) && ArgsOk(tail)
                         && p == (gs[0].text + Own(gs[0], args)) + ("/" + Expand(Elems(gs[1..]), tail))
  {
    hide Expand, Own, Groups, SegmentElems;
    var n := |SegmentNames(gs[0])|;
    var tail := args[n..];
    assert Elems(gs) == SegmentElems(gs[0]) + AfterFirst(gs);
    assert args == args[..n] + tail;
    assert ArgsOk(args) <==> ArgsOk(args[..n]) && ArgsOk(tail) by {
      ArgsOkSplit(args, n);
    }
    AfterFirstGroups(gs);
    if |args| == Groups(Elems(gs)) || |tail| == Groups(AfterFirst(gs)) {
      ExpandSegment(gs[0], AfterFirst(gs), args);
      AfterFirstExpand(gs, tail);
      assert |gs| == 1 ==> (gs[0].text + Own(gs[0], args)) + "" == gs[0].text + Own(gs[0], args);
    }
  }

  lemma ArgsOkSplit(args: seq<string>, n: nat)
    requires n <= |args|
    ensures ArgsOk(args) <==> ArgsOk(args[..n]) && ArgsOk(args[n..])
  {
    assert forall k :: n <= k < |args| ==> args[k] == args[n..][k - n];
  }

  lemma AfterFirstGroups(gs: seq<Segment>)
    requires gs != []
    ensures Groups(AfterFirst(gs)) == if |gs| == 1 then 0 else Groups(Elems(gs[1..]))
  {
    if |gs| > 1 {
      assert ([Lit('/')] + Elems(gs[1..]))[1..] == Elems(gs[1..]);
    }
  }

  lemma AfterFirstExpand(gs: seq<Segment>, args: seq<string>)
    requires gs != [] && |args| == Groups(AfterFirst(gs))
    ensures |gs| == 1 ==> args == [] && Expand(AfterFirst(gs), args) == ""
    ensures |gs| > 1 ==> |args| == Groups(Elems(gs[1..])) && Expand(AfterFirst(gs), args) == "/" + Expand(Elems(gs[1..]), args)
  {
    AfterFirstGroups(gs);
    if |gs| > 1 {
      assert ([Lit('/')] + Elems(gs[1..]))[1..] == Elems(gs[1..]);
    }
  }

  /** A segment filled in with its argument is a piece that agrees with it. */
  lemma PieceIs(g: Segment, args: seq<string>)
    requires SegmentOk(g) && |args| == |SegmentNames(g)| && ArgsOk(args)
    ensures PieceAgrees(g, g.text + Own(g, args))
    ensures '/' !in g.text + Own(g, args)
  {
  }

  /** The argument that makes a segment the piece. */
  function ArgFor(g: Segment, piece: string): seq<string>
    requires PieceAgrees(g, piece)
  {
    if g.param.Some? then [piece[|g.text|..]] else []
  }

  lemma ArgForIs(g: Segment, piece: string)
    requires PieceAgrees(g, piece) && '/' !in piece
    ensures var own := ArgFor(g, piece);
            |own| == |SegmentNames(g)| && ArgsOk(own) && piece == g.text + Own(g, own)
  {
  }

  lemma {:induction false} FilledAgrees(gs: seq<Segment>, p: string, args: seq<string>)
    requires gs != [] && SegmentsOk(gs) && Filled(Elems(gs), p, args)
    ensures Agrees(gs, Pieces(p))
  {
    hide Expand, Filled, SegmentOk, Groups, PieceAgrees;
    var n := |SegmentNames(gs[0])|;
    assert |args| >= n by {
      EnoughArgs(gs, p, args);
    }
    FilledSplit(gs, p, args);
    var first := gs[0].text + Own(gs[0], args);
    assert Own(gs[0], args[..n]) == Own(gs[0], args);
    PieceIs(gs[0], args[..n]);
    if |gs| == 1 {
      PiecesOf(first, "");
    } else {
      var rest := Expand(Elems(gs[1..]), args[n..]);
      PiecesOf(first, rest);
      assert Filled(Elems(gs[1..]), rest, args[n..]) by {
        FilledMeans(Elems(gs[1..]), rest, args[n..]);
      }
      FilledAgrees(gs[1..], rest, args[n..]);
      AgreesCons(gs, first, Pieces(rest));
    }
  }

  lemma FilledMeans(elems: seq<Elem>, p: string, args: seq<string>)
    ensures Filled(elems, p, args) <==> |args| == Groups(elems) && ArgsOk(args) && p == Expand(elems, args)
  {
  }

  lemma EnoughArgs(gs: seq<Segment>, p: string, args: seq<string>)
    requires gs != [] && Filled(Elems(gs), p, args)
    ensures |args| >= |SegmentNames(gs[0])|
  {
    hide Expand, SegmentElems;
    assert Elems(gs) == SegmentElems(gs[0]) + AfterFirst(gs);
    ExpandSegment(gs[0], AfterFirst(gs), args);
  }

  lemma AgreesCons(gs: seq<Segment>, first: string, rest: seq<string>)
    requires gs != []
    ensures Agrees(gs, [first] + rest) <==> PieceAgrees(gs[0], first) && Agrees(gs[1..], rest)
  {
    hide PieceAgrees;
    var ps := [first] + rest;
    assert forall k :: 0 < k < |ps| ==> ps[k] == rest[k - 1];
    assert forall k :: 0 < k < |gs| ==> gs[k] == gs[1..][k - 1];
  }

  lemma {:induction false} AgreesFilled(gs: seq<Segment>, p: string)
    requires gs != [] && SegmentsOk(gs) && Agrees(gs, Pieces(p))
    ensures exists args :: Filled(Elems(gs), p, args)
  {
    hide Expand, Filled, SegmentOk, Groups, PieceAgrees, ArgFor;
    var first, rest := FirstPiece(p);
    PiecesOf(first, rest);
    var own := ArgFor(gs[0], Pieces(p)[0]);
    ArgForIs(gs[0], first);
    var others := [];
    if |gs| > 1 {
      AgreesCons(gs, first, Pieces(rest));
      AgreesFilled(gs[1..], rest);
      others :| Filled(Elems(gs[1..]), rest, others);
      FilledMeans(Elems(gs[1..]), rest, others);
    }
    var args := own + others;
    ArgsOkSplit(args, |own|);
    assert args[..|own|] == own && args[|own|..] == others;
    FilledSplit(gs, p, args);
  }

  predicate Segmented(gs: seq<Segment>) {
    gs != [] && SegmentsOk(gs)
  }

  /** Segment by segment, possibly after dropping one final line feed. */
  predicate PathAgrees(gs: seq<Segment>, path: string) {
    || Agrees(gs, Pieces(path))
    || (path != "" && path[|path| - 1] == '\n' && Agrees(gs, Pieces(path[..|path| - 1])))
  }

  /** The compiled matcher accepts a path exactly when it agrees with the template. */
  lemma TemplateAccepts(gs: seq<Segment>, path: string)
    requires Segmented(gs)
    ensures Match(Elems(gs), path).Some? <==> PathAgrees(gs, path)
  {
    hide Match, Fits, Filled, Agrees, Pieces, Elems, SegmentsOk, Expand, ArgsOk;
    if Match(Elems(gs), path).Some? {
      var args := Match(Elems(gs), path).value;
      MatchIsLongestFit(Elems(gs), path, args);
      var p := FitsFilled(Elems(gs), path, args);
      FilledAgrees(gs, p, args);
    }
    if Agrees(gs, Pieces(path)) {
      AgreesFilled(gs, path);
      var args :| Filled(Elems(gs), path, args);
      FilledFits(Elems(gs), path, args);
      MatchIsLongestFit(Elems(gs), path, args);
    }
    if path != "" && path[|path| - 1] == '\n' && Agrees(gs, Pieces(path[..|path| - 1])) {
      var p := path[..|path| - 1];
      AgreesFilled(gs, p);
      var args :| Filled(Elems(gs), p, args);
      FilledFits(Elems(gs), p, args);
      assert path == p + "\n";
      MatchIsLongestFit(Elems(gs), path, args);
    }
  }

  lemma FitsFilled(elems: seq<Elem>, path: string, args: seq<string>) returns (p: string)
    requires Fits(elems, path, args)
    ensures Filled(elems, p, args)
    ensures p == path || (path != "" && path[|path| - 1] == '\n' && p == path[..|path| - 1])
  {
    p := Expand(elems, args);
  }

  lemma FilledFits(elems: seq<Elem>, p: string, args: seq<string>)
    requires Filled(elems, p, args)
    ensures Fits(elems, p, args)
    ensures Fits(elems, p + "\n", args)
  {
  }

  lemma {:induction false} SegmentsEndParams(gs: seq<Segment>)
    ensures ParamsEndSegments(Elems(gs))
  {
    if gs != [] {
      SegmentsEndParams(gs[1..]);
      var elems := Elems(gs);
      var own := SegmentElems(gs[0]);
      forall k | 0 <= k < |elems| - 1 && elems[k].Group? ensures elems[k + 1] == Lit('/') {
        if k >= |own| {
          assert elems[k] == Elems(gs[1..])[k - |own| - 1];
          assert elems[k + 1] == Elems(gs[1..])[k - |own|];
        }
      }
    }
  }

  // ---------------------------------------------------------------------------
  // Resolution
  // ---------------------------------------------------------------------------

  /** The dict built from parameter names and group values: a repeated name keeps its last value. */
  function Bind(names: seq<string>, values: seq<string>, n: nat): map<string, string>
    requires n <= |names| && n <= |values|
  {
    if n == 0 then map[] else Bind(names, values, n - 1)[names[n - 1] := values[n - 1]]
  }

  lemma {:induction false} BindMeans(names: seq<string>, values: seq<string>, n: nat, name: string)
    requires n <= |names| && n <= |values|
    ensures name in Bind(names, values, n) <==> name in names[..n]
    ensures forall k :: 0 <= k < n && names[k] == name && name !in names[k + 1..n]
                        ==> name in Bind(names, values, n) && Bind(names, values, n)[name] == values[k]
  {
    if n > 0 {
      BindMeans(names, values, n - 1, name);
      assert names[..n] == names[..n - 1] + [names[n - 1]];
      forall k | 0 <= k < n - 1 && names[k] == name && name !in names[k + 1..n]
        ensures name !in names[k + 1..n - 1]
        ensures names[n - 1] != name
      {
        assert names[k + 1..n] == names[k + 1..n - 1] + [names[n - 1]];
      }
    }
  }

  function UpperLetter(c: char): char {
    if 'a' <= c <= 'z' then (c as int - 32) as char else c
  }

  function Upper(s: string): string {
    seq(|s|, k requires 0 <= k < |s| => UpperLetter(s[k]))
  }

  /** The same letter in either case, or the same other character. */
  predicate SameLetter(a: char, b: char) {
    || a == b
    || ('a' <= a <= 'z' && 'A' <= b <= 'Z' && a as int - 'a' as int == b as int - 'A' as int)
    || ('A' <= a <= 'Z' && 'a' <= b <= 'z' && a as int - 'A' as int == b as int - 'a' as int)
  }

  predicate SameWord(a: string, b: string) {
    |a| == |b| && forall i :: 0 <= i < |a| ==> SameLetter(a[i], b[i])
  }

  lemma LetterMeans(a: char, b: char)
    ensures UpperLetter(a) == UpperLetter(b) <==> SameLetter(a, b)
  {
    assert 'A' as int == 65 && 'a' as int == 97;
  }

  lemma UpperMeans(a: string, b: string)
    ensures Upper(a) == Upper(b) <==> SameWord(a, b)
  {
    if |a| == |b| {
      forall i | 0 <= i < |a| ensures Upper(a)[i] == Upper(b)[i] <==> SameLetter(a[i], b[i]) {
        LetterMeans(a[i], b[i]);
      }
    }
  }

  datatype Route = Route(method_: string, compiled: Compiled, literal: string)

  /** The routes of a table of methods and templates. */
  predicate BuiltFrom(routes: seq<Route>, specs: seq<(string, string)>) {
    && |routes| == |specs|
    && forall k :: 0 <= k < |specs| ==>
         routes[k].method_ == Upper(specs[k].0) && routes[k].literal == specs[k].1
         && CompileFrom(specs[k].1) == Ok(routes[k].compiled)
  }

  method BuildRoutes(specs: seq<(string, string)>) returns (r: Result<seq<Route>, string>)
    ensures r.Ok? <==> forall k :: 0 <= k < |specs| ==> CompileFrom(specs[k].1).Ok?
    ensures r.Ok? ==> BuiltFrom(r.value, specs)
  {
    hide CompileFrom, Upper;
    var routes := [];
    for k := 0 to |specs|
      invariant BuiltFrom(routes, specs[..k])
    {
      var c := Compile(specs[k].1);
      if c.Err? {
        return Err(c.error);
      }
      routes := routes + [Route(Upper(specs[k].0), c.value, specs[k].1)];
    }
    assert specs[..|specs|] == specs;
    r := Ok(routes);
  }

  predicate Accepts(r: Route, m: string, path: string) {
    r.method_ == m && Match(r.compiled.elems, path).Some?
  }

  /** A route of the table accepts a request exactly when the method is its own, in either case,
      and the path agrees with its template. */
  lemma AcceptsMeans(routes: seq<Route>, specs: seq<(string, string)>, k: nat, gs: seq<Segment>, m: string, path: string)
    requires BuiltFrom(routes, specs) && k < |specs| && Segmented(gs) && specs[k].1 == Template(gs)
    ensures Accepts(routes[k], Upper(m), path) <==> SameWord(specs[k].0, m) && PathAgrees(gs, path)
  {
    hide CompileFrom, Match, PathAgrees, Upper, SameWord;
    UpperMeans(specs[k].0, m);
    TemplateCompiles(gs);
    TemplateAccepts(gs, path);
  }

  /** The first route that accepts, with its parameters; the number stands for its handler. */
  method ResolveBatchRoute(routes: seq<Route>, m: string, path: string)
    returns (r: Option<(nat, map<string, string>, string)>)
    ensures r.None? <==> forall k :: 0 <= k < |routes| ==> !Accepts(routes[k], Upper(m), path)
    ensures r.Some? ==>
              && r.value.0 < |routes|
              && Accepts(routes[r.value.0], Upper(m), path)
              && (forall k :: 0 <= k < r.value.0 ==> !Accepts(routes[k], Upper(m), path))
              && r.value.2 == routes[r.value.0].literal
              && r.value.1 == MatchInfo(routes[r.value.0].compiled, path)
  {
    hide Match, Upper;
    var method_ := Upper(m);
    for i := 0 to |routes|
      invariant forall k :: 0 <= k < i ==> !Accepts(routes[k], method_, path)
    {
      if routes[i].method_ == method_ {
        var values := Match(routes[i].compiled.elems, path);
        if values.Some? {
          return Some((i, MatchInfo(routes[i].compiled, path), routes[i].literal));
        }
      }
    }
    r := None;
  }

  function Min(a: nat, b: nat): nat {
    if a <= b then a else b
  }

  function MatchInfo(c: Compiled, path: string): map<string, string>
    requires Match(c.elems, path).Some?
  {
    var values := Match(c.elems, path).value;
    Bind(c.names, values, Min(|c.names|, |values|))
  }

  lemma {:induction false} AsManyNames(gs: seq<Segment>)
    ensures Groups(Elems(gs)) == |Names(gs)|
  {
    if gs != [] {
      hide SegmentElems, SegmentNames, Groups;
      AsManyNames(gs[1..]);
      AfterFirstGroups(gs);
      var n := |SegmentNames(gs[0])| + Groups(AfterFirst(gs));
      ExpandSegment(gs[0], AfterFirst(gs), seq(n, _ => ""));
      assert Elems(gs) == SegmentElems(gs[0]) + AfterFirst(gs);
      assert |gs| == 1 ==> gs[1..] == [];
    }
  }

  /** From the written template to the handler's parameters: a path made by filling the template in
      is accepted, and each parameter whose name is not repeated later has the argument used. */
  lemma RouteRoundTrip(gs: seq<Segment>, args: seq<string>, k: nat)
    requires Segmented(gs) && |args| == Groups(Elems(gs)) && ArgsOk(args)
    requires k < |Names(gs)| && Names(gs)[k] !in Names(gs)[k + 1..]
    ensures |args| == |Names(gs)|
    ensures var path := Expand(Elems(gs), args);
            && CompileFrom(Template(gs)) == Ok(Compiled(Elems(gs), Names(gs)))
            && Match(Elems(gs), path) == Some(args)
            && var info := MatchInfo(Compiled(Elems(gs), Names(gs)), path);
               Names(gs)[k] in info && info[Names(gs)[k]] == args[k]
  {
    hide CompileFrom, Match, Expand, Elems, Names, Template, Bind;
    AsManyNames(gs);
    TemplateCompiles(gs);
    SegmentsEndParams(gs);
    ExpandRoundTrip(Elems(gs), args);
    BindMeans(Names(gs), args, |args|, Names(gs)[k]);
    assert Names(gs)[k + 1..|args|] == Names(gs)[k + 1..];
  }

  // ---------------------------------------------------------------------------
  // Sequential execution
  // ---------------------------------------------------------------------------

  datatype ItemResult = ItemResult(id: string, status: int, error: Option<string>)

  predicate Succeeded(r: ItemResult) {
    200 <= r.status < 300
  }

  /** `ids[k]` is the id of item `k` when it is an object with one; `outcomes[k]` is what running
      it comes to. */
  method RunBatchSequential(ids: seq<Option<string>>, outcomes: seq<ItemResult>, abortOnFailure: bool)
    returns (results: seq<ItemResult>, ghost ran: nat)
    requires |ids| == |outcomes|
    ensures |results| == |ids|
    ensures ran <= |ids|
    ensures results[..ran] == outcomes[..ran]
    ensures forall k :: 0 <= k < ran - 1 ==> abortOnFailure ==> 200 <= outcomes[k].status < 300
    ensures ran < |ids| ==> abortOnFailure && ran > 0 && !(200 <= outcomes[ran - 1].status < 300)
    ensures forall k :: ran <= k < |ids| ==>
              results[k] == ItemResult(if ids[k].Some? then ids[k].value else "", 0, Some("aborted"))
  {
    results := [];
    for i := 0 to |ids|
      invariant results == outcomes[..i]
      invariant abortOnFailure ==> forall k :: 0 <= k < i ==> Succeeded(outcomes[k])
    {
      results := results + [outcomes[i]];
      if abortOnFailure && !Succeeded(outcomes[i]) {
        ran := i + 1;
        for j := i + 1 to |ids|
          invariant |results| == j && results[..ran] == outcomes[..ran]
          invariant forall k :: ran <= k < j ==>
                      results[k] == ItemResult(if ids[k].Some? then ids[k].value else "", 0, Some("aborted"))
        {
          results := results + [ItemResult(if ids[j].Some? then ids[j].value else "", 0, Some("aborted"))];
        }
        return;
      }
    }
    ran := |ids|;
  }
}
