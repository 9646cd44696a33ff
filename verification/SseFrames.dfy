/**
 Frames as `_format_sse` prints them, and what the standard's parser makes of a stream of them.
 */
module SseFrames {
  import opened SseFormat

  /** One frame as printed: its lines, then a blank line. */
  method FormatSse(eventType: string, payload: string, id: string) returns (frame: string)
    ensures frame == Terminated(FrameLines(eventType, payload, id) + [""])
  {
    hide Terminated, JoinLines;
    var lines := ["event: " + eventType];
    if id != "" {
      lines := lines + ["id: " + id];
    }
    ghost var head := lines;
    var parts := SplitLines(payload);
    if parts == [] {
      parts := [payload];
    }
    var k := 0;
    while k < |parts|
      invariant 0 <= k <= |parts| && parts == DataLines(payload)
      invariant lines == head + Labelled(parts[..k])
    {
      LabelledStep(head, parts, k);
      lines := lines + ["data: " + parts[k]];
      k := k + 1;
    }
    assert parts[..k] == parts;
    frame := JoinLines(lines) + "\n\n";
    FrameText(lines);
  }

  // ---------------------------------------------------------------------------
  // Round trip
  // ---------------------------------------------------------------------------

  /** The printer is undone by the standard's parser: a stream of frames and comments yields
      exactly the printed events, in order; and the client's id moves only at frames that carry
      one, so neither the greeting nor a keep-alive moves it off the id buffer. */
  lemma {:induction false} StreamRoundTrip(chunks: seq<Chunk>, buffer: string, last: string)
    requires forall k :: 0 <= k < |chunks| ==> Clean(chunks[k])
    ensures Parse(Print(chunks), buffer, last)
            == (Idle(LastIdOf(chunks, buffer), if chunks == [] then last else LastIdOf(chunks, buffer)),
                Messages(chunks, buffer))
    decreases |chunks|
  {
    if chunks != [] {
      hide Parse, ChunkMessages, Terminated, Clean, IdAfter;
      var id := IdAfter(chunks[0], buffer);
      ChunkParses(chunks[0], Print(chunks[1..]), buffer, last);
      StreamRoundTrip(chunks[1..], id, id);
      assert Parse(Print(chunks), buffer, last).1 == Messages(chunks, buffer);
    }
  }

  /** Lines are broken by line feeds alone, and the text does not end in one. */
  predicate InnerFeedsOnly(s: string) {
    forall i :: 0 <= i < |s| && IsBreak(s[i]) ==> s[i] == '\n' && i < |s| - 1
  }

  /** A payload comes back unchanged exactly when it breaks lines by line feeds alone and does not
      end in one; `json.dumps` prints no break at all. */
  lemma UnbrokenPayload(payload: string)
    ensures JoinLines(DataLines(payload)) == payload <==> InnerFeedsOnly(payload)
  {
    JoinSplitIff(payload);
  }

  lemma InnerFeeds(a: string, c: char, rest: string)
    requires IsBreak(c) && forall i :: 0 <= i < |a| ==> !IsBreak(a[i])
    ensures InnerFeedsOnly(a + ([c] + rest)) <==> c == '\n' && rest != "" && InnerFeedsOnly(rest)
  {
    hide IsBreak;
    var s := a + ([c] + rest);
    assert s[|a|] == c;
    assert forall i :: |a| < i < |s| ==> s[i] == rest[i - |a| - 1];
    assert forall i :: 0 <= i < |rest| ==> rest[i] == s[i + |a| + 1];
  }

  lemma JoinedIs(a: string, c: char, rest: string, joined: string)
    ensures a + ("\n" + joined) == a + ([c] + rest) <==> c == '\n' && joined == rest
  {
    assert (a + ("\n" + joined))[|a|..] == "\n" + joined && (a + ([c] + rest))[|a|..] == [c] + rest;
    assert ("\n" + joined)[1..] == joined && ([c] + rest)[1..] == rest;
  }

  /** A text with a break: the first line, the character that ends it, the rest. */
  lemma FirstBreak(s: string) returns (a: string, c: char, rest: string, lines: seq<string>)
    requires RunLength(s) < |s|
    ensures s == a + ([c] + rest)
    ensures SplitLines(s) == [a] + lines
    ensures IsBreak(c) && forall i :: 0 <= i < |a| ==> !IsBreak(a[i])
    ensures c == '\n' ==> lines == SplitLines(rest)
  {
    hide IsBreak;
    var n := RunLength(s);
    a, c, rest := s[..n], s[n], s[n + 1..];
    assert s == a + ([c] + rest);
    lines := SplitLines(if c == '\r' && n + 1 < |s| && s[n + 1] == '\n' then s[n + 2..] else rest);
  }

  lemma JoinedStep(a: string, c: char, rest: string, lines: seq<string>)
    ensures JoinLines([a] + lines) == a + ([c] + rest) <==> c == '\n' && lines != [] && JoinLines(lines) == rest
  {
    JoinStarts(a, lines);
    hide JoinLines;
    JoinedIs(a, c, rest, JoinLines(lines));
    assert |a + ([c] + rest)| > |a|;
  }

  lemma {:induction false} JoinSplitIff(s: string)
    ensures JoinLines(SplitLines(s)) == s <==> InnerFeedsOnly(s)
    decreases |s|
  {
    if RunLength(s) < |s| {
      var a, c, rest, lines := FirstBreak(s);
      hide InnerFeedsOnly, JoinLines, IsBreak, SplitLines, RunLength;
      InnerFeeds(a, c, rest);
      JoinedStep(a, c, rest, lines);
      if c == '\n' {
        JoinSplitIff(rest);
        NothingToSplit(rest);
      }
    }
  }

  lemma NothingToSplit(s: string)
    ensures SplitLines(s) == [] <==> s == ""
  {
  }

  /** The first line, then a line feed exactly when there are more. */
  lemma JoinStarts(a: string, rest: seq<string>)
    ensures JoinLines([a] + rest) == a + (if rest == [] then "" else "\n" + JoinLines(rest))
  {
    assert ([a] + rest)[1..] == rest;
    if rest != [] {
      assert a + "\n" + JoinLines(rest) == a + ("\n" + JoinLines(rest));
    }
  }

  // --- when a type survives ------------------------------------------------------

  lemma {:induction false} TypesAreOneLine(p: Parser, lines: seq<string>)
    requires OneLine(p.eventType) && forall k :: 0 <= k < |lines| ==> OneLine(lines[k])
    ensures forall k :: 0 <= k < |ProcessLines(p, lines).1| ==> OneLine(ProcessLines(p, lines).1[k].eventType)
    ensures forall k :: 0 <= k < |ProcessLines(p, lines).1| ==> ProcessLines(p, lines).1[k].eventType != ""
    decreases |lines|
  {
    if lines != [] {
      var line := lines[0];
      var q := ProcessLine(p, line);
      if line != "" {
        var n := ColonAt(line);
        if 0 < n < |line| {
          assert OneLine(StripSpace(line[n + 1..]));
        }
      }
      TypesAreOneLine(q.0, lines[1..]);
    }
  }

  /** `_format_sse` escapes nothing in the type, so a single frame is read back with its own type
      exactly when that type is not empty and holds no line ending. */
  lemma TypeSurvivesIff(t: string, payload: string, id: string)
    requires OneLine(id) && '\0' !in id
    ensures var ms := Parse(Print([Frame(t, payload, id)]), "", "").1;
            (exists k :: 0 <= k < |ms| && ms[k].eventType == t) <==> OneLine(t) && t != ""
  {
    var c := Frame(t, payload, id);
    var ms := Parse(Print([c]), "", "").1;
    if OneLine(t) {
      hide OneLine, Parse, DataLines, JoinLines, ProcessLines, Print, Terminated, ChunkLines, IsBreak;
      StreamRoundTrip([c], "", "");
      assert Messages([c], "") == ChunkMessages(c, "") + Messages([], IdAfter(c, ""));
      assert |ms| == 1;
      assert ms[0].eventType == if t != "" then t else "message";
    } else {
      var lines := Lines(Print([c]));
      forall k | 0 <= k < |lines| ensures OneLine(lines[k]) {
        assert lines[k] in lines;
      }
      TypesAreOneLine(Idle("", ""), lines);
    }
  }
}
