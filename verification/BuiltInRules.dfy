/**
 The sanitizer's built-in rules: which are the exporter's, and where the two checks part.
 */
module BuiltInRules {
  import opened Regexes
  import opened Sanitizer
  import opened BuiltInTable
  import Exporter

  // ---------------------------------------------------------------------------
  // The exporter's patterns in the table
  // ---------------------------------------------------------------------------

  /** Where the exporter's seven plain words stand in the table: category and rule. */
  const SHARED_AT: set<(int, int)> := {(0, 4), (1, 0), (1, 1), (1, 2), (2, 0), (3, 0), (3, 1)}

  /** The exporter's pattern for the same word. */
  lemma SameWord(r: Rule, k: nat)
    requires 3 <= k < |Exporter.PRIVATE_PATTERNS|
    requires r.ci && r.regex == Text(Exporter.PRIVATE_PATTERNS[k].word)
    ensures Shared(r)
  {
    assert r.regex == Exporter.AsRegex(Exporter.PRIVATE_PATTERNS[k]);
  }

  lemma SharedRules(c: nat, p: nat)
    requires (c, p) in SHARED_AT
    ensures c < |BUILT_IN|
    ensures p < |BUILT_IN[c].rules|
    ensures Shared(BUILT_IN[c].rules[p])
  {
    hide Then, Times, Shared;
    if c == 0 {
      SameWord(PRIVATE_DATA.rules[4], 3);
    } else if c == 1 {
      SameWord(SECURITY_LAYER.rules[0], 7);
      SameWord(SECURITY_LAYER.rules[1], 8);
      SameWord(SECURITY_LAYER.rules[2], 6);
    } else if c == 2 {
      SameWord(MATRIX_ROUTING.rules[0], 9);
    } else {
      SameWord(CLOSED_SOURCE.rules[0], 5);
      SameWord(CLOSED_SOURCE.rules[1], 4);
    }
  }

  /** So a scan with the built-in table of text that went through the exporter reports none of the
      seven. */
  lemma SevenNeverReported(cs: seq<Category>, content: string, file: string, v: Violation)
    requires cs == BUILT_IN && v in Scan(cs, Exporter.Strip(Exporter.PRIVATE_PATTERNS, content), file)
    ensures exists c: nat, p: nat, k: nat ::
              && ReportedBy(cs, Exporter.Strip(Exporter.PRIVATE_PATTERNS, content), file, v, c, p, k)
              && (c, p) !in SHARED_AT
  {
    hide Exporter.Strip, Then, Times, Scan, Shared, Report, Hits, Split;
    var text := Exporter.Strip(Exporter.PRIVATE_PATTERNS, content);
    StrippedTextReports(cs, content, file, v);
    var c: nat, p: nat, k: nat :| ReportedBy(cs, text, file, v, c, p, k) && !Shared(cs[c].rules[p]);
    if (c, p) in SHARED_AT {
      SharedRules(c, p);
    }
  }

  // ---------------------------------------------------------------------------
  // Where the two checks part
  // ---------------------------------------------------------------------------

  /** Of the four built-in categories, only the closed-source one has checks that agree on every text. */
  lemma CategoryAgreesIff(c: nat, cs: seq<Category>, file: string)
    requires c < |BUILT_IN| && cs == [BUILT_IN[c]]
    ensures (forall s :: ChecksAgree(cs, s, file)) <==> c == 3
  {
    hide InLang, Then, Times, Hits, Matched, QuickClean, Scan, NewlineFree;
    if c == 3 {
      forall p: nat | p < |CLOSED_SOURCE.rules| ensures NewlineFree(CLOSED_SOURCE.rules[p].regex) {
        ClosedSourceIsLine(p);
      }
      forall s ensures ChecksAgree(cs, s, file) {
        ScanAgreesOnLineRules(cs, s, file);
      }
    } else {
      var (a, b) := Apart(c);
      ApartMatches(c);
      forall p: nat | p < |BUILT_IN[c].rules| ensures !Hits(BUILT_IN[c].rules[p], a) && !Hits(BUILT_IN[c].rules[p], b) {
        ShortMisses(c, p, a);
        if c == 0 {
          ShortMisses(c, p, b);
        } else {
          SecondLineMisses(c, p);
        }
      }
      AcrossLines(cs, a, b, file);
      assert !ChecksAgree(cs, a + ("\n" + b), file);
    }
  }

  /** With the whole table, the quick check finds a private key split over two lines and the scan
      reports nothing. */
  lemma LineFeedHidesAMatch(cs: seq<Category>, file: string)
    requires cs == BUILT_IN
    ensures !QuickClean(cs, "private" + ("\n" + "key="))
    ensures Scan(cs, "private" + ("\n" + "key="), file) == []
  {
    hide InLang, Then, Times, Hits, QuickClean, Scan;
    KeyMatches();
    assert InLang(cs[0].rules[0].ci, cs[0].rules[0].regex, "private" + ("\n" + "key="));
    forall c, p | 0 <= c < |cs| && 0 <= p < |cs[c].rules|
      ensures !Hits(cs[c].rules[p], "private")
      ensures !Hits(cs[c].rules[p], "key=")
    {
      ShortMisses(c, p, "private");
      ShortMisses(c, p, "key=");
    }
    AcrossLines(cs, "private", "key=", file);
  }
}
