/** The regular expression /filename="?(.+)"?/ that getFilenameFromUrl runs
    over a content-disposition header with String.prototype.match (no
    flags): the first capture of the leftmost match, or no match. */
module DispositionPattern {
  import opened JsString

  const Keyword: string := "filename="

  /** The literal `filename=` stands at index `i` of `s`. */
  predicate KeywordAt(s: string, i: nat) {
    OccursAt(s, Keyword, i)
  }

  /** Length of the longest run of code points from `s[k]` on that `.`
      matches, that is, up to the end of the line. */
  function DotRun(s: string, k: nat): (n: nat)
    requires k <= |s|
    ensures k + n <= |s|
    ensures forall i :: k <= i < k + n ==> !IsLineTerminator(s[i])
    ensures k + n == |s| || IsLineTerminator(s[k + n])
    decreases |s| - k
  {
    if k == |s| || IsLineTerminator(s[k]) then 0 else 1 + DotRun(s, k + 1)
  }

  /** What a capture can be: one or more code points, none of them a line
      terminator. */
  predicate IsCapture(t: string) {
    t != [] && forall j :: 0 <= j < |t| ==> !IsLineTerminator(t[j])
  }

  /** `(.+)"?` from index `k`. The greedy `.+` first tries the whole rest of
      the line; after it stands a line terminator or the end of the input,
      never a `"`, so the optional `"?` matches empty there and that first
      attempt already succeeds: the capture is the rest of the line, and it
      fails only when that is empty. */
  function CaptureRest(s: string, k: nat): (c: Option<string>)
    requires k <= |s|
    ensures c.Some? ==> IsCapture(c.value)
  {
    var n := DotRun(s, k);
    if n == 0 then None else Some(s[k..k + n])
  }

  /** The whole pattern at start index `i`: the literal, then the greedy
      `"?` (which first tries to take a quote, and backtracks to taking
      nothing when the rest then fails), then `(.+)"?`. */
  function MatchAt(s: string, i: nat): (c: Option<string>)
    requires i <= |s|
    ensures c.Some? ==> IsCapture(c.value)
  {
    if !KeywordAt(s, i) then None
    else
      var k := i + |Keyword|;
      var quoted := if k < |s| && s[k] == '"' then CaptureRest(s, k + 1) else None;
      if quoted.Some? then quoted else CaptureRest(s, k)
  }

  /** The regular-expression search: start indices are tried from `i` on
      and the first success is the match. */
  function SearchFrom(s: string, i: nat): (c: Option<string>)
    requires i <= |s|
    ensures c.Some? ==> IsCapture(c.value)
    decreases |s| - i
  {
    if MatchAt(s, i).Some? then MatchAt(s, i)
    else if i == |s| then None
    else SearchFrom(s, i + 1)
  }

  /** `s.match(/filename="?(.+)"?/)`, reduced to its capture group 1. */
  function Match(s: string): (c: Option<string>)
    ensures c.Some? ==> IsCapture(c.value)
  {
    SearchFrom(s, 0)
  }

  // ---- the declarative reading of the pattern ----

  /** A match starts at `i`: the literal, followed by a code point that is
      not a line terminator (the quote itself, if nothing follows it). */
  predicate MatchStartsAt(s: string, i: nat) {
    KeywordAt(s, i) && i + |Keyword| < |s| && !IsLineTerminator(s[i + |Keyword|])
  }

  /** The capture of a match starting at `i`: everything after the literal
      up to the end of the line, with one leading `"` dropped when something
      on the line follows it. A closing `"` is never dropped. */
  function CaptureAt(s: string, i: nat): string
    requires MatchStartsAt(s, i)
  {
    var k := i + |Keyword|;
    if s[k] == '"' && k + 1 < |s| && !IsLineTerminator(s[k + 1])
    then s[k + 1..k + 1 + DotRun(s, k + 1)]
    else s[k..k + DotRun(s, k)]
  }

  /** The backtracking attempt at one start index agrees with the reading. */
  lemma MatchAtSpec(s: string, i: nat)
    requires i <= |s|
    ensures MatchAt(s, i).Some? <==> MatchStartsAt(s, i)
    ensures MatchAt(s, i).Some? ==> MatchAt(s, i).value == CaptureAt(s, i)
  {
  }

  /** The search finds the leftmost start index from `i` on. */
  lemma {:induction false} SearchFromSpec(s: string, i: nat)
    requires i <= |s|
    ensures SearchFrom(s, i).Some? <==> exists p: nat :: i <= p <= |s| && MatchStartsAt(s, p)
    ensures SearchFrom(s, i).Some? ==>
      exists p: nat :: i <= p <= |s| && MatchStartsAt(s, p)
        && (forall q: nat :: i <= q < p ==> !MatchStartsAt(s, q))
        && SearchFrom(s, i).value == CaptureAt(s, p)
    decreases |s| - i
  {
    MatchAtSpec(s, i);
    if !MatchStartsAt(s, i) && i < |s| {
      SearchFromSpec(s, i + 1);
      if SearchFrom(s, i).Some? {
        var p: nat :| i + 1 <= p <= |s| && MatchStartsAt(s, p)
          && (forall q: nat :: i + 1 <= q < p ==> !MatchStartsAt(s, q))
          && SearchFrom(s, i + 1).value == CaptureAt(s, p);
        assert forall q: nat :: i <= q < p ==> !MatchStartsAt(s, q);
      }
    }
  }

  /** What String.prototype.match yields: a capture exactly when some index
      starts a match, and then the capture of the leftmost such index. */
  lemma MatchSpec(s: string)
    ensures Match(s).Some? <==> exists p: nat :: p <= |s| && MatchStartsAt(s, p)
    ensures Match(s).Some? ==>
      exists p: nat :: p <= |s| && MatchStartsAt(s, p)
        && (forall q: nat :: q < p ==> !MatchStartsAt(s, q))
        && Match(s).value == CaptureAt(s, p)
  {
    SearchFromSpec(s, 0);
  }

  /** A capture is never empty and never spans a line terminator. */
  lemma CaptureShape(s: string, i: nat)
    requires MatchStartsAt(s, i)
    ensures IsCapture(CaptureAt(s, i))
  {
  }

  /** Without the literal there is no match. */
  lemma {:induction false} NoKeywordNoMatch(s: string)
    requires !Includes(s, Keyword)
    ensures Match(s) == None
  {
    MatchSpec(s);
  }

  /** A quoted value at the end of a header, after text that does not hold
      the literal itself: the capture is the value followed by its closing
      quote, which the greedy `.+` takes along. */
  lemma QuotedValueKeepsClosingQuote(prefix: string, v: string)
    requires !Includes(prefix, Keyword)
    requires forall j :: 0 <= j < |v| ==> !IsLineTerminator(v[j])
    ensures Match(prefix + Keyword + "\"" + v + "\"") == Some(v + "\"")
  {
    var s := prefix + Keyword + "\"" + v + "\"";
    var i := |prefix|;
    assert s[i..i + |Keyword|] == Keyword;
    assert MatchStartsAt(s, i);
    forall q: nat | q < i ensures !MatchStartsAt(s, q) {
      NoEarlierKeyword(prefix, s[i..], q);
      assert prefix + s[i..] == s;
    }
    var k := i + |Keyword|;
    assert s[k] == '"' && s[k + 1..] == v + "\"";
    assert !IsLineTerminator(s[k + 1]) by {
      if v != [] { assert s[k + 1] == v[0]; } else { assert s[k + 1] == '"'; }
    }
    assert DotRun(s, k + 1) == |s| - (k + 1) by {
      DotRunToEnd(s, k + 1);
    }
    assert CaptureAt(s, i) == v + "\"";
    MatchSpec(s);
    var p: nat :| p <= |s| && MatchStartsAt(s, p)
      && (forall q: nat :: q < p ==> !MatchStartsAt(s, q))
      && Match(s).value == CaptureAt(s, p);
    assert p == i;
  }

  /** When `prefix` does not hold the literal and `t` starts with it, the
      literal does not start anywhere inside `prefix` in `prefix + t`: an
      occurrence cannot lie within `prefix`, and it cannot straddle the two,
      because the `f` that starts `t` appears in the literal only at its
      start. */
  lemma NoEarlierKeyword(prefix: string, t: string, q: nat)
    requires !Includes(prefix, Keyword)
    requires |t| >= |Keyword| && t[..|Keyword|] == Keyword
    requires q < |prefix|
    ensures !KeywordAt(prefix + t, q)
  {
    var s := prefix + t;
    var i := |prefix|;
    if KeywordAt(s, q) {
      if q + |Keyword| <= i {
        assert prefix[q..q + |Keyword|] == s[q..q + |Keyword|];
        assert OccursAt(prefix, Keyword, q);
      } else {
        KeywordLetter(s, q, i - q);
        KeywordLetter(t, 0, 0);
        KeywordHasOneF(i - q);
        assert false;
      }
    }
  }

  /** Text without an `f` does not hold the literal. */
  lemma NoFNoKeyword(prefix: string)
    requires 'f' !in prefix
    ensures !Includes(prefix, Keyword)
  {
    if Includes(prefix, Keyword) {
      var j: nat :| OccursAt(prefix, Keyword, j);
      KeywordLetter(prefix, j, 0);
      assert false;
    }
  }

  /** Where the literal stands, each code point is that of the literal. */
  lemma KeywordLetter(s: string, i: nat, j: nat)
    requires KeywordAt(s, i) && j < |Keyword|
    ensures s[i + j] == Keyword[j]
  {
    assert s[i..i + |Keyword|][j] == s[i + j];
  }

  /** The literal has its only `f` at its start. */
  lemma KeywordHasOneF(j: nat)
    requires 0 < j < |Keyword|
    ensures Keyword[j] != 'f'
  {
  }

  /** A line with no terminator runs to the end of the input. */
  lemma {:induction false} DotRunToEnd(s: string, k: nat)
    requires k <= |s|
    requires forall j :: k <= j < |s| ==> !IsLineTerminator(s[j])
    ensures DotRun(s, k) == |s| - k
    decreases |s| - k
  {
    if k < |s| {
      DotRunToEnd(s, k + 1);
    }
  }

  /** The header value of the usual `attachment; filename="report.pdf"`
      yields `report.pdf"`, closing quote included. */
  lemma ReportPdfExample()
    ensures Match("attachment; filename=\"report.pdf\"") == Some("report.pdf\"")
  {
    var prefix, v := "attachment; ", "report.pdf";
    ReportPdfParts();
    QuotedValueKeepsClosingQuote(prefix, v);
  }

  /** The pieces of the header `attachment; filename="report.pdf"`. */
  lemma ReportPdfParts()
    ensures !Includes("attachment; ", Keyword)
    ensures forall j :: 0 <= j < |"report.pdf"| ==> !IsLineTerminator("report.pdf"[j])
    ensures "attachment; " + Keyword + "\"" + "report.pdf" + "\"" == "attachment; filename=\"report.pdf\""
    ensures "report.pdf" + "\"" == "report.pdf\""
  {
    NoFNoKeyword("attachment; ");
    ReportPdfText();
  }

  lemma ReportPdfText()
    ensures 'f' !in "attachment; "
    ensures forall j :: 0 <= j < |"report.pdf"| ==> !IsLineTerminator("report.pdf"[j])
    ensures "attachment; " + Keyword + "\"" + "report.pdf" + "\"" == "attachment; filename=\"report.pdf\""
    ensures "report.pdf" + "\"" == "report.pdf\""
  {
  }
}
