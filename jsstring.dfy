/** The few String and Array built-ins of ECMA-262 that the bot relies on:
    white space and line terminators, String.prototype.trim,
    String.prototype.split with a one-character separator followed by
    Array.prototype.pop, and String.prototype.includes.
    A JavaScript string is modelled as a sequence of Unicode code points. */
module JsString {

  datatype Option<+T> = None | Some(value: T)

  /** Property access `m[k]` on a plain object used as a dictionary
      (undefined when the key is absent). */
  function Lookup<K, V>(m: map<K, V>, k: K): (v: Option<V>)
    ensures v.Some? <==> k in m
    ensures v.Some? ==> v.value == m[k]
  {
    if k in m then Some(m[k]) else None
  }

  /** The Space_Separator (Zs) code points of Unicode. */
  predicate IsSpaceSeparator(c: char) {
    c == ' ' || c == '\U{00A0}' || c == '\U{1680}' || ('\U{2000}' <= c <= '\U{200A}')
    || c == '\U{202F}' || c == '\U{205F}' || c == '\U{3000}'
  }

  /** The WhiteSpace production of ECMA-262 (section 12.2). */
  predicate IsWhiteSpace(c: char) {
    c == '\t' || c == '\U{000B}' || c == '\U{000C}' || c == '\U{FEFF}' || IsSpaceSeparator(c)
  }

  /** The LineTerminator production of ECMA-262 (section 12.3); also the code
      points that `.` in a regular expression without the `s` flag refuses. */
  predicate IsLineTerminator(c: char) {
    c == '\n' || c == '\r' || c == '\U{2028}' || c == '\U{2029}'
  }

  /** What TrimString and the StrWhiteSpaceChar production both strip. */
  predicate IsStrWhiteSpace(c: char) {
    IsWhiteSpace(c) || IsLineTerminator(c)
  }

  /** Number of white-space code points at the start of `s`. */
  function LeadingWhiteSpace(s: string): (n: nat)
    ensures n <= |s|
    ensures forall i :: 0 <= i < n ==> IsStrWhiteSpace(s[i])
    ensures n == |s| || !IsStrWhiteSpace(s[n])
  {
    if s == [] || !IsStrWhiteSpace(s[0]) then 0 else 1 + LeadingWhiteSpace(s[1..])
  }

  /** Number of white-space code points at the end of `s`. */
  function TrailingWhiteSpace(s: string): (n: nat)
    ensures n <= |s|
    ensures forall i :: |s| - n <= i < |s| ==> IsStrWhiteSpace(s[i])
    ensures n == |s| || !IsStrWhiteSpace(s[|s| - n - 1])
  {
    if s == [] || !IsStrWhiteSpace(s[|s| - 1]) then 0 else 1 + TrailingWhiteSpace(s[..|s| - 1])
  }

  /** TrimString(s, start). */
  function TrimStart(s: string): string {
    s[LeadingWhiteSpace(s)..]
  }

  /** TrimString(s, end). */
  function TrimEnd(s: string): string {
    s[..|s| - TrailingWhiteSpace(s)]
  }

  /** String.prototype.trim: TrimString(s, start+end). */
  function Trim(s: string): string {
    TrimEnd(TrimStart(s))
  }

  /** TrimStart removes the leading white space and nothing else. */
  lemma TrimStartSpec(s: string)
    ensures var t := TrimStart(s);
      && (t == [] || !IsStrWhiteSpace(t[0]))
      && s == s[..LeadingWhiteSpace(s)] + t
  {
  }

  /** TrimEnd removes the trailing white space and nothing else. */
  lemma TrimEndSpec(s: string)
    ensures var t := TrimEnd(s);
      && (t == [] || !IsStrWhiteSpace(t[|t| - 1]))
      && (forall i :: |t| <= i < |s| ==> IsStrWhiteSpace(s[i]))
  {
  }

  /** What Trim leaves starts and ends with a non-white-space code point. */
  lemma TrimEnds(s: string)
    ensures Trim(s) == [] || !IsStrWhiteSpace(Trim(s)[0])
    ensures Trim(s) == [] || !IsStrWhiteSpace(Trim(s)[|Trim(s)| - 1])
  {
    TrimStartSpec(s);
    TrimEndSpec(TrimStart(s));
  }

  /** Trim removes white space, and only white space, from both ends: the
      result is the slice of the input after its leading white space, and
      everything after that slice is white space too. */
  lemma TrimSlice(s: string)
    ensures LeadingWhiteSpace(s) + |Trim(s)| <= |s|
    ensures Trim(s) == s[LeadingWhiteSpace(s)..LeadingWhiteSpace(s) + |Trim(s)|]
    ensures forall i :: LeadingWhiteSpace(s) + |Trim(s)| <= i < |s| ==> IsStrWhiteSpace(s[i])
  {
    var a := LeadingWhiteSpace(s);
    var u := s[a..];
    var n := TrailingWhiteSpace(u);
    assert Trim(s) == u[..|u| - n];
    assert u[..|u| - n] == s[a..a + (|u| - n)];
    forall i | a + (|u| - n) <= i < |s| ensures IsStrWhiteSpace(s[i]) {
      assert s[i] == u[i - a];
    }
  }

  /** Trimming twice is trimming once. */
  lemma TrimIdempotent(s: string)
    ensures Trim(Trim(s)) == Trim(s)
  {
    var t := Trim(s);
    TrimEnds(s);
    assert LeadingWhiteSpace(t) == 0;
    assert TrimStart(t) == t;
    assert TrailingWhiteSpace(t) == 0;
  }

  /** String.prototype.split with a one-code-point separator: the pieces
      between the separators, in order; the empty string splits into one
      empty piece. */
  function Split(s: string, sep: char): (parts: seq<string>)
    ensures |parts| >= 1
    ensures forall i :: 0 <= i < |parts| ==> sep !in parts[i]
  {
    if s == [] then [[]]
    else
      var rest := Split(s[1..], sep);
      if s[0] == sep then [[]] + rest else [[s[0]] + rest[0]] + rest[1..]
  }

  /** Array.prototype.join with a one-code-point separator: the reference
      that Split is the inverse of. */
  function Join(parts: seq<string>, sep: char): string
    requires |parts| >= 1
  {
    if |parts| == 1 then parts[0] else parts[0] + [sep] + Join(parts[1..], sep)
  }

  /** Joining the pieces of a split gives the original string back. */
  lemma {:induction false} JoinSplit(s: string, sep: char)
    ensures Join(Split(s, sep), sep) == s
  {
    if s != [] {
      var rest := Split(s[1..], sep);
      JoinSplit(s[1..], sep);
      if s[0] != sep {
        if |rest| == 1 {
          assert Split(s, sep) == [[s[0]] + rest[0]];
        } else {
          var p := [[s[0]] + rest[0]] + rest[1..];
          assert p[1..] == rest[1..];
          assert Join(p, sep) == [s[0]] + (rest[0] + [sep] + Join(rest[1..], sep));
        }
      } else {
        var p := [[]] + rest;
        assert p[1..] == rest;
      }
    }
  }

  /** Splitting a join of separator-free pieces gives the pieces back. */
  lemma {:induction false} SplitJoin(parts: seq<string>, sep: char)
    requires |parts| >= 1
    requires forall i :: 0 <= i < |parts| ==> sep !in parts[i]
    ensures Split(Join(parts, sep), sep) == parts
  {
    if |parts| == 1 {
      SplitFree(parts[0], sep);
    } else {
      SplitJoin(parts[1..], sep);
      SplitPrefix(parts[0], Join(parts[1..], sep), sep);
      assert [parts[0]] + parts[1..] == parts;
    }
  }

  /** A string without the separator splits into itself. */
  lemma {:induction false} SplitFree(s: string, sep: char)
    requires sep !in s
    ensures Split(s, sep) == [s]
  {
    if s != [] {
      assert sep !in s[1..];
      SplitFree(s[1..], sep);
      assert [s[0]] + s[1..] == s;
    }
  }

  /** Splitting `p + [sep] + t` for a separator-free `p`. */
  lemma {:induction false} SplitPrefix(p: string, t: string, sep: char)
    requires sep !in p
    ensures Split(p + [sep] + t, sep) == [p] + Split(t, sep)
  {
    if p != [] {
      assert (p + [sep] + t)[1..] == p[1..] + [sep] + t;
      assert sep !in p[1..];
      SplitPrefix(p[1..], t, sep);
      assert [p[0]] + p[1..] == p;
    } else {
      assert ([sep] + t)[1..] == t;
    }
  }

  /** `url.pathname.split('/').pop()`: the last piece of the split. */
  function LastSegment(s: string, sep: char): string {
    var parts := Split(s, sep);
    parts[|parts| - 1]
  }

  /** The last segment is the separator-free tail of `s` after its last
      separator (all of `s` when there is none); it is empty exactly when
      `s` is empty or ends with the separator. */
  lemma {:induction false} LastSegmentSpec(s: string, sep: char)
    ensures var z := LastSegment(s, sep);
      && sep !in z
      && |z| <= |s|
      && s[|s| - |z|..] == z
      && (|z| < |s| ==> s[|s| - |z| - 1] == sep)
      && (z == [] <==> s == [] || s[|s| - 1] == sep)
  {
    if s != [] {
      LastSegmentSpec(s[1..], sep);
      LastSegmentCons(s, sep);
      var z := LastSegment(s[1..], sep);
      if LastSegment(s, sep) == z && z != s[1..] {
        assert s[1..][|s| - 1 - |z|..] == s[|s| - |z|..];
        assert s[1..][|s| - 1 - |z| - 1] == s[|s| - |z| - 1];
      }
    }
  }

  /** The last segment of a non-empty string: the whole string when it has
      no separator, and otherwise the last segment of its tail. */
  lemma LastSegmentCons(s: string, sep: char)
    requires s != []
    ensures sep !in s ==> LastSegment(s, sep) == s
    ensures sep in s ==> LastSegment(s, sep) == LastSegment(s[1..], sep)
  {
    var rest := Split(s[1..], sep);
    if sep !in s {
      SplitFree(s, sep);
    } else if s[0] != sep {
      assert sep in s[1..] by {
        var i :| 0 <= i < |s| && s[i] == sep;
        assert s[1..][i - 1] == sep;
      }
      SplitAtSeparator(s[1..], sep);
    }
  }

  /** A string holding the separator splits into more than one piece. */
  lemma SplitAtSeparator(s: string, sep: char)
    requires sep in s
    ensures |Split(s, sep)| > 1
  {
    if |Split(s, sep)| == 1 {
      JoinSplit(s, sep);
    }
  }

  /** `t` occurs in `s` starting at index `j`. */
  predicate OccursAt(s: string, t: string, j: nat) {
    j + |t| <= |s| && s[j..j + |t|] == t
  }

  /** `s.includes(t)` from position `i` on. */
  function IncludesFrom(s: string, t: string, i: nat): (b: bool)
    requires i <= |s|
    ensures b <==> exists j: nat :: i <= j && OccursAt(s, t, j)
    decreases |s| - i
  {
    if i + |t| > |s| then false
    else if OccursAt(s, t, i) then true
    else IncludesFrom(s, t, i + 1)
  }

  /** String.prototype.includes. */
  function Includes(s: string, t: string): (b: bool)
    ensures b <==> exists j: nat :: OccursAt(s, t, j)
  {
    IncludesFrom(s, t, 0)
  }
}
