/**
 * The JavaScript string operations the handlers rely on: `String.prototype.trim`,
 * `String.prototype.split` with a one-character separator, `startsWith`, and the
 * "required field" test `!field?.trim()`.
 */
module Text {
  import opened Wrappers

  /** ECMAScript WhiteSpace and LineTerminator code points, the set `trim` removes. */
  function IsWhitespace(c: char): (b: bool)
    ensures c as int < 0x80 ==> (b <==> c == ' ' || c == '\t' || c == '\n' || c == '\r' || c == '\U{B}' || c == '\U{C}')
  {
    || ('\U{9}' <= c <= '\U{D}')
    || c == ' ' || c == '\U{A0}' || c == '\U{1680}'
    || ('\U{2000}' <= c <= '\U{200A}')
    || c == '\U{2028}' || c == '\U{2029}' || c == '\U{202F}' || c == '\U{205F}'
    || c == '\U{3000}' || c == '\U{FEFF}'
  }

  predicate AllWhitespace(s: string)
  {
    forall i :: 0 <= i < |s| ==> IsWhitespace(s[i])
  }

  /** Neither end of `s` is whitespace. */
  predicate IsTrimmed(s: string)
  {
    |s| > 0 ==> !IsWhitespace(s[0]) && !IsWhitespace(s[|s| - 1])
  }

  /** The number of whitespace characters `s` starts with. */
  function LeadingSpace(s: string): (n: nat)
    ensures n <= |s|
    ensures forall i :: 0 <= i < n ==> IsWhitespace(s[i])
    ensures n < |s| ==> !IsWhitespace(s[n])
    decreases |s|
  {
    if |s| > 0 && IsWhitespace(s[0]) then 1 + LeadingSpace(s[1..]) else 0
  }

  /** The number of whitespace characters `s` ends with. */
  function TrailingSpace(s: string): (n: nat)
    ensures n <= |s|
    ensures forall i :: |s| - n <= i < |s| ==> IsWhitespace(s[i])
    ensures n < |s| ==> !IsWhitespace(s[|s| - n - 1])
    decreases |s|
  {
    if |s| > 0 && IsWhitespace(s[|s| - 1]) then 1 + TrailingSpace(s[..|s| - 1]) else 0
  }

  /** `s.trim()`: `s` without its leading and trailing whitespace. */
  function Trim(s: string): (r: string)
    ensures IsTrimmed(r)
  {
    var a := LeadingSpace(s);
    var n := TrailingSpace(s[a..]);
    assert a < |s| ==> s[a..][0] == s[a] && n < |s| - a;
    s[a..|s| - n]
  }

  /** An infix holds no character the original lacked. */
  lemma InfixKeepsAbsence(s: string, r: string, c: char)
    requires c !in s
    requires exists i, j :: 0 <= i <= j <= |s| && r == s[i..j]
    ensures c !in r
  {
    var i, j :| 0 <= i <= j <= |s| && r == s[i..j];
  }

  /** What `trim` keeps is an infix of the input, and everything it drops on either side is whitespace. */
  lemma TrimIsInfix(s: string)
    ensures exists i, j :: 0 <= i <= j <= |s| && Trim(s) == s[i..j] && AllWhitespace(s[..i]) && AllWhitespace(s[j..])
  {
    var a := LeadingSpace(s);
    var n := TrailingSpace(s[a..]);
    var j := |s| - n;
    forall i | 0 <= i < |s[j..]|
      ensures IsWhitespace(s[j..][i])
    {
      assert s[j..][i] == s[a..][|s[a..]| - n + i];
    }
    assert Trim(s) == s[a..j];
  }

  /** A required field is missing when it is absent or only whitespace: `!field?.trim()`. */
  function Blank(field: Option<string>): (b: bool)
    ensures b <==> field.None? || AllWhitespace(field.value)
  {
    if field.None? then true
    else
      TrimEmptyIffAllWhitespace(field.value);
      Trim(field.value) == ""
  }

  /** `s.startsWith(prefix)`. */
  function StartsWith(s: string, prefix: string): (b: bool)
    ensures b <==> |prefix| <= |s| && s[..|prefix|] == prefix
  {
    prefix <= s
  }

  /** A string with no whitespace at either end is its own trim. */
  lemma TrimOfTrimmed(s: string)
    requires IsTrimmed(s)
    ensures Trim(s) == s
  {
    assert LeadingSpace(s) == 0;
    assert s[0..] == s;
    assert TrailingSpace(s) == 0;
  }

  /** Trim is idempotent. */
  lemma TrimIdempotent(s: string)
    ensures Trim(Trim(s)) == Trim(s)
  {
    TrimOfTrimmed(Trim(s));
  }

  /** Trim yields the empty string exactly when every character is whitespace. */
  lemma TrimEmptyIffAllWhitespace(s: string)
    ensures Trim(s) == "" <==> AllWhitespace(s)
  {
    var a := LeadingSpace(s);
    var t := s[a..];
    var n := TrailingSpace(t);
    if a < |s| {
      assert t[0] == s[a];
      assert n < |t|;
      assert Trim(s) == t[..|t| - n];
      assert Trim(s)[0] == s[a];
    }
  }

  /**
   * `s.split(sep)` for a one-character separator: the pieces between successive
   * occurrences of `sep`, empty pieces included; never an empty list.
   */
  function Split(s: string, sep: char): (r: seq<string>)
    ensures |r| >= 1
    ensures forall k :: 0 <= k < |r| ==> sep !in r[k]
    ensures Join(r, sep) == s
    decreases |s|
  {
    if |s| == 0 then [""]
    else
      var rest := Split(s[1..], sep);
      if s[0] == sep then [""] + rest
      else [[s[0]] + rest[0]] + rest[1..]
  }

  /** `parts.join(sep)`. */
  function Join(parts: seq<string>, sep: char): (s: string)
  {
    if |parts| == 0 then ""
    else if |parts| == 1 then parts[0]
    else parts[0] + [sep] + Join(parts[1..], sep)
  }

  /** Splitting undoes joining whenever no piece holds the separator: Split and Join are inverse. */
  lemma {:induction false} SplitJoin(parts: seq<string>, sep: char)
    requires |parts| >= 1
    requires forall k :: 0 <= k < |parts| ==> sep !in parts[k]
    ensures Split(Join(parts, sep), sep) == parts
    decreases parts
  {
    if |parts| > 1 {
      SplitJoin(parts[1..], sep);
      SplitAfterPiece(parts[0], sep, Join(parts[1..], sep));
    } else {
      SplitPiece(parts[0], sep);
    }
  }

  /** A piece free of the separator splits to itself. */
  lemma {:induction false} SplitPiece(p: string, sep: char)
    requires sep !in p
    ensures Split(p, sep) == [p]
    decreases |p|
  {
    if |p| > 0 {
      SplitPiece(p[1..], sep);
      assert [p[0]] + p[1..] == p;
    }
  }

  /** A separator-free piece followed by the separator becomes the first field. */
  lemma {:induction false} SplitAfterPiece(p: string, sep: char, rest: string)
    requires sep !in p
    ensures Split(p + [sep] + rest, sep) == [p] + Split(rest, sep)
    decreases |p|
  {
    var s := p + [sep] + rest;
    if |p| == 0 {
      assert s == [sep] + rest;
      assert s[1..] == rest;
    } else {
      SplitAfterPiece(p[1..], sep, rest);
      assert s[1..] == p[1..] + [sep] + rest;
      assert [p[0]] + p[1..] == p;
    }
  }

  /** The first field of a split is the longest separator-free prefix. */
  lemma {:induction false} FirstField(s: string, sep: char)
    ensures var f := Split(s, sep)[0];
      f <= s && sep !in f && (|f| == |s| || s[|f|] == sep)
    decreases |s|
  {
    if |s| > 0 {
      FirstField(s[1..], sep);
    }
  }
}
