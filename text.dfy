/** Character classes and string operations shared by the filter, the session and the narrative.
    Strings are sequences of Unicode scalar values; Swift's grapheme clusters are not modelled. */
module Text {

  /** The Unicode White_Space characters. Foundation's `.whitespacesAndNewlines` and the regular
      expression class `\s` are both taken to be this set. */
  predicate IsWhitespace(c: char) {
    ('\t' <= c <= '\r') || c == ' ' || c == '\U{85}' || c == '\U{A0}' || c == '\U{1680}'
    || ('\U{2000}' <= c <= '\U{200A}') || c == '\U{2028}' || c == '\U{2029}'
    || c == '\U{202F}' || c == '\U{205F}' || c == '\U{3000}'
  }

  /** Every character of `s` is white space (an empty string is blank). */
  predicate IsBlank(s: string) {
    forall i :: 0 <= i < |s| ==> IsWhitespace(s[i])
  }

  /** Every string of the list is blank. */
  predicate AllBlank(rs: seq<string>) {
    forall i :: 0 <= i < |rs| ==> IsBlank(rs[i])
  }

  /** No string of the list is blank. */
  predicate NoneBlank(rs: seq<string>) {
    forall i :: 0 <= i < |rs| ==> !IsBlank(rs[i])
  }

  lemma AllBlankUncons(rs: seq<string>)
    requires rs != []
    ensures AllBlank(rs) <==> IsBlank(rs[0]) && AllBlank(rs[1..])
  {
    var tail := rs[1..];
    if AllBlank(rs) {
      forall j | 0 <= j < |tail|
        ensures IsBlank(tail[j])
      {
        assert tail[j] == rs[j + 1];
      }
    }
    if IsBlank(rs[0]) && AllBlank(tail) {
      forall i | 0 <= i < |rs|
        ensures IsBlank(rs[i])
      {
        if i > 0 {
          assert rs[i] == tail[i - 1];
        }
      }
    }
  }

  lemma NoneBlankUncons(rs: seq<string>)
    requires rs != []
    ensures NoneBlank(rs) <==> !IsBlank(rs[0]) && NoneBlank(rs[1..])
  {
    var tail := rs[1..];
    if NoneBlank(rs) {
      forall j | 0 <= j < |tail|
        ensures !IsBlank(tail[j])
      {
        assert tail[j] == rs[j + 1];
      }
    }
    if !IsBlank(rs[0]) && NoneBlank(tail) {
      forall i | 0 <= i < |rs|
        ensures !IsBlank(rs[i])
      {
        if i > 0 {
          assert rs[i] == tail[i - 1];
        }
      }
    }
  }

  /** Removes leading white space. */
  function TrimStart(s: string): (r: string)
    ensures |r| <= |s| && r == s[|s| - |r|..]
    ensures IsBlank(s[..|s| - |r|])
    ensures r == [] || !IsWhitespace(r[0])
  {
    if s != [] && IsWhitespace(s[0]) then
      var r := TrimStart(s[1..]);
      assert s[..|s| - |r|] == [s[0]] + s[1..][..|s[1..]| - |r|];
      r
    else
      s
  }

  /** Removes trailing white space. */
  function TrimEnd(s: string): (r: string)
    ensures |r| <= |s| && r == s[..|r|]
    ensures IsBlank(s[|r|..])
    ensures r == [] || !IsWhitespace(r[|r| - 1])
  {
    if s != [] && IsWhitespace(s[|s| - 1]) then
      var r := TrimEnd(s[..|s| - 1]);
      assert s[|r|..] == s[..|s| - 1][|r|..] + [s[|s| - 1]];
      r
    else
      s
  }

  /** The number of white-space characters at the start of `s`. */
  function LeadingBlanks(s: string): (n: nat)
    ensures n <= |s|
    ensures forall k :: 0 <= k < n ==> IsWhitespace(s[k])
    ensures n < |s| ==> !IsWhitespace(s[n])
  {
    var t := TrimStart(s);
    assert forall k :: 0 <= k < |s| - |t| ==> s[k] == s[..|s| - |t|][k];
    |s| - |t|
  }

  /** Swift's `trimmingCharacters(in: .whitespacesAndNewlines)`: the text between the first
      and the last non-white-space character; empty exactly when the text is blank. */
  function Trim(s: string): (r: string)
    ensures r == [] || (!IsWhitespace(r[0]) && !IsWhitespace(r[|r| - 1]))
    ensures r == [] <==> IsBlank(s)
  {
    var t := TrimStart(s);
    var r := TrimEnd(t);
    TrimEmptyWhenBlank(s, t, r);
    r
  }

  /** The trim of `s` is the infix of `s` that starts right after the leading white space and
      is followed only by white space. */
  lemma TrimInfix(s: string)
    ensures LeadingBlanks(s) + |Trim(s)| <= |s|
    ensures forall k :: 0 <= k < |Trim(s)| ==> Trim(s)[k] == s[LeadingBlanks(s) + k]
    ensures forall k :: LeadingBlanks(s) + |Trim(s)| <= k < |s| ==> IsWhitespace(s[k])
  {
    var t := TrimStart(s);
    var r := TrimEnd(t);
    assert Trim(s) == r;
    assert LeadingBlanks(s) == |s| - |t|;
    TrimPosition(s, t, r);
  }

  /** Where the trim of `s` sits in `s`. */
  lemma TrimPosition(s: string, t: string, r: string)
    requires |t| <= |s| && t == s[|s| - |t|..]
    requires |r| <= |t| && r == t[..|r|] && IsBlank(t[|r|..])
    ensures |s| - |t| + |r| <= |s|
    ensures forall k :: 0 <= k < |r| ==> r[k] == s[|s| - |t| + k]
    ensures forall k :: |s| - |t| + |r| <= k < |s| ==> IsWhitespace(s[k])
  {
    var a := |s| - |t|;
    forall k | a + |r| <= k < |s|
      ensures IsWhitespace(s[k])
    {
      assert s[k] == t[|r|..][k - a - |r|];
    }
  }

  /** Trimming both ends leaves nothing exactly when the text is blank. */
  lemma TrimEmptyWhenBlank(s: string, t: string, r: string)
    requires |t| <= |s| && t == s[|s| - |t|..] && IsBlank(s[..|s| - |t|])
    requires t == [] || !IsWhitespace(t[0])
    requires |r| <= |t| && r == t[..|r|] && IsBlank(t[|r|..])
    ensures r == [] <==> IsBlank(s)
  {
    var a := |s| - |t|;
    if r == [] {
      assert s == s[..a] + t;
      assert t == t[|r|..];
    } else {
      assert s[a] == t[0] == r[0];
    }
  }

  /** A string without white space at either end is its own trim. */
  lemma TrimOfTrimmed(s: string)
    requires s == [] || (!IsWhitespace(s[0]) && !IsWhitespace(s[|s| - 1]))
    ensures Trim(s) == s
  {
    assert TrimStart(s) == s;
    assert TrimEnd(s) == s;
  }

  /** Trimming an already trimmed string changes nothing. */
  lemma TrimIdempotent(s: string)
    ensures Trim(Trim(s)) == Trim(s)
  {
    TrimOfTrimmed(Trim(s));
  }

  /** ASCII upper-case letters map to lower case; every other character is kept. */
  function LowerChar(c: char): (d: char)
    ensures !('A' <= d <= 'Z')
  {
    if 'A' <= c <= 'Z' then (c as int + 32) as char else c
  }

  /** `lowercased()` restricted to ASCII letters: no capital is left, each capital becomes its
      small letter, and every other character is kept. */
  function Lower(s: string): (r: string)
    ensures |r| == |s|
    ensures forall i :: 0 <= i < |r| ==> !('A' <= r[i] <= 'Z')
    ensures forall i :: 0 <= i < |s| && 'A' <= s[i] <= 'Z' ==> r[i] as int == s[i] as int + 32
    ensures forall i :: 0 <= i < |s| && !('A' <= s[i] <= 'Z') ==> r[i] == s[i]
  {
    seq(|s|, i requires 0 <= i < |s| => LowerChar(s[i]))
  }
}
