/** The fragment of ICU regular expressions used by the transcript filter's bracket patterns:
    a concatenation of literal characters (matched case-insensitively) and lazy wildcards
    `.*?` (any run of characters that are not line terminators, shortest first).
    `MatchFrom` follows the backtracking order of the regex engine; `MatchesAt` is the
    declarative meaning of a pattern, and the lemmas below show the two agree. */
module ArtifactPattern {
  import opened Wrappers
  import Text

  datatype Element = Lit(c: char) | LazyAny

  type Pattern = seq<Element>

  /** A pattern that opens with a literal character (a bracket), so every match is non-empty. */
  datatype Bracketed = Bracketed(open: char, body: Pattern) {
    function Elements(): (p: Pattern)
      ensures StartsWithLiteral(p)
    {
      [Lit(open)] + body
    }
  }

  /** ICU's line terminators, which `.` does not match by default. */
  predicate IsLineTerminator(c: char) {
    ('\n' <= c <= '\r') || c == '\U{85}' || c == '\U{2028}' || c == '\U{2029}'
  }

  /** Case-insensitive equality of two characters (ASCII letters only). */
  predicate SameLetter(a: char, b: char) {
    Text.LowerChar(a) == Text.LowerChar(b)
  }

  /** The pattern that matches exactly the characters of `s`. */
  function Lits(s: string): (p: Pattern)
    ensures |p| == |s|
  {
    seq(|s|, i requires 0 <= i < |s| => Lit(s[i]))
  }

  /** Every match of such a pattern consumes at least one character. */
  predicate StartsWithLiteral(p: Pattern) {
    p != [] && p[0].Lit?
  }

  /** No line terminator in `s[i..k]`. */
  predicate NoLineBreak(s: string, i: nat, k: nat)
    requires i <= k <= |s|
  {
    forall j :: i <= j < k ==> !IsLineTerminator(s[j])
  }

  /** `s[i..e]` is a match of `p`. */
  ghost predicate MatchesAt(p: Pattern, s: string, i: nat, e: nat)
    requires i <= e <= |s|
    decreases |p|
  {
    if p == [] then i == e
    else match p[0]
      case Lit(c) => i < e && SameLetter(s[i], c) && MatchesAt(p[1..], s, i + 1, e)
      case LazyAny => exists k :: i <= k <= e && NoLineBreak(s, i, k) && MatchesAt(p[1..], s, k, e)
  }

  /** The end of the match the backtracking engine finds for `p` at position `i`, if any:
      a lazy wildcard first tries to match nothing and takes one more character only when the
      rest of the pattern fails. */
  function MatchFrom(p: Pattern, s: string, i: nat): (r: Option<nat>)
    requires i <= |s|
    ensures r.Some? ==> i <= r.value <= |s|
    ensures r.Some? && StartsWithLiteral(p) ==> i < r.value
    decreases |p|, |s| - i
  {
    if p == [] then Some(i)
    else match p[0]
      case Lit(c) =>
        if i < |s| && SameLetter(s[i], c) then MatchFrom(p[1..], s, i + 1) else None
      case LazyAny =>
        match MatchFrom(p[1..], s, i)
        case Some(e) => Some(e)
        case None => if i < |s| && !IsLineTerminator(s[i]) then MatchFrom(p, s, i + 1) else None
  }

  /** What the engine finds is a match. */
  lemma {:induction false} MatchFromSound(p: Pattern, s: string, i: nat)
    requires i <= |s|
    ensures MatchFrom(p, s, i).Some? ==> MatchesAt(p, s, i, MatchFrom(p, s, i).value)
    decreases |p|, |s| - i
  {
    if p != [] && MatchFrom(p, s, i).Some? {
      var e := MatchFrom(p, s, i).value;
      match p[0]
      case Lit(c) =>
        MatchFromSound(p[1..], s, i + 1);
      case LazyAny =>
        MatchFromSound(p[1..], s, i);
        if MatchFrom(p[1..], s, i).Some? {
          assert NoLineBreak(s, i, i) && MatchesAt(p[1..], s, i, e);
        } else {
          MatchFromSound(p, s, i + 1);
          var k :| i + 1 <= k <= e && NoLineBreak(s, i + 1, k) && MatchesAt(p[1..], s, k, e);
          assert NoLineBreak(s, i, k);
        }
    }
  }

  /** Whenever some match starts at `i`, the engine finds one there. */
  lemma {:induction false} MatchFromComplete(p: Pattern, s: string, i: nat, e: nat)
    requires i <= e <= |s|
    requires MatchesAt(p, s, i, e)
    ensures MatchFrom(p, s, i).Some?
    decreases |p|, |s| - i
  {
    if p != [] {
      match p[0]
      case Lit(c) =>
        MatchFromComplete(p[1..], s, i + 1, e);
      case LazyAny =>
        var k :| i <= k <= e && NoLineBreak(s, i, k) && MatchesAt(p[1..], s, k, e);
        if k == i {
          MatchFromComplete(p[1..], s, i, e);
        } else if MatchFrom(p[1..], s, i).None? {
          assert NoLineBreak(s, i + 1, k);
          assert MatchesAt(p, s, i + 1, e);
          MatchFromComplete(p, s, i + 1, e);
        }
    }
  }

  /** A successful search from `i0` ends no later than any match that starts at or after `i0`:
      the lazy wildcards make the engine's match the shortest one. */
  lemma {:induction false} MatchFromLeast(p: Pattern, s: string, i0: nat, i: nat, e: nat)
    requires i0 <= i <= e <= |s|
    requires MatchFrom(p, s, i0).Some?
    requires MatchesAt(p, s, i, e)
    ensures MatchFrom(p, s, i0).value <= e
    decreases |p|, |s| - i0
  {
    if p != [] {
      match p[0]
      case Lit(c) =>
        MatchFromLeast(p[1..], s, i0 + 1, i + 1, e);
      case LazyAny =>
        var k :| i <= k <= e && NoLineBreak(s, i, k) && MatchesAt(p[1..], s, k, e);
        if MatchFrom(p[1..], s, i0).Some? {
          MatchFromLeast(p[1..], s, i0, k, e);
        } else if i0 < i {
          MatchFromLeast(p, s, i0 + 1, i, e);
        } else {
          if k == i {
            MatchFromComplete(p[1..], s, i, e);
            assert false;
          }
          assert NoLineBreak(s, i + 1, k);
          assert MatchesAt(p, s, i + 1, e);
          MatchFromLeast(p, s, i0 + 1, i + 1, e);
        }
    }
  }

  /** Whenever `s[i..e]` matches, the engine finds a match at `i` that ends no later than `e`;
      with `MatchFromSound`, the engine's match is the shortest match starting at `i`. */
  lemma MatchFromShortest(p: Pattern, s: string, i: nat, e: nat)
    requires i <= e <= |s|
    requires MatchesAt(p, s, i, e)
    ensures MatchFrom(p, s, i).Some? && MatchFrom(p, s, i).value <= e
  {
    MatchFromComplete(p, s, i, e);
    MatchFromLeast(p, s, i, i, e);
  }

  /** The leftmost position at or after `start` where the engine finds a match, with its end. */
  function FindFrom(p: Pattern, s: string, start: nat): (r: Option<(nat, nat)>)
    requires start <= |s|
    ensures r.Some? ==> start <= r.value.0 <= |s| && MatchFrom(p, s, r.value.0) == Some(r.value.1)
    ensures r.Some? ==> forall j :: start <= j < r.value.0 ==> MatchFrom(p, s, j).None?
    ensures r.None? ==> forall j :: start <= j <= |s| ==> MatchFrom(p, s, j).None?
    decreases |s| - start
  {
    match MatchFrom(p, s, start)
    case Some(e) => Some((start, e))
    case None => if start == |s| then None else FindFrom(p, s, start + 1)
  }

  /** `replacingOccurrences(of: p, with: "")`: deletes the leftmost match, then continues the
      search after it, until no match is left. */
  function RemoveAll(p: Bracketed, s: string): (r: string)
    ensures |r| <= |s|
    decreases |s|
  {
    match FindFrom(p.Elements(), s, 0)
    case None => s
    case Some((b, e)) => s[..b] + RemoveAll(p, s[e..])
  }

  /** Text in which the pattern matches nowhere is left as it is. */
  lemma RemoveAllNoMatch(p: Bracketed, s: string)
    requires forall i, e :: 0 <= i <= e <= |s| ==> !MatchesAt(p.Elements(), s, i, e)
    ensures RemoveAll(p, s) == s
  {
    if FindFrom(p.Elements(), s, 0).Some? {
      var (b, e) := FindFrom(p.Elements(), s, 0).value;
      MatchFromSound(p.Elements(), s, b);
    }
  }

  /** When the leftmost match starts at `b` and the engine ends it at `e`, the text before `b`
      is kept, `s[b..e]` is dropped, and the search resumes at `e`. */
  lemma RemoveAllLeftmost(p: Bracketed, s: string, b: nat, e: nat)
    requires b <= |s| && MatchFrom(p.Elements(), s, b) == Some(e)
    requires forall j, k :: 0 <= j < b && j <= k <= |s| ==> !MatchesAt(p.Elements(), s, j, k)
    ensures b < e && RemoveAll(p, s) == s[..b] + RemoveAll(p, s[e..])
  {
    var r := FindFrom(p.Elements(), s, 0);
    assert r.Some?;
    MatchFromSound(p.Elements(), s, r.value.0);
  }

  /** A pattern with a literal that equals no character of `s` (ignoring case) matches nowhere. */
  lemma {:induction false} AbsentLiteralNeverMatches(p: Pattern, s: string, c: char, i: nat)
    requires i <= |s|
    requires Lit(c) in p
    requires forall j :: 0 <= j < |s| ==> !SameLetter(s[j], c)
    ensures MatchFrom(p, s, i).None?
    decreases |p|, |s| - i
  {
    match p[0]
    case Lit(d) =>
      if d != c {
        assert Lit(c) in p[1..];
        if i < |s| && SameLetter(s[i], d) {
          AbsentLiteralNeverMatches(p[1..], s, c, i + 1);
        }
      }
    case LazyAny =>
      assert Lit(c) in p[1..];
      AbsentLiteralNeverMatches(p[1..], s, c, i);
      if i < |s| && !IsLineTerminator(s[i]) {
        AbsentLiteralNeverMatches(p, s, c, i + 1);
      }
  }

  /** Removing a pattern with such a literal leaves the text unchanged. */
  lemma RemoveAllAbsent(p: Bracketed, s: string, c: char)
    requires Lit(c) in p.Elements()
    requires forall j :: 0 <= j < |s| ==> !SameLetter(s[j], c)
    ensures RemoveAll(p, s) == s
  {
    if FindFrom(p.Elements(), s, 0).Some? {
      AbsentLiteralNeverMatches(p.Elements(), s, c, FindFrom(p.Elements(), s, 0).value.0);
    }
  }
}
