/** The narrative built from a session's responses: each response is trimmed, blank ones are
    dropped, terminal punctuation is stripped from both ends of the rest, and the results are
    joined with ". " and closed with a full stop. */
module NarrativeGeneration {
  import opened Text

  /** The text returned when there is nothing to narrate. */
  const NoResponsesMessage := "No responses provided."

  /** What goes between two formatted responses. */
  const SentenceSeparator := ". "

  /** The characters of `CharacterSet(charactersIn: ".!?")`. */
  predicate IsTerminalPunctuation(c: char) {
    c == '.' || c == '!' || c == '?'
  }

  predicate AllPunctuation(s: string) {
    forall i :: 0 <= i < |s| ==> IsTerminalPunctuation(s[i])
  }

  /** Removes leading terminal punctuation. */
  function StripStart(s: string): (r: string)
    ensures |r| <= |s| && r == s[|s| - |r|..]
    ensures AllPunctuation(s[..|s| - |r|])
    ensures r == [] || !IsTerminalPunctuation(r[0])
  {
    if s != [] && IsTerminalPunctuation(s[0]) then
      var r := StripStart(s[1..]);
      assert s[..|s| - |r|] == [s[0]] + s[1..][..|s[1..]| - |r|];
      r
    else
      s
  }

  /** Removes trailing terminal punctuation. */
  function StripEnd(s: string): (r: string)
    ensures |r| <= |s| && r == s[..|r|]
    ensures AllPunctuation(s[|r|..])
    ensures r == [] || !IsTerminalPunctuation(r[|r| - 1])
  {
    if s != [] && IsTerminalPunctuation(s[|s| - 1]) then
      var r := StripEnd(s[..|s| - 1]);
      assert s[|r|..] == s[..|s| - 1][|r|..] + [s[|s| - 1]];
      r
    else
      s
  }

  /** The number of terminal punctuation characters at the start of `s`. */
  function LeadingPunctuation(s: string): (n: nat)
    ensures n <= |s|
    ensures forall k :: 0 <= k < n ==> IsTerminalPunctuation(s[k])
    ensures n < |s| ==> !IsTerminalPunctuation(s[n])
  {
    var t := StripStart(s);
    assert forall k :: 0 <= k < |s| - |t| ==> s[k] == s[..|s| - |t|][k];
    |s| - |t|
  }

  /** `trimmingCharacters(in: CharacterSet(charactersIn: ".!?"))`: the text between the first
      and the last character that is not terminal punctuation; empty exactly when the text is
      all punctuation. */
  function StripPunctuation(s: string): (r: string)
    ensures r == [] || (!IsTerminalPunctuation(r[0]) && !IsTerminalPunctuation(r[|r| - 1]))
    ensures r == [] <==> AllPunctuation(s)
    ensures |r| <= |s|
  {
    var t := StripStart(s);
    var r := StripEnd(t);
    StripEmptyWhenPunctuation(s, t, r);
    r
  }

  /** The stripped text is the infix of `s` that starts right after the leading terminal
      punctuation and is followed only by terminal punctuation. */
  lemma StripInfix(s: string)
    ensures LeadingPunctuation(s) + |StripPunctuation(s)| <= |s|
    ensures forall k :: 0 <= k < |StripPunctuation(s)| ==>
      StripPunctuation(s)[k] == s[LeadingPunctuation(s) + k]
    ensures forall k :: LeadingPunctuation(s) + |StripPunctuation(s)| <= k < |s| ==>
      IsTerminalPunctuation(s[k])
  {
    var t := StripStart(s);
    var r := StripEnd(t);
    assert StripPunctuation(s) == r;
    assert LeadingPunctuation(s) == |s| - |t|;
    StripPosition(s, t, r);
  }

  /** Where the stripped text sits in `s`. */
  lemma StripPosition(s: string, t: string, r: string)
    requires |t| <= |s| && t == s[|s| - |t|..]
    requires |r| <= |t| && r == t[..|r|] && AllPunctuation(t[|r|..])
    ensures |s| - |t| + |r| <= |s|
    ensures forall k :: 0 <= k < |r| ==> r[k] == s[|s| - |t| + k]
    ensures forall k :: |s| - |t| + |r| <= k < |s| ==> IsTerminalPunctuation(s[k])
  {
    var a := |s| - |t|;
    forall k | a + |r| <= k < |s|
      ensures IsTerminalPunctuation(s[k])
    {
      assert s[k] == t[|r|..][k - a - |r|];
    }
  }

  /** Stripping both ends leaves nothing exactly when the text is all punctuation. */
  lemma StripEmptyWhenPunctuation(s: string, t: string, r: string)
    requires |t| <= |s| && t == s[|s| - |t|..] && AllPunctuation(s[..|s| - |t|])
    requires t == [] || !IsTerminalPunctuation(t[0])
    requires |r| <= |t| && r == t[..|r|] && AllPunctuation(t[|r|..])
    ensures r == [] <==> AllPunctuation(s)
  {
    var a := |s| - |t|;
    if r == [] {
      assert s == s[..a] + t;
      assert t == t[|r|..];
    } else {
      assert s[a] == t[0] == r[0];
    }
  }

  /** The per-response formatting: the response without its terminal punctuation, or the
      response itself when it is nothing but punctuation. */
  function FormatResponse(response: string): (f: string)
    ensures AllPunctuation(response) ==> f == response
    ensures !AllPunctuation(response) ==>
      f != [] && !IsTerminalPunctuation(f[0]) && !IsTerminalPunctuation(f[|f| - 1])
    ensures |f| <= |response|
  {
    var stripped := StripPunctuation(response);
    if stripped == [] then response else stripped
  }

  /** A response that is not all punctuation is formatted to the infix that follows its
      leading terminal punctuation and is followed only by terminal punctuation. */
  lemma FormatResponseInfix(response: string)
    requires !AllPunctuation(response)
    ensures LeadingPunctuation(response) + |FormatResponse(response)| <= |response|
    ensures forall k :: 0 <= k < |FormatResponse(response)| ==>
      FormatResponse(response)[k] == response[LeadingPunctuation(response) + k]
    ensures forall k :: LeadingPunctuation(response) + |FormatResponse(response)| <= k < |response| ==>
      IsTerminalPunctuation(response[k])
  {
    StripInfix(response);
  }

  /** Non-empty, with no white space at either end. */
  predicate IsTrimmedText(s: string) {
    s != [] && !IsWhitespace(s[0]) && !IsWhitespace(s[|s| - 1])
  }

  lemma PrependTrimmed(t: string, rest: seq<string>)
    requires IsTrimmedText(t)
    requires forall k :: 0 <= k < |rest| ==> IsTrimmedText(rest[k])
    ensures forall k :: 0 <= k < |[t] + rest| ==> IsTrimmedText(([t] + rest)[k])
  {
    forall k | 0 <= k < |[t] + rest|
      ensures IsTrimmedText(([t] + rest)[k])
    {
      if k > 0 {
        assert ([t] + rest)[k] == rest[k - 1];
      }
    }
  }

  /** `map { trimmingCharacters(in: .whitespacesAndNewlines) }.filter { !$0.isEmpty }`. */
  function Cleaned(rs: seq<string>): (c: seq<string>)
    ensures |c| <= |rs|
    ensures c == [] <==> AllBlank(rs)
  {
    if rs == [] then []
    else
      AllBlankUncons(rs);
      var t := Trim(rs[0]);
      var rest := Cleaned(rs[1..]);
      if t == [] then rest else [t] + rest
  }

  /** Every cleaned entry is non-empty and has no white space at either end. */
  lemma {:induction false} CleanedEntriesTrimmed(rs: seq<string>)
    ensures forall k :: 0 <= k < |Cleaned(rs)| ==> IsTrimmedText(Cleaned(rs)[k])
  {
    if rs != [] {
      CleanedEntriesTrimmed(rs[1..]);
      var t := Trim(rs[0]);
      if t != [] {
        PrependTrimmed(t, Cleaned(rs[1..]));
      }
    }
  }

  /** `map` of the formatting over the cleaned responses. */
  function FormatAll(c: seq<string>): (f: seq<string>)
    ensures |f| == |c|
    ensures forall k :: 0 <= k < |c| ==> f[k] == FormatResponse(c[k])
  {
    seq(|c|, k requires 0 <= k < |c| => FormatResponse(c[k]))
  }

  /** The total length of the parts. */
  function TotalLength(parts: seq<string>): nat {
    if parts == [] then 0 else |parts[0]| + TotalLength(parts[1..])
  }

  /** `joined(separator:)`: the parts in order with the separator between neighbours, so one
      separator fewer than there are parts. */
  function Join(parts: seq<string>, sep: string): (r: string)
    ensures parts == [] ==> r == []
    ensures parts != [] ==> |r| == TotalLength(parts) + (|parts| - 1) * |sep|
  {
    if parts == [] then []
    else if |parts| == 1 then parts[0]
    else parts[0] + sep + Join(parts[1..], sep)
  }

  /** A join begins with its first part. */
  lemma JoinStartsWithFirst(parts: seq<string>, sep: string)
    requires parts != []
    ensures parts[0] <= Join(parts, sep)
  {
    if |parts| > 1 {
      var rest := Join(parts[1..], sep);
      assert (parts[0] + sep + rest)[..|parts[0]|] == parts[0];
    }
  }

  /** A join ends with its last part. */
  lemma {:induction false} JoinEndsWithLast(parts: seq<string>, sep: string)
    requires parts != []
    ensures var r, last := Join(parts, sep), parts[|parts| - 1];
      |last| <= |r| && r[|r| - |last|..] == last
  {
    if |parts| > 1 {
      JoinEndsWithLast(parts[1..], sep);
      var rest := Join(parts[1..], sep);
      var r := parts[0] + sep + rest;
      var last := parts[|parts| - 1];
      assert last == parts[1..][|parts[1..]| - 1];
      assert r[|r| - |rest|..] == rest;
      assert r[|r| - |last|..] == rest[|rest| - |last|..];
    }
  }

  /** `concatenateResponses`. */
  function ConcatenateResponses(rs: seq<string>): (r: string)
    ensures r != [] && r[|r| - 1] == '.'
    ensures AllBlank(rs) ==> r == NoResponsesMessage
  {
    var cleaned := Cleaned(rs);
    if cleaned == [] then NoResponsesMessage
    else Join(FormatAll(cleaned), SentenceSeparator) + "."
  }

  /** `generateNarrative(responses:)`: the message for an empty list, the concatenation
      otherwise. */
  function GenerateNarrative(rs: seq<string>): (r: string)
    ensures r == ConcatenateResponses(rs)
  {
    if rs == [] then NoResponsesMessage else ConcatenateResponses(rs)
  }

  /** Cleaning distributes over concatenation of response lists: blank responses vanish
      wherever they are and the others keep their relative order. */
  lemma {:induction false} CleanedAppend(a: seq<string>, b: seq<string>)
    ensures Cleaned(a + b) == Cleaned(a) + Cleaned(b)
  {
    if a == [] {
      assert a + b == b;
    } else {
      assert (a + b)[0] == a[0];
      assert (a + b)[1..] == a[1..] + b;
      CleanedAppend(a[1..], b);
    }
  }

  /** Every cleaned entry is the trim of some non-blank response, and every non-blank
      response contributes its trim. */
  lemma {:induction false} CleanedMembers(rs: seq<string>, x: string)
    ensures x in Cleaned(rs) <==> x != [] && exists i :: 0 <= i < |rs| && Trim(rs[i]) == x
  {
    if rs != [] {
      CleanedMembers(rs[1..], x);
      if exists i :: 0 <= i < |rs| && Trim(rs[i]) == x {
        var i :| 0 <= i < |rs| && Trim(rs[i]) == x;
        if i > 0 {
          assert rs[1..][i - 1] == rs[i];
        }
      }
      if exists j :: 0 <= j < |rs[1..]| && Trim(rs[1..][j]) == x {
        var j :| 0 <= j < |rs[1..]| && Trim(rs[1..][j]) == x;
        assert Trim(rs[j + 1]) == x;
      }
    }
  }

  lemma FormatAllAppend(a: seq<string>, b: seq<string>)
    ensures FormatAll(a + b) == FormatAll(a) + FormatAll(b)
  {
  }

  /** Joining two non-empty lists puts the separator between their joins. */
  lemma {:induction false} JoinAppend(a: seq<string>, b: seq<string>, sep: string)
    requires a != [] && b != []
    ensures Join(a + b, sep) == Join(a, sep) + sep + Join(b, sep)
  {
    var ab := a + b;
    assert ab[0] == a[0];
    if |a| == 1 {
      assert ab[1..] == b;
    } else {
      assert ab[1..] == a[1..] + b;
      JoinAppend(a[1..], b, sep);
      var ja, jb := Join(a[1..], sep), Join(b, sep);
      assert a[0] + sep + (ja + sep + jb) == (a[0] + sep + ja) + sep + jb;
    }
  }

  /** A blank response anywhere in the list leaves the narrative as it would be without it. */
  lemma BlankResponseIgnored(a: seq<string>, x: string, b: seq<string>)
    requires Trim(x) == []
    ensures ConcatenateResponses(a + [x] + b) == ConcatenateResponses(a + b)
  {
    CleanedAppend(a + [x], b);
    CleanedAppend(a, [x]);
    CleanedAppend(a, b);
    assert Cleaned([x]) == [];
    assert Cleaned(a + [x]) == Cleaned(a);
  }

  /** The narrative of two lists that each have something to say is the first narrative, a
      space, then the second: the full stop of the first becomes the sentence separator. */
  lemma NarrativeAppend(a: seq<string>, b: seq<string>)
    requires Cleaned(a) != [] && Cleaned(b) != []
    ensures ConcatenateResponses(a + b) == ConcatenateResponses(a) + " " + ConcatenateResponses(b)
  {
    var ca, cb := Cleaned(a), Cleaned(b);
    CleanedAppend(a, b);
    var fa, fb := FormatAll(ca), FormatAll(cb);
    FormatAllAppend(ca, cb);
    JoinAppend(fa, fb, SentenceSeparator);
    var ja, jb := Join(fa, SentenceSeparator), Join(fb, SentenceSeparator);
    ConcatenateWithText(a);
    ConcatenateWithText(b);
    ConcatenateWithText(a + b);
    assert Join(fa + fb, SentenceSeparator) == ja + SentenceSeparator + jb;
    SeparatorFromFullStop(ja, jb);
  }

  lemma ConcatenateWithText(rs: seq<string>)
    requires Cleaned(rs) != []
    ensures ConcatenateResponses(rs) == Join(FormatAll(Cleaned(rs)), SentenceSeparator) + "."
  {
  }

  lemma SeparatorFromFullStop(x: string, y: string)
    ensures x + SentenceSeparator + y + "." == (x + ".") + " " + (y + ".")
  {
    var l, r := x + SentenceSeparator + y + ".", (x + ".") + " " + (y + ".");
    assert |l| == |r|;
    forall k | 0 <= k < |l|
      ensures l[k] == r[k]
    {
    }
  }

  /** One non-blank response gives its formatted trim and a full stop. */
  lemma NarrativeOfOne(r: string)
    requires Trim(r) != []
    ensures ConcatenateResponses([r]) == FormatResponse(Trim(r)) + "."
  {
    assert [r][1..] == [];
    assert Cleaned([r]) == [Trim(r)];
  }

  /** The narrative opens with the first non-blank response, formatted. */
  lemma NarrativeStartsWithFirstAnswer(rs: seq<string>, i: int)
    requires 0 <= i < |rs| && Trim(rs[i]) != []
    requires forall j :: 0 <= j < i ==> Trim(rs[j]) == []
    ensures FormatResponse(Trim(rs[i])) <= ConcatenateResponses(rs)
  {
    FirstCleaned(rs, i);
    ConcatenateWithText(rs);
    var parts := FormatAll(Cleaned(rs));
    assert parts[0] == FormatResponse(Trim(rs[i]));
    JoinStartsWithFirst(parts, SentenceSeparator);
    var j := Join(parts, SentenceSeparator);
    assert j <= j + ".";
  }

  /** The first cleaned entry is the trim of the first non-blank response. */
  lemma {:induction false} FirstCleaned(rs: seq<string>, i: int)
    requires 0 <= i < |rs| && Trim(rs[i]) != []
    requires forall j :: 0 <= j < i ==> Trim(rs[j]) == []
    ensures Cleaned(rs) != [] && Cleaned(rs)[0] == Trim(rs[i])
  {
    if i > 0 {
      var tail := rs[1..];
      CleanedSkipsBlank(rs);
      assert tail[i - 1] == rs[i];
      forall j | 0 <= j < i - 1
        ensures Trim(tail[j]) == []
      {
        assert tail[j] == rs[j + 1];
      }
      FirstCleaned(tail, i - 1);
    }
  }

  /** A leading response that trims to nothing contributes nothing. */
  lemma CleanedSkipsBlank(rs: seq<string>)
    requires rs != [] && Trim(rs[0]) == []
    ensures Cleaned(rs) == Cleaned(rs[1..])
  {
  }

  /** The fallback message is also what a single response reading exactly that message gives,
      so the output alone does not tell the two apart. */
  lemma FallbackIsAmbiguous()
    ensures ConcatenateResponses([NoResponsesMessage]) == NoResponsesMessage
  {
    var m := NoResponsesMessage;
    TrimOfTrimmed(m);
    NarrativeOfOne(m);
    FallbackWithoutFullStop();
  }

  lemma FallbackWithoutFullStop()
    ensures FormatResponse(NoResponsesMessage) + "." == NoResponsesMessage
  {
    var m := NoResponsesMessage;
    var body := m[..|m| - 1];
    assert m[0] == 'N' && m[|m| - 1] == '.' && body[|body| - 1] == 'd';
    assert StripStart(m) == m;
    assert StripEnd(m) == StripEnd(body);
    assert StripEnd(body) == body;
    assert body + "." == m;
  }

  /** A response made only of terminal punctuation is kept whole, so its last mark is
      followed by the closing full stop ("?" gives "?."). */
  lemma PunctuationOnlyResponse(r: string)
    requires r != [] && AllPunctuation(r)
    ensures ConcatenateResponses([r]) == r + "."
  {
    assert IsTerminalPunctuation(r[0]) && IsTerminalPunctuation(r[|r| - 1]);
    TrimOfTrimmed(r);
    NarrativeOfOne(r);
  }
}
