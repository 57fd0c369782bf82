/** `filterInaudibleContent` of the speech service: removes transcription artefacts from the
    engine's raw text. */
module TranscriptFilter {
  import opened Wrappers
  import opened Text
  import opened ArtifactPattern

  /** Whole transcripts that mean "nothing was said" (compared after trimming and lower-casing). */
  const ExactInaudiblePatterns: seq<string> := [
    "[blank_audio]", "(inaudible)", "inaudible", "[music]", "[background noise]", "(music)",
    "(background noise)", "[music playing]", "(music playing)", "music playing",
    "um", "uh", "hmm", "...", ".", " ", ""
  ]

  /** The bracketed annotations removed anywhere in the text, in the order they are applied. */
  const MusicSquare := Bracketed('[', Lits("music") + [LazyAny, Lit(']')])
  const PlayingSquare := Bracketed('[', [LazyAny] + Lits("playing") + [LazyAny, Lit(']')])
  const BackgroundSquare := Bracketed('[', Lits("background") + [LazyAny, Lit(']')])
  const NoiseSquare := Bracketed('[', Lits("noise") + [LazyAny, Lit(']')])
  const InaudibleSquare := Bracketed('[', [LazyAny] + Lits("inaudible") + [LazyAny, Lit(']')])
  const MusicRound := Bracketed('(', Lits("music") + [LazyAny, Lit(')')])
  const PlayingRound := Bracketed('(', [LazyAny] + Lits("playing") + [LazyAny, Lit(')')])
  const BackgroundRound := Bracketed('(', Lits("background") + [LazyAny, Lit(')')])
  const NoiseRound := Bracketed('(', Lits("noise") + [LazyAny, Lit(')')])
  const SniffingRound := Bracketed('(', Lits("sniffing)"))
  const CoughingRound := Bracketed('(', Lits("coughing)"))
  const ClearingThroatRound := Bracketed('(', Lits("clearing throat)"))
  const SighsRound := Bracketed('(', Lits("sighs)"))
  const BreathingRound := Bracketed('(', Lits("breathing)"))
  const AnyIngRound := Bracketed('(', [LazyAny] + Lits("ing)"))
  const SniffingSquare := Bracketed('[', Lits("sniffing]"))
  const CoughingSquare := Bracketed('[', Lits("coughing]"))
  const BreathingSquare := Bracketed('[', Lits("breathing]"))

  /** The bracketed annotations removed anywhere in the text, in the order they are applied
      (`\[music.*?\]`, `\[.*?playing.*?\]`, ..., `\[breathing\]`). */
  const BracketPatterns: seq<Bracketed> := [
    MusicSquare, PlayingSquare, BackgroundSquare, NoiseSquare, InaudibleSquare,
    MusicRound, PlayingRound, BackgroundRound, NoiseRound,
    SniffingRound, CoughingRound, ClearingThroatRound, SighsRound, BreathingRound,
    AnyIngRound, SniffingSquare, CoughingSquare, BreathingSquare
  ]

  /** Results shorter than this are treated as noise. */
  const MinMeaningfulLength := 3

  /** Applies `RemoveAll` for each pattern in turn, each to the output of the previous one. */
  function RemoveArtifacts(s: string, patterns: seq<Bracketed>): (r: string)
    ensures |r| <= |s|
    decreases |patterns|
  {
    if patterns == [] then s else RemoveArtifacts(RemoveAll(patterns[0], s), patterns[1..])
  }

  /** The characters of `s` that are not white space, in order. */
  function NonWhitespace(s: string): string {
    if s == [] then []
    else if IsWhitespace(s[0]) then NonWhitespace(s[1..])
    else [s[0]] + NonWhitespace(s[1..])
  }

  /** Every white-space character is a space and no two of them are adjacent. */
  predicate SingleSpaced(r: string) {
    (forall i :: 0 <= i < |r| && IsWhitespace(r[i]) ==> r[i] == ' ')
    && (forall i :: 0 <= i < |r| - 1 ==> !(IsWhitespace(r[i]) && IsWhitespace(r[i + 1])))
  }

  /** Text whose only white space is single spaces between other characters. */
  predicate IsNormalized(r: string) {
    (r == [] || (!IsWhitespace(r[0]) && !IsWhitespace(r[|r| - 1]))) && SingleSpaced(r)
  }

  lemma SingleSpacedTail(s: string)
    requires s != [] && SingleSpaced(s)
    ensures SingleSpaced(s[1..])
  {
    var t := s[1..];
    forall i | 0 <= i < |t| - 1
      ensures !(IsWhitespace(t[i]) && IsWhitespace(t[i + 1]))
    {
      assert t[i] == s[i + 1] && t[i + 1] == s[i + 2];
    }
  }

  /** The characters of `a + b` that are not white space are those of `a`, then those of `b`. */
  lemma {:induction false} NonWhitespaceAppend(a: string, b: string)
    ensures NonWhitespace(a + b) == NonWhitespace(a) + NonWhitespace(b)
  {
    if a == [] {
      assert a + b == b;
    } else {
      assert (a + b)[1..] == a[1..] + b;
      NonWhitespaceAppend(a[1..], b);
    }
  }

  lemma {:induction false} NonWhitespaceBlank(s: string)
    requires IsBlank(s)
    ensures NonWhitespace(s) == []
  {
    if s != [] {
      NonWhitespaceBlank(s[1..]);
    }
  }

  /** Dropping trailing white space keeps every other character. */
  lemma NonWhitespaceTrimEnd(s: string)
    ensures NonWhitespace(TrimEnd(s)) == NonWhitespace(s)
  {
    var r := TrimEnd(s);
    assert s == r + s[|r|..];
    NonWhitespaceAppend(r, s[|r|..]);
    NonWhitespaceBlank(s[|r|..]);
  }

  /** Trimming keeps every character that is not white space. */
  lemma NonWhitespaceTrim(s: string)
    ensures NonWhitespace(Trim(s)) == NonWhitespace(s)
  {
    var t := TrimStart(s);
    assert Trim(s) == TrimEnd(t);
    NonWhitespaceTrimStart(s);
    NonWhitespaceTrimEnd(t);
  }

  /** Dropping leading white space keeps every other character. */
  lemma {:induction false} NonWhitespaceTrimStart(s: string)
    ensures NonWhitespace(TrimStart(s)) == NonWhitespace(s)
  {
    if s != [] && IsWhitespace(s[0]) {
      NonWhitespaceTrimStart(s[1..]);
    }
  }

  /** `replacingOccurrences(of: "\\s+", with: " ")`: each maximal run of white space becomes
      one space. */
  function CollapseWhitespace(s: string): (r: string)
    ensures r == [] <==> s == []
    ensures s != [] ==> (IsWhitespace(r[0]) <==> IsWhitespace(s[0]))
    ensures s != [] && !IsWhitespace(s[|s| - 1]) ==> r[|r| - 1] == s[|s| - 1]
    decreases |s|
  {
    if s == [] then []
    else if IsWhitespace(s[0]) then
      var t := TrimStart(s[1..]);
      var rest := CollapseWhitespace(t);
      TrimStartTailKeepsLast(s);
      [' '] + rest
    else
      [s[0]] + CollapseWhitespace(s[1..])
  }

  /** Dropping the first character and then leading white space keeps a last character that
      is not white space. */
  lemma TrimStartTailKeepsLast(s: string)
    requires s != [] && IsWhitespace(s[0])
    ensures !IsWhitespace(s[|s| - 1]) ==> TrimStart(s[1..]) != []
    ensures !IsWhitespace(s[|s| - 1]) ==> TrimStart(s[1..])[|TrimStart(s[1..])| - 1] == s[|s| - 1]
  {
    if !IsWhitespace(s[|s| - 1]) {
      var u := s[1..];
      assert u[|u| - 1] == s[|s| - 1];
      var t := TrimStart(u);
      assert t != [];
      assert t[|t| - 1] == u[|u| - 1];
    }
  }

  /** Leading white space of a text that is not blank is unaffected by what follows it. */
  lemma {:induction false} TrimStartAppend(a: string, b: string)
    requires !IsBlank(a)
    ensures TrimStart(a + b) == TrimStart(a) + b
  {
    assert (a + b)[1..] == a[1..] + b;
    if IsWhitespace(a[0]) {
      TrimStartAppend(a[1..], b);
    }
  }

  /** Blank text followed by text that starts with no white space trims to the latter. */
  lemma {:induction false} TrimStartBlank(w: string, b: string)
    requires IsBlank(w)
    requires b == [] || !IsWhitespace(b[0])
    ensures TrimStart(w + b) == b
  {
    if w == [] {
      assert w + b == b;
    } else {
      assert (w + b)[1..] == w[1..] + b;
      TrimStartBlank(w[1..], b);
    }
  }

  /** Collapsing distributes over a split just after a character that is not white space. */
  lemma {:induction false} CollapseAppend(a: string, b: string)
    requires a == [] || !IsWhitespace(a[|a| - 1])
    ensures CollapseWhitespace(a + b) == CollapseWhitespace(a) + CollapseWhitespace(b)
    decreases |a|
  {
    if a == [] {
      assert a + b == b;
    } else if IsWhitespace(a[0]) {
      var t := TrimStart(a[1..]);
      assert a[1..][|a| - 2] == a[|a| - 1];
      TrimStartAppend(a[1..], b);
      assert t != [] && t[|t| - 1] == a[|a| - 1];
      CollapseAppend(t, b);
      HeadTailAppend(a, b);
      CollapseUnfoldSpace(a + b);
      CollapseUnfoldSpace(a);
      ConsAppend(' ', CollapseWhitespace(t), CollapseWhitespace(b));
    } else {
      CollapseAppend(a[1..], b);
      HeadTailAppend(a, b);
      CollapseUnfoldChar(a + b);
      CollapseUnfoldChar(a);
      ConsAppend(a[0], CollapseWhitespace(a[1..]), CollapseWhitespace(b));
    }
  }

  /** Collapsing a text that starts with white space: one space, then the rest with its
      leading white space dropped. */
  lemma CollapseUnfoldSpace(x: string)
    requires x != [] && IsWhitespace(x[0])
    ensures CollapseWhitespace(x) == [' '] + CollapseWhitespace(TrimStart(x[1..]))
  {
  }

  /** Collapsing a text that starts with another character keeps that character. */
  lemma CollapseUnfoldChar(x: string)
    requires x != [] && !IsWhitespace(x[0])
    ensures CollapseWhitespace(x) == [x[0]] + CollapseWhitespace(x[1..])
  {
  }

  /** The head and tail of a concatenation whose left part is not empty. */
  lemma HeadTailAppend(a: string, b: string)
    requires a != []
    ensures (a + b)[0] == a[0] && (a + b)[1..] == a[1..] + b
  {
  }

  lemma ConsAppend(c: char, x: string, y: string)
    ensures [c] + (x + y) == [c] + x + y
  {
  }

  /** One maximal run of white space, between characters that are not white space (or the
      ends of the text), becomes exactly one space, and the text on either side is collapsed
      independently. */
  lemma CollapseRun(a: string, w: string, b: string)
    requires a == [] || !IsWhitespace(a[|a| - 1])
    requires w != [] && IsBlank(w)
    requires b == [] || !IsWhitespace(b[0])
    ensures CollapseWhitespace(a + (w + b)) == CollapseWhitespace(a) + (" " + CollapseWhitespace(b))
  {
    CollapseAppend(a, w + b);
    CollapseBlankPrefix(w, b);
  }

  lemma CollapseBlankPrefix(w: string, b: string)
    requires w != [] && IsBlank(w)
    requires b == [] || !IsWhitespace(b[0])
    ensures CollapseWhitespace(w + b) == " " + CollapseWhitespace(b)
  {
    var y := w + b;
    assert y[0] == w[0];
    assert y[1..] == w[1..] + b;
    TrimStartBlank(w[1..], b);
  }

  /** Single-spaced text is its own collapse. */
  lemma {:induction false} CollapseSingleSpaced(s: string)
    requires SingleSpaced(s)
    ensures CollapseWhitespace(s) == s
    decreases |s|
  {
    if s != [] {
      var t := s[1..];
      SingleSpacedTail(s);
      CollapseSingleSpaced(t);
      assert s == [s[0]] + t;
      if IsWhitespace(s[0]) {
        assert t == [] || (t[0] == s[1] && !IsWhitespace(t[0]));
        assert TrimStart(t) == t;
      }
    }
  }

  /** Collapsing white space never adds, drops or reorders any other character. */
  lemma {:induction false} CollapseKeepsText(s: string)
    ensures NonWhitespace(CollapseWhitespace(s)) == NonWhitespace(s)
    decreases |s|
  {
    if s != [] {
      if IsWhitespace(s[0]) {
        CollapseKeepsText(TrimStart(s[1..]));
        NonWhitespaceTrimStart(s[1..]);
        assert NonWhitespace(CollapseWhitespace(s)) == NonWhitespace(CollapseWhitespace(TrimStart(s[1..])));
      } else {
        CollapseKeepsText(s[1..]);
        assert CollapseWhitespace(s)[1..] == CollapseWhitespace(s[1..]);
      }
    }
  }

  /** A space followed by single-spaced text that does not start with white space is
      single-spaced. */
  lemma SingleSpacedCons(c: char, t: string)
    requires SingleSpaced(t)
    requires IsWhitespace(c) ==> c == ' ' && (t == [] || !IsWhitespace(t[0]))
    ensures SingleSpaced([c] + t)
  {
    var r := [c] + t;
    forall i | 0 <= i < |r| - 1
      ensures !(IsWhitespace(r[i]) && IsWhitespace(r[i + 1]))
    {
      if i > 0 {
        assert r[i] == t[i - 1] && r[i + 1] == t[i];
      }
    }
    forall i | 0 <= i < |r| && IsWhitespace(r[i])
      ensures r[i] == ' '
    {
      if i > 0 {
        assert r[i] == t[i - 1];
      }
    }
  }

  /** Every run of white space is collapsed to a single space. */
  lemma {:induction false} CollapseIsSingleSpaced(s: string)
    ensures SingleSpaced(CollapseWhitespace(s))
    decreases |s|
  {
    if s != [] {
      if IsWhitespace(s[0]) {
        var t := TrimStart(s[1..]);
        CollapseIsSingleSpaced(t);
        SingleSpacedCons(' ', CollapseWhitespace(t));
      } else {
        CollapseIsSingleSpaced(s[1..]);
        SingleSpacedCons(s[0], CollapseWhitespace(s[1..]));
      }
    }
  }

  /** Collapsing trimmed text yields normalized text. */
  lemma CollapseTrimmedIsNormalized(t: string)
    requires t == [] || (!IsWhitespace(t[0]) && !IsWhitespace(t[|t| - 1]))
    ensures IsNormalized(CollapseWhitespace(t))
  {
    CollapseIsSingleSpaced(t);
  }

  /** The transcript is, as a whole, one of the inaudible markers. */
  predicate IsInaudibleMarker(cleaned: string) {
    Lower(cleaned) in ExactInaudiblePatterns
  }

  /** The bracket-pattern pass followed by the white-space clean-up: normalized text with the
      same characters other than white space, in the same order, as the bracket passes leave. */
  function CleanUp(cleaned: string): (r: string)
    ensures IsNormalized(r)
    ensures NonWhitespace(r) == NonWhitespace(RemoveArtifacts(cleaned, BracketPatterns))
  {
    var removed := RemoveArtifacts(cleaned, BracketPatterns);
    var stripped := Trim(removed);
    CollapseTrimmedIsNormalized(stripped);
    CollapseKeepsText(stripped);
    NonWhitespaceTrim(removed);
    CollapseWhitespace(stripped)
  }

  /** The filter: trim; reject a transcript that is entirely an inaudible marker; remove the
      bracketed annotations; re-trim and collapse white space; reject anything shorter than
      three characters. */
  function FilterInaudibleContent(text: string): (r: string)
    ensures r == [] || (|r| >= MinMeaningfulLength && IsNormalized(r))
    ensures IsInaudibleMarker(Trim(text)) ==> r == []
    ensures !IsInaudibleMarker(Trim(text)) && |CleanUp(Trim(text))| < MinMeaningfulLength ==> r == []
    ensures r != [] ==>
      NonWhitespace(r) == NonWhitespace(RemoveArtifacts(Trim(text), BracketPatterns))
  {
    var cleaned := Trim(text);
    if IsInaudibleMarker(cleaned) then []
    else
      var collapsed := CleanUp(cleaned);
      if |collapsed| < MinMeaningfulLength then [] else collapsed
  }

  /** Patterns that leave the text unchanged one by one leave it unchanged together. */
  lemma {:induction false} RemoveArtifactsUnchanged(s: string, patterns: seq<Bracketed>)
    requires forall k :: 0 <= k < |patterns| ==> RemoveAll(patterns[k], s) == s
    ensures RemoveArtifacts(s, patterns) == s
    decreases |patterns|
  {
    if patterns != [] {
      RemoveArtifactsUnchanged(s, patterns[1..]);
    }
  }

  /** Normalized text of three or more characters that is no marker and that the bracket
      passes leave unchanged (as when no pattern changes it, `RemoveArtifactsUnchanged`) passes
      the filter unchanged. */
  lemma FilterPassesCleanText(t: string)
    requires IsNormalized(t) && |t| >= MinMeaningfulLength && !IsInaudibleMarker(t)
    requires RemoveArtifacts(t, BracketPatterns) == t
    ensures FilterInaudibleContent(t) == t
  {
    TrimOfTrimmed(t);
    CleanUpOfNormalized(t, t);
    FilterKeeps(t, t, t);
  }

  /** A transcript that trims to no marker and whose clean-up is long enough is replaced by
      that clean-up. */
  lemma FilterKeeps(text: string, cleaned: string, c: string)
    requires Trim(text) == cleaned && !IsInaudibleMarker(cleaned)
    requires CleanUp(cleaned) == c && |c| >= MinMeaningfulLength
    ensures FilterInaudibleContent(text) == c
  {
  }

  /** When the bracket passes leave normalized text, the clean-up is that text. */
  lemma CleanUpOfNormalized(s: string, m: string)
    requires RemoveArtifacts(s, BracketPatterns) == m
    requires IsNormalized(m)
    ensures CleanUp(s) == m
  {
    CollapseTrimNormalized(m);
  }

  lemma CollapseTrimNormalized(m: string)
    requires IsNormalized(m)
    ensures CollapseWhitespace(Trim(m)) == m
  {
    TrimOfTrimmed(m);
    CollapseSingleSpaced(m);
  }

  /** Collapsing text without white space changes nothing. */
  lemma {:induction false} CollapseWithoutWhitespace(s: string)
    requires forall i :: 0 <= i < |s| ==> !IsWhitespace(s[i])
    ensures CollapseWhitespace(s) == s
    decreases |s|
  {
    if s != [] {
      CollapseWithoutWhitespace(s[1..]);
    }
  }

  /** The leftmost match of `\\[music.*?\\]` in `[mu[music]sic]` is `[music]`, at 3 to 10. */
  lemma FirstMatchIsInner()
    ensures FindFrom(MusicSquare.Elements(), "[mu[music]sic]", 0) == Some((3, 10))
  {
    var elems := [Lit('['), Lit('m'), Lit('u'), Lit('s'), Lit('i'), Lit('c'), LazyAny, Lit(']')];
    var s := "[mu[music]sic]";
    assert MusicSquare.Elements() == elems;
    NoMatchBeforeInner(elems, s);
    MatchAtInner(elems, s);
    assert FindFrom(elems, s, 3) == Some((3, 10));
    assert FindFrom(elems, s, 2) == Some((3, 10));
    assert FindFrom(elems, s, 1) == Some((3, 10));
  }

  lemma NoMatchBeforeInner(elems: Pattern, s: string)
    requires elems == [Lit('['), Lit('m'), Lit('u'), Lit('s'), Lit('i'), Lit('c'), LazyAny, Lit(']')]
    requires s == "[mu[music]sic]"
    ensures MatchFrom(elems, s, 0) == None
    ensures MatchFrom(elems, s, 1) == None
    ensures MatchFrom(elems, s, 2) == None
  {
    assert MatchFrom(elems[3..], s, 3) == None;
    assert MatchFrom(elems[2..], s, 2) == None;
    assert MatchFrom(elems[1..], s, 1) == None;
  }

  lemma MatchAtInner(elems: Pattern, s: string)
    requires elems == [Lit('['), Lit('m'), Lit('u'), Lit('s'), Lit('i'), Lit('c'), LazyAny, Lit(']')]
    requires s == "[mu[music]sic]"
    ensures MatchFrom(elems, s, 3) == Some(10)
  {
    assert MatchFrom(elems[7..], s, 9) == Some(10);
    assert MatchFrom(elems[6..], s, 9) == Some(10);
    assert MatchFrom(elems[5..], s, 8) == Some(10);
    assert MatchFrom(elems[4..], s, 7) == Some(10);
    assert MatchFrom(elems[3..], s, 6) == Some(10);
    assert MatchFrom(elems[2..], s, 5) == Some(10);
    assert MatchFrom(elems[1..], s, 4) == Some(10);
  }

  /** The first bracket pattern removes the inner `[music]` of `[mu[music]sic]`. */
  lemma FirstPassFormsMarker()
    ensures RemoveAll(MusicSquare, "[mu[music]sic]") == "[music]"
  {
    var s := "[mu[music]sic]";
    FirstMatchIsInner();
    RemoveAllAbsent(MusicSquare, "sic]", '[');
    assert s[10..] == "sic]";
    assert s[..3] + "sic]" == "[music]";
  }

  /** A pattern whose `j`-th element is a literal absent from `[music]` leaves it unchanged. */
  lemma KeepsMarker(p: Bracketed, j: nat)
    requires j < |p.Elements()| && p.Elements()[j].Lit?
    requires LowerChar(p.Elements()[j].c) !in "[music]"
    ensures RemoveAll(p, "[music]") == "[music]"
  {
    MarkerLacks("[music]", p.Elements()[j].c);
    RemoveAllAbsent(p, "[music]", p.Elements()[j].c);
  }

  /** No character of `[music]` is the same letter as one outside it. */
  lemma MarkerLacks(m: string, c: char)
    requires m == "[music]" && LowerChar(c) !in m
    ensures forall i :: 0 <= i < |m| ==> !SameLetter(m[i], c)
  {
    forall i | 0 <= i < |m|
      ensures !SameLetter(m[i], c)
    {
      assert m[i] in {'[', 'm', 'u', 's', 'i', 'c', ']'};
      assert LowerChar(m[i]) == m[i];
    }
  }

  /** The square-bracket patterns after the first each need a letter that `[music]` lacks. */
  lemma SquarePassesKeepMarker(k: nat)
    requires k in {1, 2, 3, 4, 15, 16, 17}
    ensures RemoveAll(BracketPatterns[k], "[music]") == "[music]"
  {
    var p := BracketPatterns[k];
    if k == 1 { assert p == PlayingSquare; KeepsMarker(p, 2); }
    else if k == 2 { assert p == BackgroundSquare; KeepsMarker(p, 1); }
    else if k == 3 { assert p == NoiseSquare; KeepsMarker(p, 1); }
    else if k == 4 { assert p == InaudibleSquare; KeepsMarker(p, 3); }
    else if k == 15 { assert p == SniffingSquare; KeepsMarker(p, 2); }
    else if k == 16 { assert p == CoughingSquare; KeepsMarker(p, 2); }
    else { assert p == BreathingSquare; KeepsMarker(p, 1); }
  }

  /** The parenthesis patterns need a `(`, which `[music]` lacks. */
  lemma RoundPassesKeepMarker(k: nat)
    requires 5 <= k <= 14
    ensures RemoveAll(BracketPatterns[k], "[music]") == "[music]"
  {
    var p := BracketPatterns[k];
    assert p.open == '(';
    KeepsMarker(p, 0);
  }

  /** All bracket patterns together turn `[mu[music]sic]` into `[music]`. */
  lemma ArtifactPassesOnNested()
    ensures RemoveArtifacts("[mu[music]sic]", BracketPatterns) == "[music]"
  {
    var m := "[music]";
    var rest := BracketPatterns[1..];
    assert BracketPatterns[0] == MusicSquare;
    FirstPassFormsMarker();
    forall k | 0 <= k < |rest| ensures RemoveAll(rest[k], m) == m {
      if 4 <= k <= 13 { RoundPassesKeepMarker(k + 1); } else { SquarePassesKeepMarker(k + 1); }
    }
    RemoveArtifactsUnchanged(m, rest);
  }

  /** `[mu[music]sic]` is no inaudible marker. */
  lemma NestedIsNoMarker()
    ensures !IsInaudibleMarker("[mu[music]sic]")
  {
    assert |Lower("[mu[music]sic]")| == 14;
  }

  /** The clean-up of `[mu[music]sic]` is `[music]`. */
  lemma CleanUpOnNested()
    ensures CleanUp("[mu[music]sic]") == "[music]"
  {
    ArtifactPassesOnNested();
    MusicHasNoWhitespace("[music]");
    CleanUpWithoutWhitespace("[mu[music]sic]", "[music]");
  }

  /** When the bracket passes leave text without any white space, the clean-up is that text. */
  lemma CleanUpWithoutWhitespace(s: string, m: string)
    requires RemoveArtifacts(s, BracketPatterns) == m
    requires forall i :: 0 <= i < |m| ==> !IsWhitespace(m[i])
    ensures CleanUp(s) == m
  {
    CollapseTrimWithoutWhitespace(m);
  }

  lemma CollapseTrimWithoutWhitespace(m: string)
    requires forall i :: 0 <= i < |m| ==> !IsWhitespace(m[i])
    ensures CollapseWhitespace(Trim(m)) == m
  {
    TrimOfTrimmed(m);
    CollapseWithoutWhitespace(m);
  }

  lemma MusicHasNoWhitespace(m: string)
    requires m == "[music]"
    ensures forall i :: 0 <= i < |m| ==> !IsWhitespace(m[i])
  {
    forall i | 0 <= i < |m|
      ensures !IsWhitespace(m[i])
    {
      assert m[i] in {'[', 'm', 'u', 's', 'i', 'c', ']'};
    }
  }

  /** `[mu[music]sic]` is not rejected as a whole, and its clean-up is kept. */
  lemma FilterOnNested()
    ensures FilterInaudibleContent("[mu[music]sic]") == "[music]"
  {
    TrimOfTrimmed("[mu[music]sic]");
    NestedIsNoMarker();
    CleanUpOnNested();
  }

  /** `[music]` alone is an inaudible marker. */
  lemma MusicIsMarker()
    ensures IsInaudibleMarker("[music]")
  {
    assert Lower("[music]") == "[music]" == ExactInaudiblePatterns[3];
  }

  /** `[BLANK_AUDIO]`, the engine's transcript of silence, is an inaudible marker. */
  lemma BlankAudioIsMarker()
    ensures IsInaudibleMarker("[BLANK_AUDIO]")
  {
    assert Lower("[BLANK_AUDIO]") == "[blank_audio]" == ExactInaudiblePatterns[0];
  }

  /** So the filter rejects `[music]`. */
  lemma FilterOnMarker()
    ensures FilterInaudibleContent("[music]") == []
  {
    TrimOfTrimmed("[music]");
    MusicIsMarker();
  }

  /** The filter is not idempotent: removing the inner `[music]` of `[mu[music]sic]` forms a new
      `[music]`, which the single pass keeps and a second pass rejects. */
  lemma FilterIsNotIdempotent()
    ensures FilterInaudibleContent("[mu[music]sic]") == "[music]"
    ensures FilterInaudibleContent(FilterInaudibleContent("[mu[music]sic]")) == []
  {
    FilterOnNested();
    FilterOnMarker();
  }
}
