/** `VisitSession`: the seven questions of a home-health visit, the response typed or dictated
    for each, and which question is on screen. */
module Visit {
  import opened Wrappers
  import opened Text

  /** One entry of the fixed question list (its random `id` is left out). */
  datatype Question = Question(number: int, prompt: string, placeholder: string)

  /** `Question.homeHealthQuestions`. */
  const HomeHealthQuestions: seq<Question> := [
    Question(1, "What is the patient's name?", "Enter patient's full name"),
    Question(2, "How is the patient's mental status and alertness?",
      "Describe orientation, alertness, and cognitive status"),
    Question(3, "How is the patient's mobility and safety?",
      "Describe ambulation, transfers, fall risk, and safety concerns"),
    Question(4, "What is the medication compliance status?",
      "Describe medication adherence and any issues"),
    Question(5, "Were any treatments or wound care performed?",
      "Describe treatments, wound care, or procedures performed"),
    Question(6, "What patient education was provided?",
      "Describe teaching provided and patient understanding"),
    Question(7, "What is the plan for the next visit?",
      "Describe follow-up plans and next visit objectives")
  ]

  /** The list holds one question per response slot, numbered from 1 in order. */
  lemma QuestionsNumberedInOrder()
    ensures |HomeHealthQuestions| == ResponseSlots
    ensures forall i :: 0 <= i < |HomeHealthQuestions| ==> HomeHealthQuestions[i].number == i + 1
  {
  }

  /** The number of response slots a session starts with. */
  const ResponseSlots := 7

  /** `Array(repeating: "", count: 7)`. */
  function EmptyResponses(): (rs: seq<string>)
    ensures |rs| == ResponseSlots && forall i :: 0 <= i < |rs| ==> rs[i] == []
  {
    seq(ResponseSlots, _ => [])
  }

  /** Some response is empty once trimmed (`responses.contains(where: ...)`). */
  function ContainsBlank(rs: seq<string>): (b: bool)
    ensures b <==> !NoneBlank(rs)
  {
    if rs == [] then false
    else
      NoneBlankUncons(rs);
      Trim(rs[0]) == [] || ContainsBlank(rs[1..])
  }

  function Min(a: int, b: int): int { if a <= b then a else b }
  function Max(a: int, b: int): int { if a >= b then a else b }
  function MinReal(a: real, b: real): real { if a <= b then a else b }
  function MaxReal(a: real, b: real): real { if a >= b then a else b }

  /** The decimal digit for `d`. */
  function Digit(d: nat): char
    requires d < 10
  {
    ('0' as int + d) as char
  }

  predicate IsDigit(c: char) {
    '0' <= c <= '9'
  }

  /** `%d` of a non-negative number. */
  function NatToString(n: nat): (s: string)
    ensures |s| >= 1 && forall i :: 0 <= i < |s| ==> IsDigit(s[i])
  {
    if n < 10 then [Digit(n)] else NatToString(n / 10) + [Digit(n % 10)]
  }

  /** `%d`: a minus sign before the digits of a negative number. */
  function IntToString(n: int): string {
    if n < 0 then "-" + NatToString(-n) else NatToString(n)
  }

  /** `%02d` for a value below 100 in magnitude: zero-padded to two characters. */
  function ZeroPad2(v: int): string {
    if 0 <= v < 10 then "0" + NatToString(v) else IntToString(v)
  }

  /** Swift's `/` on `Int`: rounds toward zero. */
  function Quot(a: int, b: int): int
    requires b > 0
  {
    if a >= 0 then a / b else -((-a) / b)
  }

  /** Swift's `%` on `Int`: takes the sign of the dividend. */
  function Rem(a: int, b: int): int
    requires b > 0
  {
    a - b * Quot(a, b)
  }

  /** The value of a string of decimal digits. */
  function ParseNat(s: string): nat
    requires forall i :: 0 <= i < |s| ==> IsDigit(s[i])
  {
    if s == [] then 0
    else
      assert IsDigit(s[|s| - 1]);
      ParseNat(s[..|s| - 1]) * 10 + (s[|s| - 1] as int - '0' as int)
  }

  /** Reading back the digits of a number gives the number. */
  lemma {:induction false} ParseNatToString(n: nat)
    ensures ParseNat(NatToString(n)) == n
  {
    if n >= 10 {
      var s := NatToString(n);
      assert s[..|s| - 1] == NatToString(n / 10);
      ParseNatToString(n / 10);
    }
  }

  /** Reads `m:ss` back into seconds. */
  function ParseTime(t: string): Option<int> {
    if |t| >= 4 && t[|t| - 3] == ':'
      && (forall i :: 0 <= i < |t| - 3 ==> IsDigit(t[i]))
      && IsDigit(t[|t| - 2]) && IsDigit(t[|t| - 1])
    then Some(ParseNat(t[..|t| - 3]) * 60 + ParseNat(t[|t| - 2..]))
    else None
  }

  /** The index `moveToNext` moves to: one step forward unless already on the last of
      `count` questions. */
  function NextIndex(i: int, count: int): int {
    if i < count - 1 then i + 1 else i
  }

  /** The index `moveToPrevious` moves to: one step back unless already on the first. */
  function PreviousIndex(i: int): int {
    if i > 0 then i - 1 else i
  }

  /** The two navigation buttons. */
  datatype Move = Next | Previous

  /** The index after a sequence of button presses. */
  function Walk(i: int, count: int, moves: seq<Move>): int
    decreases |moves|
  {
    if moves == [] then i
    else
      var j := match moves[0] case Next => NextIndex(i, count) case Previous => PreviousIndex(i);
      Walk(j, count, moves[1..])
  }

  /** No sequence of presses leaves the range of question indices. */
  lemma {:induction false} WalkStaysInRange(i: int, count: int, moves: seq<Move>)
    requires 0 <= i < count
    ensures 0 <= Walk(i, count, moves) < count
    decreases |moves|
  {
    if moves != [] {
      var j := match moves[0] case Next => NextIndex(i, count) case Previous => PreviousIndex(i);
      WalkStaysInRange(j, count, moves[1..]);
    }
  }

  /** `k` presses of the next button advance `k` questions, stopping at the last. */
  lemma {:induction false} WalkForward(i: int, count: int, k: nat)
    requires 0 <= i < count
    ensures Walk(i, count, seq(k, _ => Next)) == Min(i + k, count - 1)
    decreases k
  {
    var moves: seq<Move> := seq(k, _ => Next);
    if k > 0 {
      assert moves[0] == Next;
      assert moves[1..] == seq(k - 1, _ => Next);
      WalkForward(NextIndex(i, count), count, k - 1);
    }
  }

  class VisitSession {
    var questions: seq<Question>
    var responses: seq<string>
    var currentQuestionIndex: int
    var generatedNarrative: string
    var isGenerating: bool

    /** Seven questions (their prompts may be edited, their number may not), one response slot
        per question, and an index on the list. */
    ghost predicate Valid()
      reads this
    {
      |questions| == ResponseSlots
      && |responses| == |questions|
      && 0 <= currentQuestionIndex < |questions|
    }

    constructor ()
      ensures Valid()
      ensures questions == HomeHealthQuestions
      ensures responses == EmptyResponses() && currentQuestionIndex == 0
      ensures generatedNarrative == [] && !isGenerating
    {
      questions := HomeHealthQuestions;
      responses := EmptyResponses();
      currentQuestionIndex := 0;
      generatedNarrative := [];
      isGenerating := false;
    }

    /** `currentQuestion`: a question of the list; on the fixed list, the one numbered one
        past the index. */
    function CurrentQuestion(): (q: Question)
      reads this
      requires Valid()
      ensures q in questions
      ensures questions == HomeHealthQuestions ==> q.number == currentQuestionIndex + 1
    {
      QuestionsNumberedInOrder();
      questions[currentQuestionIndex]
    }

    /** `isFirstQuestion`: on the first question, where the previous button has no effect. */
    function IsFirstQuestion(): (b: bool)
      reads this
      ensures currentQuestionIndex >= 0 ==>
        (b <==> PreviousIndex(currentQuestionIndex) == currentQuestionIndex)
    {
      currentQuestionIndex == 0
    }

    /** `isLastQuestion`: on the last question, where the next button has no effect. */
    function IsLastQuestion(): (b: bool)
      reads this
      ensures currentQuestionIndex <= |questions| - 1 ==>
        (b <==> NextIndex(currentQuestionIndex, |questions|) == currentQuestionIndex)
    {
      currentQuestionIndex == |questions| - 1
    }

    /** `progress`: the position of the (clamped) current question as a fraction of the list,
        forced into [0, 1]; 0 for an empty list. */
    function Progress(): (p: real)
      reads this
      ensures 0.0 <= p <= 1.0
      ensures |questions| == 0 ==> p == 0.0
      ensures |questions| > 0 ==>
        p == (Max(0, Min(|questions| - 1, currentQuestionIndex)) + 1) as real / |questions| as real
    {
      var total := |questions|;
      if total <= 0 then 0.0
      else
        var current := Max(0, Min(total - 1, currentQuestionIndex));
        var value := (current + 1) as real / total as real;
        assert 0.0 < value <= 1.0 by {
          assert (current + 1) as real <= total as real;
        }
        MinReal(MaxReal(value, 0.0), 1.0)
    }

    /** `allQuestionsAnswered()`: no response is blank. */
    function AllQuestionsAnswered(): (b: bool)
      reads this
      ensures b <==> NoneBlank(responses)
    {
      !ContainsBlank(responses)
    }

    /** `formatTime`: `%d:%02d` of the quotient and remainder by 60, both rounded toward zero;
        for a non-negative count, the minutes in decimal, a colon, and the seconds as exactly
        two digits. */
    static function FormatTime(seconds: int): (t: string)
      ensures seconds >= 0 ==>
        t == NatToString(seconds / 60) + ":" + [Digit(seconds % 60 / 10), Digit(seconds % 60 % 10)]
    {
      if seconds >= 0 then
        var q, r := seconds / 60, seconds % 60;
        assert Quot(seconds, 60) == q && Rem(seconds, 60) == r;
        ZeroPad2Digits(r);
        NatToString(q) + ":" + ZeroPad2(r)
      else
        IntToString(Quot(seconds, 60)) + ":" + ZeroPad2(Rem(seconds, 60))
    }

    /** `moveToNext`: one step forward unless on the last question. */
    method MoveToNext()
      requires Valid()
      modifies this`currentQuestionIndex
      ensures Valid()
      ensures currentQuestionIndex == NextIndex(old(currentQuestionIndex), |questions|)
    {
      if currentQuestionIndex < |questions| - 1 {
        currentQuestionIndex := currentQuestionIndex + 1;
      }
    }

    /** `moveToPrevious`: one step back unless on the first question. */
    method MoveToPrevious()
      requires Valid()
      modifies this`currentQuestionIndex
      ensures Valid()
      ensures currentQuestionIndex == PreviousIndex(old(currentQuestionIndex))
    {
      if currentQuestionIndex > 0 {
        currentQuestionIndex := currentQuestionIndex - 1;
      }
    }

    /** `clearSession`: seven empty responses, the first question, no narrative. */
    method ClearSession()
      requires Valid()
      modifies this`responses, this`currentQuestionIndex, this`generatedNarrative, this`isGenerating
      ensures Valid()
      ensures responses == EmptyResponses() && currentQuestionIndex == 0
      ensures generatedNarrative == [] && !isGenerating
    {
      responses := EmptyResponses();
      currentQuestionIndex := 0;
      generatedNarrative := [];
      isGenerating := false;
    }

    /** `startNewSession`: the same as `clearSession`. */
    method StartNewSession()
      requires Valid()
      modifies this`responses, this`currentQuestionIndex, this`generatedNarrative, this`isGenerating
      ensures Valid()
      ensures responses == EmptyResponses() && currentQuestionIndex == 0
      ensures generatedNarrative == [] && !isGenerating
    {
      ClearSession();
    }
  }

  /** On a valid session the first question has progress 1/7 and only the last has progress 1. */
  lemma ProgressMarksEnds(s: VisitSession)
    requires s.Valid()
    ensures s.IsFirstQuestion() ==> s.Progress() == 1.0 / 7.0
    ensures s.Progress() == 1.0 <==> s.IsLastQuestion()
  {
    var n := |s.questions|;
    var c := s.currentQuestionIndex;
    assert n == 7;
    assert s.Progress() == (c + 1) as real / 7.0;
    if s.Progress() == 1.0 {
      assert (c + 1) as real == 7.0;
    }
  }

  /** A step forward never lowers the progress, and raises it unless on the last question. */
  lemma ProgressGrowsForward(s: VisitSession, next: int)
    requires s.Valid()
    requires next == NextIndex(s.currentQuestionIndex, |s.questions|)
    ensures (next + 1) as real / 7.0 >= s.Progress()
    ensures !s.IsLastQuestion() ==> (next + 1) as real / 7.0 > s.Progress()
  {
  }

  /** `%02d` of a number of seconds below a minute is its two decimal digits. */
  lemma ZeroPad2Digits(r: int)
    requires 0 <= r < 60
    ensures ZeroPad2(r) == [Digit(r / 10), Digit(r % 10)]
  {
    if r < 10 {
      assert r / 10 == 0 && r % 10 == r;
      assert ZeroPad2(r) == "0" + [Digit(r)];
    } else {
      assert r / 10 < 10;
      assert NatToString(r) == [Digit(r / 10)] + [Digit(r % 10)];
    }
  }

  /** A non-negative count formats into a string that reads back as the same count. */
  lemma FormatTimeRoundTrip(seconds: int)
    requires seconds >= 0
    ensures ParseTime(VisitSession.FormatTime(seconds)) == Some(seconds)
  {
    var m := NatToString(seconds / 60);
    var ss := [Digit(seconds % 60 / 10), Digit(seconds % 60 % 10)];
    var t := m + ":" + ss;
    assert t[..|t| - 3] == m;
    assert t[|t| - 2..] == ss;
    ParseNatToString(seconds / 60);
    assert ParseNat(ss) == seconds % 60 by {
      var r := seconds % 60;
      assert ss[..1] == [Digit(r / 10)];
      assert ParseNat([Digit(r / 10)]) == r / 10 by {
        assert [Digit(r / 10)][..0] == [];
      }
    }
  }

  /** Negative counts keep Swift's truncating division: -65 seconds shows as "-1:-5". */
  lemma FormatTimeNegative()
    ensures VisitSession.FormatTime(-65) == "-1:-5"
    ensures VisitSession.FormatTime(-5) == "0:-5"
  {
    FormatTimeMinus65();
    FormatTimeMinus5();
  }

  lemma FormatTimeMinus65()
    ensures VisitSession.FormatTime(-65) == "-1:-5"
  {
    assert Quot(-65, 60) == -1;
    assert Rem(-65, 60) == -5;
  }

  lemma FormatTimeMinus5()
    ensures VisitSession.FormatTime(-5) == "0:-5"
  {
    assert Quot(-5, 60) == 0;
    assert Rem(-5, 60) == -5;
  }
}
