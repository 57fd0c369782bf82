/** The logic of the visit screen: how recognized speech is added to the current answer, when
    the generate button is enabled, and how the narrative is stored in the session. */
module NarrativeView {
  import opened Text
  import opened Visit
  import opened NarrativeGeneration

  /** The text ends in `.`, `?` or `!`. */
  predicate EndsSentence(s: string) {
    s != [] && (s[|s| - 1] == '.' || s[|s| - 1] == '?' || s[|s| - 1] == '!')
  }

  /** The new content of a response once `recognized` is added to `current`: nothing for empty
      speech, the speech alone for an empty response, and otherwise the two joined so that a
      sentence ends just before the speech. */
  function AppendRecognized(current: string, recognized: string): (r: string)
    ensures recognized == [] ==> r == current
    ensures current <= r
    ensures |recognized| <= |r| && r[|r| - |recognized|..] == recognized
    ensures |r| == |current| + |recognized| +
      (if recognized == [] || current == [] then 0 else if EndsSentence(current) then 1 else 2)
    ensures recognized != [] && current != [] ==>
      r[|current|..|r| - |recognized|] == (if EndsSentence(current) then " " else ". ")
  {
    if recognized == [] then current
    else if current == [] then recognized
    else
      var separator := if EndsSentence(current) then " " else ". ";
      assert (current + separator + recognized)[|current|..|current| + |separator|] == separator;
      current + separator + recognized
  }

  /** After speech is added to a non-empty response, the speech follows a sentence end and one
      space, whether or not the response already ended a sentence. */
  lemma AppendEndsSentenceBefore(current: string, recognized: string)
    requires current != [] && recognized != []
    ensures var r := AppendRecognized(current, recognized);
      var k := |r| - |recognized|;
      k >= 2 && r[k - 1] == ' ' && EndsSentence(r[..k - 1])
  {
    var r := AppendRecognized(current, recognized);
    var k := |r| - |recognized|;
    if EndsSentence(current) {
      assert r[..k - 1] == current;
    } else {
      assert r[k - 2] == '.';
    }
  }

  /** Adding two pieces of speech one after the other never loses or reorders text: the
      first result is a prefix of the second, which ends with the second piece. */
  lemma AppendTwice(current: string, first: string, second: string)
    ensures var once := AppendRecognized(current, first);
      var twice := AppendRecognized(once, second);
      current <= once <= twice && twice[|twice| - |second|..] == second
  {
  }

  /** A response without a closing mark gains a full stop before the speech. */
  lemma AppendAfterPlainText()
    ensures AppendRecognized("Patient is stable", "No new complaints")
      == "Patient is stable. No new complaints"
  {
    var c, s := "Patient is stable", "No new complaints";
    assert !EndsSentence(c);
    assert c + ". " + s == "Patient is stable. No new complaints";
  }

  /** A response ending in a question mark gains only a space. */
  lemma AppendAfterQuestion()
    ensures AppendRecognized("Any pain?", "Denies pain") == "Any pain? Denies pain"
  {
    var c, s := "Any pain?", "Denies pain";
    assert EndsSentence(c);
    assert c + " " + s == "Any pain? Denies pain";
  }

  /** The emptiness test is on the raw response: one holding only white space still gets a
      separator. */
  lemma AppendAfterWhitespace()
    ensures AppendRecognized(" ", "Alert") == " . Alert"
  {
    var c, s := " ", "Alert";
    assert !EndsSentence(c);
    assert c + ". " + s == " . Alert";
  }

  /** The speech service's text callback: the recognized text is added to the response of the
      current question, and no other response changes. */
  method OnTextRecognized(session: VisitSession, recognized: string)
    requires session.Valid()
    modifies session`responses
    ensures session.Valid()
    ensures |session.responses| == |old(session.responses)|
    ensures session.responses[session.currentQuestionIndex]
      == AppendRecognized(old(session.responses[session.currentQuestionIndex]), recognized)
    ensures forall i :: 0 <= i < |session.responses| && i != session.currentQuestionIndex ==>
      session.responses[i] == old(session.responses[i])
  {
    if recognized == [] {
      return;
    }
    var currentText := session.responses[session.currentQuestionIndex];
    if currentText == [] {
      session.responses := session.responses[session.currentQuestionIndex := recognized];
    } else {
      var separator := if EndsSentence(currentText) then " " else ". ";
      session.responses :=
        session.responses[session.currentQuestionIndex := currentText + separator + recognized];
    }
  }

  /** `hasAnyResponses`: some response is not blank once trimmed. */
  function HasAnyResponses(rs: seq<string>): (b: bool)
    ensures b <==> !AllBlank(rs)
  {
    if rs == [] then false
    else
      AllBlankUncons(rs);
      Trim(rs[0]) != [] || HasAnyResponses(rs[1..])
  }

  /** The next button is disabled on the last question while every answer is blank. */
  function NextDisabled(session: VisitSession): (b: bool)
    reads session
    ensures b <==> session.IsLastQuestion() && AllBlank(session.responses)
  {
    session.IsLastQuestion() && !HasAnyResponses(session.responses)
  }

  /** Some response is non-blank exactly when the narrative has something to join, so the
      button is enabled on the last question exactly when the narrative is not the fallback
      for blank answers. */
  lemma HasAnyResponsesIffCleaned(rs: seq<string>)
    ensures HasAnyResponses(rs) <==> Cleaned(rs) != []
  {
    if HasAnyResponses(rs) {
      var i :| 0 <= i < |rs| && Trim(rs[i]) != [];
      assert !AllBlank(rs);
    }
  }

  /** With the button disabled the narrative would be the fallback message. */
  lemma DisabledMeansFallback(session: VisitSession)
    requires NextDisabled(session)
    ensures GenerateNarrative(session.responses) == NoResponsesMessage
  {
    HasAnyResponsesIffCleaned(session.responses);
  }

  /** A session whose questions are all answered has responses to narrate. */
  lemma AnsweredSessionHasResponses(session: VisitSession)
    requires session.Valid() && session.AllQuestionsAnswered()
    ensures HasAnyResponses(session.responses)
  {
    assert Trim(session.responses[0]) != [];
  }

  /** The view's `generateNarrative()`: the generated text is stored in the session and the
      generating flag ends cleared. */
  method GenerateIntoSession(session: VisitSession)
    requires session.Valid()
    modifies session`generatedNarrative, session`isGenerating
    ensures session.Valid()
    ensures session.generatedNarrative == GenerateNarrative(session.responses)
    ensures !session.isGenerating
  {
    session.isGenerating := true;
    var responses := session.responses;
    var narrative := GenerateNarrative(responses);
    session.generatedNarrative := narrative;
    session.isGenerating := false;
    assert session.responses == responses;
  }
}
