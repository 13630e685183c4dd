/**
 * The rules of app.py around the classifier: the input checks of analyze_text
 * (app.py:579-588) and the reasons explain_reasoning lists (app.py:621-641). The classifier
 * itself is a parameter: a function from the prepared text to a label and a probability for
 * analyze_text, and the signed top features it found for explain_reasoning.
 */
module Analysis {
  import opened Wrappers
  import opened Strings

  const MinLength := 5
  const MaxLength := 1000

  /**
   * The text analyze_text hands to the classifier: stripped, refused (None) when empty or
   * shorter than five characters, cut to its first 1000 characters when longer.
   */
  function Prepared(text: string): (r: Option<string>)
    ensures r.None? <==> |Strip(text)| < MinLength
    ensures r.Some? ==> MinLength <= |r.value| <= MaxLength && StartsWith(Strip(text), r.value)
    ensures r.Some? ==> r.value == if |Strip(text)| > MaxLength then Strip(text)[..MaxLength] else Strip(text)
  {
    var t := Strip(text);
    if |t| == 0 then None
    else if |t| < MinLength then None
    else if |t| > MaxLength then Some(t[..MaxLength])
    else Some(t)
  }

  /** analyze_text: (None, None) for a refused input, the classifier's answer on the prepared text otherwise. */
  function AnalyzeText<L>(text: string, classify: string -> L): (r: Option<L>)
    ensures r.None? <==> |Strip(text)| < MinLength
    ensures r.Some? ==> exists t :: Prepared(text) == Some(t) && r.value == classify(t)
  {
    match Prepared(text)
    case None => None
    case Some(t) => Some(classify(t))
  }

  // ---- explain_reasoning ----

  /** One of the classifier's top words and the sign of its contribution (negative means FAKE). */
  datatype Signal = Signal(word: string, fake: bool)

  function SignalReason(s: Signal): string {
    if s.fake then "\U{1F534} ML indicates '" + s.word + "' contributes to FAKE"
    else "\U{1F7E2} ML indicates '" + s.word + "' contributes to REAL"
  }

  const AlarmReason := "\U{26A0}\U{FE0F} Heuristic: " + "Excessive punctuation or all-caps detected"
  const ClickbaitPrefix := "\U{1F3AF} Heuristic: Clickbait word detected '"

  function ClickbaitReason(w: string): string {
    ClickbaitPrefix + w + "'"
  }

  const ClickbaitWords := ["shocking", "unbelievable", "you won't believe"]

  /** str.isupper() on ASCII: some upper-case letter and no lower-case one. */
  predicate IsUpper(text: string) {
    (exists i :: 0 <= i < |text| && 'A' <= text[i] <= 'Z') && forall i :: 0 <= i < |text| ==> !('a' <= text[i] <= 'z')
  }

  /** The first heuristic: "!!!" anywhere, or the whole text in capitals. */
  predicate Alarming(text: string) {
    Contains(text, "!!!") || IsUpper(text)
  }

  /** The clickbait words found in the lower-cased text, in list order. */
  function Clickbait(words: seq<string>, text: string): (r: seq<string>)
    ensures |r| <= |words|
    ensures forall w :: w in r <==> w in words && Contains(Lower(text), Lower(w))
    decreases |words|
  {
    if words == [] then []
    else
      var rest := Clickbait(words[..|words| - 1], text);
      var w := words[|words| - 1];
      if Contains(Lower(text), Lower(w)) then rest + [w] else rest
  }

  /** The words found keep their order in the list: idx embeds them, strictly increasing, into words. */
  lemma {:induction false} ClickbaitOrder(words: seq<string>, text: string) returns (idx: seq<nat>)
    ensures var r := Clickbait(words, text);
      && |idx| == |r|
      && (forall i :: 0 <= i < |idx| ==> idx[i] < |words| && words[idx[i]] == r[i])
      && (forall i, j :: 0 <= i < j < |idx| ==> idx[i] < idx[j])
    decreases |words|
  {
    if words == [] {
      idx := [];
    } else {
      var n := |words| - 1;
      var prev := ClickbaitOrder(words[..n], text);
      if Contains(Lower(text), Lower(words[n])) {
        idx := prev + [n];
      } else {
        idx := prev;
      }
    }
  }

  function SignalReasons(signals: seq<Signal>): (r: seq<string>)
    ensures |r| == |signals| && forall i :: 0 <= i < |r| ==> r[i] == SignalReason(signals[i])
  {
    seq(|signals|, i requires 0 <= i < |signals| => SignalReason(signals[i]))
  }

  function ClickbaitReasons(found: seq<string>): (r: seq<string>)
    ensures |r| == |found| && forall i :: 0 <= i < |r| ==> r[i] == ClickbaitReason(found[i])
  {
    seq(|found|, i requires 0 <= i < |found| => ClickbaitReason(found[i]))
  }

  function AlarmReasons(text: string): seq<string> {
    if Alarming(text) then [AlarmReason] else []
  }

  /** The list explain_reasoning returns. */
  function Reasons(text: string, signals: seq<Signal>): seq<string> {
    SignalReasons(signals) + AlarmReasons(text) + ClickbaitReasons(Clickbait(ClickbaitWords, text))
  }

  /** explain_reasoning: the classifier's reasons, then the two heuristics. */
  method ExplainReasoning(text: string, signals: seq<Signal>) returns (reasons: seq<string>)
    ensures reasons == Reasons(text, signals)
  {
    reasons := [];
    for i := 0 to |signals|
      invariant reasons == SignalReasons(signals[..i])
    {
      reasons := reasons + [SignalReason(signals[i])];
    }
    assert signals[..|signals|] == signals;
    var upper := IsUpperText(text);
    if Contains(text, "!!!") || upper {
      reasons := reasons + [AlarmReason];
    }
    var warnings := ClickbaitWarnings(text);
    reasons := reasons + warnings;
  }

  /** The loop over the clickbait words. */
  method ClickbaitWarnings(text: string) returns (warnings: seq<string>)
    ensures warnings == ClickbaitReasons(Clickbait(ClickbaitWords, text))
  {
    warnings := [];
    var lowered := Lower(text);
    for k := 0 to |ClickbaitWords|
      invariant warnings == ClickbaitReasons(Clickbait(ClickbaitWords[..k], text))
    {
      var w := ClickbaitWords[k];
      assert ClickbaitWords[..k + 1][..k] == ClickbaitWords[..k];
      if Contains(lowered, Lower(w)) {
        warnings := warnings + [ClickbaitReason(w)];
      }
    }
    assert ClickbaitWords[..|ClickbaitWords|] == ClickbaitWords;
  }

  /** text.isupper(), computed by scanning the characters. */
  method IsUpperText(text: string) returns (b: bool)
    ensures b == IsUpper(text)
  {
    var cased := false;
    for i := 0 to |text|
      invariant cased <==> exists j :: 0 <= j < i && 'A' <= text[j] <= 'Z'
      invariant forall j :: 0 <= j < i ==> !('a' <= text[j] <= 'z')
    {
      if 'a' <= text[i] <= 'z' {
        return false;
      }
      if 'A' <= text[i] <= 'Z' {
        cased := true;
      }
    }
    return cased;
  }

  /** The messages are told apart by their first character. */
  lemma ReasonHeads(s: Signal, w: string)
    ensures SignalReason(s)[0] == '\U{1F534}' || SignalReason(s)[0] == '\U{1F7E2}'
    ensures AlarmReason[0] == '\U{26A0}' && ClickbaitReason(w)[0] == '\U{1F3AF}'
  {
    assert SignalReason(s)[0] == (if s.fake then "\U{1F534} ML indicates '" else "\U{1F7E2} ML indicates '")[0];
    assert ClickbaitReason(w)[0] == ClickbaitPrefix[0];
    assert ClickbaitPrefix[0] == '\U{1F3AF}';
    AlarmHead();
  }

  lemma AlarmHead()
    ensures AlarmReason[0] == '\U{26A0}'
  {
  }

  lemma ClickbaitReasonInjective(v: string, w: string)
    requires ClickbaitReason(v) == ClickbaitReason(w)
    ensures v == w
  {
    var n := |ClickbaitPrefix|;
    assert |v| == |w|;
    assert v == ClickbaitReason(v)[n..n + |v|];
    assert w == ClickbaitReason(w)[n..n + |w|];
  }

  /** The all-caps/punctuation warning is listed exactly when the text has "!!!" or is in capitals. */
  lemma AlarmListed(text: string, signals: seq<Signal>)
    ensures AlarmReason in Reasons(text, signals) <==> Alarming(text)
  {
    var ml, tail := SignalReasons(signals), ClickbaitReasons(Clickbait(ClickbaitWords, text));
    assert Reasons(text, signals) == ml + AlarmReasons(text) + tail;
    ReasonHeads(Signal("", true), "");
    if AlarmReason in ml {
      var i :| 0 <= i < |ml| && ml[i] == AlarmReason;
      ReasonHeads(signals[i], "");
    }
    if AlarmReason in tail {
      var i :| 0 <= i < |tail| && tail[i] == AlarmReason;
      ReasonHeads(Signal("", true), Clickbait(ClickbaitWords, text)[i]);
    }
  }

  /** A clickbait warning is listed for a word exactly when the lower-cased text contains it. */
  lemma ClickbaitListed(text: string, signals: seq<Signal>, w: string)
    requires w in ClickbaitWords
    ensures ClickbaitReason(w) in Reasons(text, signals) <==> Contains(Lower(text), w)
  {
    var found := Clickbait(ClickbaitWords, text);
    var ml, tail := SignalReasons(signals), ClickbaitReasons(found);
    assert Reasons(text, signals) == ml + AlarmReasons(text) + tail;
    LowerOfLower(w);
    ReasonHeads(Signal("", true), w);
    if w in found {
      var i :| 0 <= i < |found| && found[i] == w;
      assert tail[i] == ClickbaitReason(w);
    }
    if ClickbaitReason(w) in ml {
      var i :| 0 <= i < |ml| && ml[i] == ClickbaitReason(w);
      ReasonHeads(signals[i], w);
    }
    if ClickbaitReason(w) in tail {
      var i :| 0 <= i < |tail| && tail[i] == ClickbaitReason(w);
      ClickbaitReasonInjective(found[i], w);
    }
  }

  /**
   * explain_reasoning lists the classifier's reasons first, in their order, then the
   * all-caps/punctuation warning exactly when it applies, then one warning per clickbait
   * word the text contains, in list order.
   */
  lemma ReasonsSpec(text: string, signals: seq<Signal>)
    ensures var r := Reasons(text, signals);
      && r[..|signals|] == SignalReasons(signals)
      && r[|signals|..] == AlarmReasons(text) + ClickbaitReasons(Clickbait(ClickbaitWords, text))
      && (AlarmReason in r <==> Alarming(text))
      && (forall w :: w in ClickbaitWords ==> (ClickbaitReason(w) in r <==> Contains(Lower(text), w)))
      && |r| <= |signals| + 1 + |ClickbaitWords|
  {
    AlarmListed(text, signals);
    forall w | w in ClickbaitWords ensures ClickbaitReason(w) in Reasons(text, signals) <==> Contains(Lower(text), w) {
      ClickbaitListed(text, signals, w);
    }
    ReasonsLayout(text, signals);
  }

  /** The list splits after the classifier's reasons into the two heuristics' warnings. */
  lemma ReasonsLayout(text: string, signals: seq<Signal>)
    ensures var r := Reasons(text, signals);
      && r[..|signals|] == SignalReasons(signals)
      && r[|signals|..] == AlarmReasons(text) + ClickbaitReasons(Clickbait(ClickbaitWords, text))
  {
    var ml, tail := SignalReasons(signals), AlarmReasons(text) + ClickbaitReasons(Clickbait(ClickbaitWords, text));
    assert Reasons(text, signals) == ml + tail;
  }

  /** The clickbait words are already in lower case. */
  lemma LowerOfLower(w: string)
    requires w in ClickbaitWords
    ensures Lower(w) == w
  {
  }
}
