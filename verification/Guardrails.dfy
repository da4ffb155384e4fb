/** classify/schema.py: from an untrusted answer to a trustworthy classification. Free text that no rule
    reads (reasoning, suggested action) is left out. */
module Guardrails {
  import opened Models

  const MAX_EVIDENCE_ITEMS: nat := 6
  const MAX_EVIDENCE_CHARS: nat := 300

  // ---- trimming ----------------------------------------------------------

  /** The characters Python's `str.strip` removes. */
  predicate IsSpace(c: char) {
    || '\U{0009}' <= c <= '\U{000d}' || '\U{001c}' <= c <= '\U{0020}' || '\U{2000}' <= c <= '\U{200a}'
    || c == '\U{0085}' || c == '\U{00a0}' || c == '\U{1680}' || c == '\U{2028}' || c == '\U{2029}'
    || c == '\U{202f}' || c == '\U{205f}' || c == '\U{3000}'
  }

  predicate Blank(s: string) { forall i :: 0 <= i < |s| ==> IsSpace(s[i]) }

  function StripLeft(s: string): string {
    if s != [] && IsSpace(s[0]) then StripLeft(s[1..]) else s
  }

  function StripRight(s: string): string {
    if s != [] && IsSpace(s[|s| - 1]) then StripRight(s[..|s| - 1]) else s
  }

  function Strip(s: string): string { StripRight(StripLeft(s)) }

  lemma {:induction false} StripLeftIs(s: string)
    ensures Blank(s) <==> StripLeft(s) == []
    ensures StripLeft(s) != [] ==> !IsSpace(StripLeft(s)[0])
  {
    if s != [] && IsSpace(s[0]) {
      StripLeftIs(s[1..]);
      if Blank(s[1..]) {
        forall i | 0 <= i < |s| ensures IsSpace(s[i]) { if i > 0 { assert s[1..][i - 1] == s[i]; } }
      }
      if Blank(s) {
        forall i | 0 <= i < |s[1..]| ensures IsSpace(s[1..][i]) { assert s[1..][i] == s[i + 1]; }
      }
    }
  }

  lemma {:induction false} StripRightIs(s: string)
    requires s != [] ==> !IsSpace(s[0])
    ensures StripRight(s) == [] <==> s == []
    ensures s != [] ==> StripRight(s) != [] && StripRight(s)[0] == s[0]
  {
    if s != [] && IsSpace(s[|s| - 1]) {
      StripRightIs(s[..|s| - 1]);
    }
  }

  /** Only a blank string strips to nothing, and what is left starts with a visible character. */
  lemma StripIs(s: string)
    ensures Blank(s) <==> Strip(s) == []
    ensures Strip(s) != [] ==> !IsSpace(Strip(s)[0])
  {
    StripLeftIs(s);
    StripRightIs(StripLeft(s));
  }

  // ---- evidence ----------------------------------------------------------

  function Clip(s: string): string {
    if |s| <= MAX_EVIDENCE_CHARS then s else s[..MAX_EVIDENCE_CHARS]
  }

  /** Every visible item, stripped and clipped, in order. */
  function Visible(items: seq<string>): seq<string> {
    if items == [] then []
    else (if Strip(items[0]) == [] then [] else [Clip(Strip(items[0]))]) + Visible(items[1..])
  }

  /** What the loop over the items keeps: the first six visible ones. */
  function Cleaned(items: seq<string>): seq<string> {
    var all := Visible(items);
    if |all| <= MAX_EVIDENCE_ITEMS then all else all[..MAX_EVIDENCE_ITEMS]
  }

  lemma {:induction false} VisibleSplit(a: seq<string>, b: seq<string>)
    ensures Visible(a + b) == Visible(a) + Visible(b)
  {
    if a == [] {
      assert a + b == b;
    } else {
      assert (a + b)[1..] == a[1..] + b;
      VisibleSplit(a[1..], b);
    }
  }

  /** The loop stops early once six items are kept, and that loses nothing. */
  method CleanEvidence(items: seq<string>) returns (cleaned: seq<string>)
    ensures cleaned == Cleaned(items)
  {
    cleaned := [];
    for k := 0 to |items|
      invariant cleaned == Visible(items[..k]) && |cleaned| < MAX_EVIDENCE_ITEMS
    {
      var text := Strip(items[k]);
      VisibleSplit(items[..k], [items[k]]);
      assert items[..k + 1] == items[..k] + [items[k]];
      if text != [] {
        cleaned := cleaned + [Clip(text)];
      }
      if |cleaned| >= MAX_EVIDENCE_ITEMS {
        VisibleSplit(items[..k + 1], items[k + 1..]);
        assert items == items[..k + 1] + items[k + 1..];
        return;
      }
    }
    assert items[..|items|] == items;
  }

  predicate Citable(s: string) { 0 < |s| <= MAX_EVIDENCE_CHARS && !Blank(s) }

  lemma {:induction false} VisibleIsCitable(items: seq<string>)
    ensures forall e :: e in Visible(items) ==> Citable(e)
    ensures Visible(items) == [] <==> forall i :: 0 <= i < |items| ==> Blank(items[i])
  {
    if items != [] {
      StripIs(items[0]);
      VisibleIsCitable(items[1..]);
      if Visible(items[1..]) != [] {
        var i :| 0 <= i < |items[1..]| && !Blank(items[1..][i]);
        assert items[i + 1] == items[1..][i];
      }
    }
  }

  /** Kept evidence is short, never blank, and missing only if the model cited nothing visible. */
  lemma CleanedIsCitable(items: seq<string>)
    ensures |Cleaned(items)| <= MAX_EVIDENCE_ITEMS
    ensures forall e :: e in Cleaned(items) ==> Citable(e)
    ensures Cleaned(items) == [] <==> forall i :: 0 <= i < |items| ==> Blank(items[i])
  {
    VisibleIsCitable(items);
  }

  // ---- answers -----------------------------------------------------------

  /** A validated answer; validation has already put the confidence between 0 and 1. */
  datatype RawAnswer = RawAnswer(cause: CauseCode, confidence: real, evidence: seq<string>, abstained: bool)

  /** What the validators make of a response text: JSON or not, an object or not, a known cause, the schema. */
  datatype Reading = Unparsable | NotAnObject | InventedCause | OffSchema | Shaped(answer: RawAnswer)

  function Abstain(reason: DowngradeReason, model: string, promptVersion: string): Classification {
    Classification(Unknown, 0.0, [], true, reason, model, promptVersion)
  }

  function ApplyGuardrails(raw: RawAnswer, floor: real, model: string, promptVersion: string): Classification {
    var evidence := Cleaned(raw.evidence);
    if raw.abstained || raw.cause.Unknown? then
      var reason := if raw.abstained then ModelAbstained else NotDowngraded;
      Classification(Unknown, raw.confidence, evidence, true, reason, model, promptVersion)
    else if evidence == [] then Abstain(NoEvidence, model, promptVersion)
    else if raw.confidence < floor then Abstain(BelowConfidenceFloor, model, promptVersion)
    else Classification(raw.cause, raw.confidence, evidence, false, NotDowngraded, model, promptVersion)
  }

  /** A response text: its characters, what the classifier's validators and the gate's reader make of them. */
  datatype Text = Text(chars: string, reading: Reading, verdict: Option<bool>)

  /** The classification, and the offending characters if there are any: a missing text is not malformed. */
  function ParseAndValidate(text: Option<Text>, floor: real, model: string,
                            promptVersion: string): (Classification, Option<string>) {
    if text.None? then (Abstain(EmptyResponse, model, promptVersion), None)
    else
      var chars := Some(text.value.chars);
      if Strip(text.value.chars) == [] then (Abstain(EmptyResponse, model, promptVersion), chars)
      else match text.value.reading
        case Unparsable => (Abstain(InvalidJson, model, promptVersion), chars)
        case NotAnObject => (Abstain(SchemaInvalid, model, promptVersion), chars)
        case InventedCause => (Abstain(UnknownCause, model, promptVersion), chars)
        case OffSchema => (Abstain(SchemaInvalid, model, promptVersion), chars)
        case Shaped(raw) => (ApplyGuardrails(raw, floor, model, promptVersion), None)
  }

  /** A result may name a cause only with visible evidence, enough confidence and no abstention; one that
      names none is marked as an abstention. */
  ghost predicate Trusted(c: Classification, floor: real) {
    && (c.cause.Unknown? <==> c.abstained)
    && |c.evidence| <= MAX_EVIDENCE_ITEMS
    && (forall e :: e in c.evidence ==> Citable(e))
    && (!c.cause.Unknown? ==> c.evidence != [] && c.confidence >= floor && c.downgrade.NotDowngraded?)
  }

  lemma {:induction false} AbstainIsTrusted(reason: DowngradeReason, floor: real, model: string, promptVersion: string)
    ensures Trusted(Abstain(reason, model, promptVersion), floor)
  {
  }

  /** The guardrails keep a cause exactly when the model committed to it, cited something visible and was
      confident enough. */
  lemma {:induction false} GuardrailsIff(raw: RawAnswer, floor: real, model: string, promptVersion: string)
    ensures var c := ApplyGuardrails(raw, floor, model, promptVersion);
      && Trusted(c, floor)
      && (!c.cause.Unknown? <==> !raw.abstained && !raw.cause.Unknown? && raw.confidence >= floor
                                 && exists i :: 0 <= i < |raw.evidence| && !Blank(raw.evidence[i]))
      && (!c.cause.Unknown? ==> c.cause == raw.cause && c.confidence == raw.confidence)
  {
    CleanedIsCitable(raw.evidence);
  }

  lemma {:induction false} ParsedIsTrusted(text: Option<Text>, floor: real, model: string, promptVersion: string)
    ensures Trusted(ParseAndValidate(text, floor, model, promptVersion).0, floor)
    ensures ParseAndValidate(text, floor, model, promptVersion).1.Some? ==>
      ParseAndValidate(text, floor, model, promptVersion).0.abstained
  {
    if text.Some? && text.value.reading.Shaped? {
      GuardrailsIff(text.value.reading.answer, floor, model, promptVersion);
    }
  }
}
