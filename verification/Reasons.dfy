/** Why a classification came out as it did: each reason by itself, in terms of what the models answered. */
module Reasons {
  import opened Models
  import opened Guardrails
  import opened Classifying

  // ---- the budget --------------------------------------------------------

  /** What the classifier's own calls cost together; the gate's are not counted. */
  function PaidFor(calls: seq<CallRecord>): real {
    if calls == [] then 0.0
    else
      var last := calls[|calls| - 1];
      PaidFor(calls[..|calls| - 1]) + if last.kind.Classify? || last.kind.Repair? then last.cost else 0.0
  }

  function PaidCalls(calls: seq<CallRecord>): nat {
    if calls == [] then 0
    else
      var last := calls[|calls| - 1];
      PaidCalls(calls[..|calls| - 1]) + if last.kind.Classify? || last.kind.Repair? then 1 else 0
  }

  lemma {:induction false} BilledAre(calls: seq<CallRecord>)
    ensures Spent(Billed(calls)) == PaidFor(calls) && |Billed(calls)| == PaidCalls(calls)
  {
    if calls != [] {
      var n := |calls| - 1;
      BilledAre(calls[..n]);
      if calls[n].kind.Gate? {
        assert Billed(calls) == Billed(calls[..n]);
      } else {
        assert Billed(calls)[..|Billed(calls)| - 1] == Billed(calls[..n]);
      }
    }
  }

  /** No further call is made once the budget is spent, nor when the mean paid call would take spending beyond it. */
  predicate OutOfBudget(budget: real, calls: seq<CallRecord>) {
    || Spent(calls) >= budget
    || (PaidCalls(calls) > 0 && PaidFor(calls) > 0.0
        && PaidFor(calls) > (budget - Spent(calls)) * PaidCalls(calls) as real)
  }

  lemma {:induction false} Quotient(total: real, count: real, room: real)
    requires count > 0.0
    ensures total / count > room <==> total > room * count
    ensures total / count > 0.0 <==> total > 0.0
  {
    var mean := total / count;
    assert mean * count == total;
    if mean > room { Scale(mean, room, count); }
    if room > mean { Scale(room, mean, count); }
    if mean > 0.0 { Scale(mean, 0.0, count); }
    if 0.0 > mean { Scale(0.0, mean, count); }
  }

  lemma {:induction false} Scale(a: real, b: real, k: real)
    requires a > b && k > 0.0
    ensures a * k > b * k
  {
  }

  lemma {:induction false} BudgetIff(budget: real, calls: seq<CallRecord>)
    ensures WouldExceedBudget(budget, calls) <==> OutOfBudget(budget, calls)
  {
    BilledAre(calls);
    var k := PaidCalls(calls);
    if k > 0 { Quotient(PaidFor(calls), k as real, budget - Spent(calls)); }
  }

  // ---- what a reply amounts to -------------------------------------------

  /** A reply that failed, or has no text at all, or is in shape, needs no repair. */
  predicate Malformed(r: ModelResponse) {
    && !r.failed && r.text.Some?
    && ((forall i :: 0 <= i < |r.text.value.chars| ==> IsSpace(r.text.value.chars[i])) || !r.text.value.reading.Shaped?)
  }

  function Complaint(t: Text): DowngradeReason {
    if Blank(t.chars) then EmptyResponse
    else match t.reading
      case Unparsable => InvalidJson
      case NotAnObject => SchemaInvalid
      case InventedCause => UnknownCause
      case OffSchema => SchemaInvalid
      case Shaped(_) => NotDowngraded
  }

  lemma {:induction false} ParsedIs(config: ClassifyConfig, r: ModelResponse)
    requires !r.failed
    ensures var (c, malformed) := Parsed(config, r);
      && (malformed.Some? <==> Malformed(r))
      && (malformed.Some? ==> malformed == Some(r.text.value.chars) && c.downgrade == Complaint(r.text.value))
      && (r.text.None? ==> c.downgrade.EmptyResponse? && c.cause.Unknown? && c.abstained)
      && (malformed.None? && r.text.Some? ==>
        c == ApplyGuardrails(r.text.value.reading.answer, config.floor, config.classifierModel, config.promptVersion))
  {
    if r.text.Some? { StripIs(r.text.value.chars); }
  }

  /** Why a shaped answer is kept or not. */
  lemma {:induction false} GuardrailReasons(raw: RawAnswer, floor: real, model: string, version: string)
    ensures var c := ApplyGuardrails(raw, floor, model, version);
      var cited := exists i :: 0 <= i < |raw.evidence| && !Blank(raw.evidence[i]);
      && c.model == model && c.promptVersion == version
      && (c.downgrade.ModelAbstained? <==> raw.abstained)
      && (c.downgrade.NoEvidence? <==> !raw.abstained && !raw.cause.Unknown? && !cited)
      && (c.downgrade.BelowConfidenceFloor? <==>
        !raw.abstained && !raw.cause.Unknown? && cited && raw.confidence < floor)
      && (c.downgrade.NotDowngraded? <==>
        !raw.abstained && (raw.cause.Unknown? || (cited && raw.confidence >= floor)))
      && (c.downgrade.NoEvidence? || c.downgrade.BelowConfidenceFloor? ==> c.confidence == 0.0 && c.evidence == [])
      && (raw.abstained || c.downgrade.NotDowngraded? ==>
        c.confidence == raw.confidence && c.evidence == Cleaned(raw.evidence))
      && (c.abstained <==> c.cause.Unknown?)
  {
    CleanedIsCitable(raw.evidence);
  }

  // ---- one question ------------------------------------------------------

  function Question(client: Client, config: ClassifyConfig, n: nat, context: string): ModelResponse {
    client(n, Request(Classify, config.classifierModel, ContextPrompt(context)))
  }

  /** The repair names the complaint and quotes the first 800 characters. */
  function Again(client: Client, config: ClassifyConfig, n: nat, context: string, t: Text): ModelResponse {
    var quoted := if |t.chars| < 800 then t.chars else t.chars[..800];
    client(n, Request(Repair, config.classifierModel, RepairPrompt(context, Complaint(t), quoted)))
  }

  function Charged(kind: Kind, model: string, r: ModelResponse): CallRecord {
    CallRecord(kind, model, r.cost, r.failed)
  }

  /** The calls that asking makes, and whether it stops for the budget or repairs. */
  datatype Course = Course(first: ModelResponse, stopped: bool, second: Option<ModelResponse>)

  function CourseOf(client: Client, config: ClassifyConfig, s: Stats, context: string): Course {
    var first := Question(client, config, |s.calls|, context);
    var once := s.calls + [Charged(Classify, config.classifierModel, first)];
    var stopped := Malformed(first) && OutOfBudget(config.budget, once);
    Course(first, stopped,
           if Malformed(first) && !stopped then Some(Again(client, config, |s.calls| + 1, context, first.text.value))
           else None)
  }

  /** Each reason exactly when the course calls for it; the reply that counts is the second one, if there is one. */
  ghost predicate ReasonIs(config: ClassifyConfig, course: Course, c: Classification) {
    var last := if course.second.Some? then course.second.value else course.first;
    && c.model == config.classifierModel && c.promptVersion == config.promptVersion
    && (c.downgrade.BudgetExhausted? <==> course.stopped)
    && (c.downgrade.ApiError? <==> last.failed)
    && (c.downgrade.SchemaInvalid? <==> !course.stopped && Malformed(last))
    && (c.downgrade.EmptyResponse? <==> !last.failed && last.text.None?)
    && c.downgrade !in {InvalidJson, UnknownCause, Prefiltered, LlmDisabled}
    && (!last.failed && last.text.Some? && !Malformed(last) ==>
      c == ApplyGuardrails(last.text.value.reading.answer, config.floor, config.classifierModel, config.promptVersion))
  }

  /** The calls and counters after it. */
  ghost predicate Charges(config: ClassifyConfig, s: Stats, course: Course, after: Stats) {
    var complained := if Malformed(course.first) then 1 else 0;
    var repaired := course.second.Some? && !course.second.value.failed && !Malformed(course.second.value);
    after == s.(
      calls := s.calls + [Charged(Classify, config.classifierModel, course.first)]
        + (if course.second.Some? then [Charged(Repair, config.classifierModel, course.second.value)] else []),
      schemaFailures := s.schemaFailures + complained, repairsAttempted := s.repairsAttempted + complained,
      repairsSucceeded := s.repairsSucceeded + if repaired then 1 else 0)
  }

  lemma {:induction false} AnswerReasons(client: Client, config: ClassifyConfig, s: Stats, context: string)
    ensures var (after, c) := ClassifiedWithRepair(client, config, s, context);
      var course := CourseOf(client, config, s, context);
      ReasonIs(config, course, c) && Charges(config, s, course, after)
  {
    var first := Question(client, config, |s.calls|, context);
    var once := Called(client, s, Request(Classify, config.classifierModel, ContextPrompt(context))).0;
    assert once.calls + [] == once.calls;
    if !first.failed {
      ParsedIs(config, first);
      BudgetIff(config.budget, once.calls);
      if !Malformed(first) {
        ShapedReasons(config, first);
      } else if !OutOfBudget(config.budget, once.calls) {
        RepairReasons(client, config, CountFailure(once), context, first.text.value);
      }
    }
  }

  /** A reply that needs no repair is empty or judged by the guardrails. */
  lemma {:induction false} ShapedReasons(config: ClassifyConfig, r: ModelResponse)
    requires !r.failed && !Malformed(r)
    ensures var c := Parsed(config, r).0;
      c.model == config.classifierModel && c.promptVersion == config.promptVersion
      && (c.downgrade.EmptyResponse? <==> r.text.None?)
      && c.downgrade in {EmptyResponse, ModelAbstained, NoEvidence, BelowConfidenceFloor, NotDowngraded}
  {
    ParsedIs(config, r);
    if r.text.Some? {
      GuardrailReasons(r.text.value.reading.answer, config.floor, config.classifierModel, config.promptVersion);
    }
  }

  lemma {:induction false} RepairReasons(client: Client, config: ClassifyConfig, s: Stats, context: string, t: Text)
    ensures var (after, c) := Repaired(client, config, s, context, Complaint(t), t.chars);
      var second := Again(client, config, |s.calls|, context, t);
      && after == s.(calls := s.calls + [Charged(Repair, config.classifierModel, second)],
                     repairsSucceeded := after.repairsSucceeded)
      && after.repairsSucceeded == s.repairsSucceeded + (if second.failed || Malformed(second) then 0 else 1)
      && c.model == config.classifierModel && c.promptVersion == config.promptVersion
      && (second.failed ==> c.downgrade.ApiError?)
      && (Malformed(second) ==> c.downgrade.SchemaInvalid?)
      && (!second.failed && second.text.None? ==> c.downgrade.EmptyResponse?)
      && (!second.failed && second.text.Some? && !Malformed(second) ==>
        && c == ApplyGuardrails(second.text.value.reading.answer, config.floor, config.classifierModel,
                                config.promptVersion)
        && c.downgrade in {ModelAbstained, NoEvidence, BelowConfidenceFloor, NotDowngraded})
  {
    var second := Again(client, config, |s.calls|, context, t);
    if |t.chars| == 800 { assert t.chars[..800] == t.chars; }
    if !second.failed {
      ParsedIs(config, second);
      if second.text.Some? && second.text.value.reading.Shaped? {
        GuardrailReasons(second.text.value.reading.answer, config.floor, config.classifierModel, config.promptVersion);
      }
    }
  }

  // ---- the gate ----------------------------------------------------------

  /** Only a readable, explicit no turns a test away; any doubt lets it through. */
  predicate SaysNo(r: ModelResponse) {
    !r.failed && r.text.Some? && r.text.value.chars != "" && r.text.value.verdict == Some(false)
  }

  function GateReply(client: Client, n: nat, gate: string, subject: Subject): ModelResponse {
    client(n, Request(Gate, gate, GatePrompt(subject.gateContext)))
  }

  /** An answer without a cause. */
  predicate NoCause(c: Classification, reason: DowngradeReason, model: string, version: string) {
    && c.cause.Unknown? && c.confidence == 0.0 && c.evidence == [] && c.abstained && c.downgrade == reason
    && c.model == model && c.promptVersion == version
  }

  /** What comes before the question: the budget is checked before the gate, and not again between the gate and the
      question. */
  lemma {:induction false} AskedReasons(client: Client, config: ClassifyConfig, s: Stats, subject: Subject)
    ensures var (after, c) := Asked(client, config, s, subject);
      if OutOfBudget(config.budget, s.calls) then
        && after == s.(budgetExhausted := s.budgetExhausted + 1)
        && NoCause(c, BudgetExhausted, config.classifierModel, config.promptVersion)
      else if config.gateModel.None? then (after, c) == ClassifiedWithRepair(client, config, s, subject.context)
      else
        var gate := config.gateModel.value;
        var reply := GateReply(client, |s.calls|, gate, subject);
        var gated := s.(calls := s.calls + [Charged(Gate, gate, reply)]);
        if SaysNo(reply) then
          after == gated.(prefiltered := s.prefiltered + 1) && NoCause(c, Prefiltered, gate, config.promptVersion)
        else (after, c) == ClassifiedWithRepair(client, config, gated, subject.context)
  {
    BudgetIff(config.budget, s.calls);
  }

  // ---- with the cache ----------------------------------------------------

  ghost predicate Held(st: State, key: string) {
    st.shelf.Some? && st.shelf.value.enabled && key in st.shelf.value.entries
  }

  /** A held answer costs nothing and is counted as a hit; any other subject is asked for, counted as a miss if there is
      a cache, and stored unless it is a passing answer. Without a client nothing is looked up at all. */
  lemma {:induction false} Counted(client: Option<Client>, config: ClassifyConfig, st: State, subject: Subject)
    ensures var (after, c) := Classified(client, config, st, subject);
      var key := KeyOf(config, subject);
      && (client.None? ==> after == st && NoCause(c, LlmDisabled, "", config.promptVersion))
      && (client.Some? && Held(st, key) ==>
        && c == st.shelf.value.entries[key] && after.hitIds == st.hitIds + {subject.identityId}
        && after.stats == st.stats.(cacheHits := st.stats.cacheHits + 1)
        && after.shelf == Some(st.shelf.value.(hits := st.shelf.value.hits + 1)))
      && (client.Some? && !Held(st, key) ==>
        && after.hitIds == st.hitIds && after.stats.cacheHits == st.stats.cacheHits
        && after.stats.cacheMisses == st.stats.cacheMisses + (if st.shelf.Some? then 1 else 0)
        && (st.shelf.None? ==> after.shelf.None?)
        && (st.shelf.Some? && !st.shelf.value.enabled ==> after.shelf == st.shelf)
        && (st.shelf.Some? && st.shelf.value.enabled ==>
          var kept := c.downgrade !in {ApiError, BudgetExhausted, LlmDisabled};
          after.shelf == Some(st.shelf.value.(
            misses := st.shelf.value.misses + 1, writes := st.shelf.value.writes + (if kept then 1 else 0),
            entries := if kept then st.shelf.value.entries[key := c] else st.shelf.value.entries))))
  {
    if client.Some? && !Held(st, KeyOf(config, subject)) {
      AskedCounts(client.value, config, Consult(st, KeyOf(config, subject)).0.stats, subject);
    }
  }

  lemma {:induction false} AskedCounts(client: Client, config: ClassifyConfig, s: Stats, subject: Subject)
    ensures var after := Asked(client, config, s, subject).0;
      after.cacheHits == s.cacheHits && after.cacheMisses == s.cacheMisses
  {
  }

  /** The key is the format, the model identity with its gate, the prompt version and the context, one separator
      between any two. */
  lemma {:induction false} KeyIs(config: ClassifyConfig, subject: Subject)
    ensures var gated := match config.gateModel
                         case None => config.classifierModel
                         case Some(gate) => config.classifierModel + "+gate:" + gate;
      KeyOf(config, subject) ==
        "1" + "\U{001f}" + gated + "\U{001f}" + config.promptVersion + "\U{001f}" + subject.context
  {
  }
}
