/** classify/classifier.py: budgeted, cached, repairing orchestration. The client is an oracle that may answer
    each call as it likes; a call's cost is known only when it returns. */
module Classifying {
  import opened Models
  import opened Guardrails
  import opened Cache

  const SAMPLE_CHARS: nat := 800

  datatype Kind = Gate | Classify | Repair

  datatype Prompt =
    | GatePrompt(text: string)
    | ContextPrompt(context: string)
    | RepairPrompt(context: string, reason: DowngradeReason, sample: string)

  datatype Request = Request(kind: Kind, model: string, prompt: Prompt)

  datatype ModelResponse = ModelResponse(text: Option<Text>, cost: real, failed: bool)

  /** Given the number of calls made before and the request. */
  type Client = (nat, Request) -> ModelResponse

  datatype CallRecord = CallRecord(kind: Kind, model: string, cost: real, failed: bool)

  datatype ClassifyConfig = ClassifyConfig(
    classifierModel: string, gateModel: Option<string>, promptVersion: string, floor: real, budget: real)

  /** A detection with the two prompts assembled from it. */
  datatype Subject = Subject(identityId: nat, flakeRate: real, observations: nat, context: string, gateContext: string)

  datatype Stats = Stats(
    calls: seq<CallRecord>, cacheHits: nat, cacheMisses: nat, prefiltered: nat, repairsAttempted: nat,
    repairsSucceeded: nat, schemaFailures: nat, budgetExhausted: nat)

  // ---- accounting --------------------------------------------------------

  function Spent(calls: seq<CallRecord>): real {
    if calls == [] then 0.0 else Spent(calls[..|calls| - 1]) + calls[|calls| - 1].cost
  }

  function Billed(calls: seq<CallRecord>): seq<CallRecord> {
    if calls == [] then []
    else Billed(calls[..|calls| - 1]) + if calls[|calls| - 1].kind.Gate? then [] else [calls[|calls| - 1]]
  }

  function Mean(total: real, count: nat): real {
    if count == 0 then 0.0 else total / count as real
  }

  function MeanClassifyCost(calls: seq<CallRecord>): real { Mean(Spent(Billed(calls)), |Billed(calls)|) }

  predicate WouldExceedBudget(budget: real, calls: seq<CallRecord>) {
    || Spent(calls) >= budget
    || (MeanClassifyCost(calls) > 0.0 && Spent(calls) + MeanClassifyCost(calls) > budget)
  }

  // ---- one classification, as a function of the state --------------------

  function Called(client: Client, s: Stats, r: Request): (Stats, ModelResponse) {
    var response := client(|s.calls|, r);
    (s.(calls := s.calls + [CallRecord(r.kind, r.model, response.cost, response.failed)]), response)
  }

  /** Any doubt about the gate's answer escalates. */
  predicate Escalates(response: ModelResponse) {
    response.failed || response.text.None? || response.text.value.chars == "" ||
      response.text.value.verdict != Some(false)
  }

  function Sample(chars: string): string {
    if |chars| <= SAMPLE_CHARS then chars else chars[..SAMPLE_CHARS]
  }

  function Parsed(config: ClassifyConfig, response: ModelResponse): (Classification, Option<string>) {
    ParseAndValidate(response.text, config.floor, config.classifierModel, config.promptVersion)
  }

  function Abstained(config: ClassifyConfig, reason: DowngradeReason): Classification {
    Abstain(reason, config.classifierModel, config.promptVersion)
  }

  function RepairRequest(config: ClassifyConfig, context: string, reason: DowngradeReason, malformed: string): Request {
    Request(Repair, config.classifierModel, RepairPrompt(context, reason, Sample(malformed)))
  }

  function Repaired(client: Client, config: ClassifyConfig, s: Stats, context: string, reason: DowngradeReason,
                    malformed: string)
    : (Stats, Classification)
  {
    var (after, response) := Called(client, s, RepairRequest(config, context, reason, malformed));
    if response.failed then (after, Abstained(config, ApiError))
    else
      var (c, stillMalformed) := Parsed(config, response);
      if stillMalformed.None? then (after.(repairsSucceeded := after.repairsSucceeded + 1), c)
      else (after, Abstained(config, SchemaInvalid))
  }

  function CountFailure(s: Stats): Stats {
    s.(schemaFailures := s.schemaFailures + 1, repairsAttempted := s.repairsAttempted + 1)
  }

  function ClassifiedWithRepair(client: Client, config: ClassifyConfig, s: Stats, context: string)
    : (Stats, Classification)
  {
    var (after, response) := Called(client, s, Request(Classify, config.classifierModel, ContextPrompt(context)));
    if response.failed then (after, Abstained(config, ApiError))
    else
      var (c, malformed) := Parsed(config, response);
      if malformed.None? then (after, c)
      else
        var failed := CountFailure(after);
        if WouldExceedBudget(config.budget, failed.calls) then (failed, Abstained(config, BudgetExhausted))
        else Repaired(client, config, failed, context, c.downgrade, malformed.value)
  }

  function GateRequest(config: ClassifyConfig, subject: Subject): Request
    requires config.gateModel.Some?
  {
    Request(Gate, config.gateModel.value, GatePrompt(subject.gateContext))
  }

  /** What is asked of the models once the cache has missed. The budget is checked before the gate, and not
      again between the gate and the classifier. */
  function Asked(client: Client, config: ClassifyConfig, s: Stats, subject: Subject): (Stats, Classification) {
    if WouldExceedBudget(config.budget, s.calls) then
      (s.(budgetExhausted := s.budgetExhausted + 1), Abstained(config, BudgetExhausted))
    else if config.gateModel.None? then ClassifiedWithRepair(client, config, s, subject.context)
    else
      var (gated, response) := Called(client, s, GateRequest(config, subject));
      if Escalates(response) then ClassifiedWithRepair(client, config, gated, subject.context)
      else (gated.(prefiltered := gated.prefiltered + 1),
        Abstain(Prefiltered, config.gateModel.value, config.promptVersion))
  }

  function KeyOf(config: ClassifyConfig, subject: Subject): string {
    ContextKey(subject.context, CacheModelId(config.classifierModel, config.gateModel), config.promptVersion)
  }

  /** The shelf is absent when the classifier was given no cache. */
  datatype State = State(shelf: Option<Shelf>, stats: Stats, hitIds: set<nat>)

  /** Storing a refusal is the same as not storing it: the cache declines it. */
  function Keep(shelf: Option<Shelf>, key: string, c: Classification): Option<Shelf> {
    if shelf.None? then None else Some(Stored(shelf.value, key, c))
  }

  function Consult(st: State, key: string): (State, Option<Classification>) {
    if st.shelf.None? then (st, None)
    else
      var found := Found(st.shelf.value, key);
      var looked := st.(shelf := Some(Looked(st.shelf.value, key)));
      (looked.(stats := if found.Some? then st.stats.(cacheHits := st.stats.cacheHits + 1)
                        else st.stats.(cacheMisses := st.stats.cacheMisses + 1)), found)
  }

  function Classified(client: Option<Client>, config: ClassifyConfig, st: State, subject: Subject)
    : (State, Classification)
  {
    if client.None? then (st, Abstain(LlmDisabled, "", config.promptVersion))
    else
      var (looked, cached) := Consult(st, KeyOf(config, subject));
      if cached.Some? then (looked.(hitIds := looked.hitIds + {subject.identityId}), cached.value)
      else
        var (stats, c) := Asked(client.value, config, looked.stats, subject);
        (State(Keep(looked.shelf, KeyOf(config, subject), c), stats, looked.hitIds), c)
  }

  // ---- a batch -----------------------------------------------------------

  /** Flake rate, then evidence volume, highest first; ties keep their order. */
  predicate MoreUrgent(a: Subject, b: Subject) {
    a.flakeRate > b.flakeRate || (a.flakeRate == b.flakeRate && a.observations >= b.observations)
  }

  function BeyondCap(config: ClassifyConfig): Classification { Abstain(BudgetExhausted, "", config.promptVersion) }

  function Next(client: Option<Client>, config: ClassifyConfig, st: State, subject: Subject, index: nat,
                limit: nat): (State, Classification) {
    if index >= limit then (st, BeyondCap(config)) else Classified(client, config, st, subject)
  }

  /** The answers to the subjects in order; beyond the cap none is asked. */
  function AnswerAll(client: Option<Client>, config: ClassifyConfig, st: State, subjects: seq<Subject>, limit: nat)
    : (r: (State, seq<Classification>))
    ensures |r.1| == |subjects|
  {
    if subjects == [] then (st, [])
    else
      var n := |subjects| - 1;
      var (before, answers) := AnswerAll(client, config, st, subjects[..n], limit);
      var (after, c) := Next(client, config, before, subjects[n], n, limit);
      (after, answers + [c])
  }

  lemma AnswerStep(client: Option<Client>, config: ClassifyConfig, st: State, subjects: seq<Subject>, limit: nat,
                   k: nat)
    requires k < |subjects|
    ensures var before := AnswerAll(client, config, st, subjects[..k], limit);
      var next := Next(client, config, before.0, subjects[k], k, limit);
      AnswerAll(client, config, st, subjects[..k + 1], limit) == (next.0, before.1 + [next.1])
  {
    assert subjects[..k + 1][..k] == subjects[..k];
  }

  function ByIdentity(subjects: seq<Subject>, answers: seq<Classification>): map<nat, Classification>
    requires |subjects| == |answers|
  {
    if subjects == [] then map[]
    else
      var n := |subjects| - 1;
      ByIdentity(subjects[..n], answers[..n])[subjects[n].identityId := answers[n]]
  }

  lemma ByIdentityStep(subjects: seq<Subject>, answers: seq<Classification>, k: nat, c: Classification)
    requires k == |answers| < |subjects|
    ensures ByIdentity(subjects[..k + 1], answers + [c]) ==
      ByIdentity(subjects[..k], answers)[subjects[k].identityId := c]
  {
    assert subjects[..k + 1][..k] == subjects[..k];
    assert (answers + [c])[..k] == answers;
  }
}
