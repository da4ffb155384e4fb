/** The classifier itself: its counters, its call log and its cache, each method tied to its effect on them. */
module Classifier {
  import opened Models
  import opened Guardrails
  import opened Cache
  import opened Classifying
  import Sorting

  class ClassifyStats {
    var calls: seq<CallRecord>
    var cacheHits: nat
    var cacheMisses: nat
    var prefiltered: nat
    var repairsAttempted: nat
    var repairsSucceeded: nat
    var schemaFailures: nat
    var budgetExhausted: nat

    function View(): Stats
      reads this
    {
      Stats(calls, cacheHits, cacheMisses, prefiltered, repairsAttempted, repairsSucceeded, schemaFailures,
        budgetExhausted)
    }

    constructor ()
      ensures View() == Stats([], 0, 0, 0, 0, 0, 0, 0)
    {
      calls := [];
      cacheHits, cacheMisses, prefiltered, repairsAttempted := 0, 0, 0, 0;
      repairsSucceeded, schemaFailures, budgetExhausted := 0, 0, 0;
    }
  }

  class Classifier {
    const client: Option<Client>
    const config: ClassifyConfig
    const cache: ClassificationCache?
    const stats: ClassifyStats
    var cacheHitIds: set<nat>

    constructor (client: Option<Client>, config: ClassifyConfig, cache: ClassificationCache?)
      ensures this.client == client && this.config == config && this.cache == cache
      ensures fresh(stats)
      ensures View() == State(if cache == null then None else Some(cache.View()), Stats([], 0, 0, 0, 0, 0, 0, 0), {})
    {
      this.client, this.config, this.cache := client, config, cache;
      cacheHitIds := {};
      var counters := new ClassifyStats();
      stats := counters;
    }

    function Frame(): set<object> { if cache == null then {this, stats} else {this, stats, cache} }

    function View(): State
      reads Frame()
    {
      State(if cache == null then None else Some(cache.View()), stats.View(), cacheHitIds)
    }

    /** Make one call and record it. */
    method Call(request: Request) returns (response: ModelResponse)
      requires client.Some?
      modifies stats
      ensures (stats.View(), response) == Called(client.value, old(stats.View()), request)
    {
      response := client.value(|stats.calls|, request);
      stats.calls := stats.calls + [CallRecord(request.kind, request.model, response.cost, response.failed)];
    }

    /** Whether the gate lets the subject through. */
    method Prefilter(subject: Subject) returns (escalate: bool)
      requires client.Some? && config.gateModel.Some?
      modifies stats
      ensures var (after, response) := Called(client.value, old(stats.View()), GateRequest(config, subject));
        stats.View() == after && escalate == Escalates(response)
    {
      var response := Call(GateRequest(config, subject));
      if response.failed || response.text.None? || response.text.value.chars == "" {
        return true;
      }
      escalate := response.text.value.verdict != Some(false);
    }

    method RepairOnce(context: string, reason: DowngradeReason, malformed: string) returns (c: Classification)
      requires client.Some?
      modifies stats
      ensures (stats.View(), c) == Repaired(client.value, config, old(stats.View()), context, reason, malformed)
    {
      var response := Call(RepairRequest(config, context, reason, malformed));
      if response.failed {
        return Abstained(config, ApiError);
      }
      var (repaired, stillMalformed) := Parsed(config, response);
      if stillMalformed.None? {
        stats.repairsSucceeded := stats.repairsSucceeded + 1;
        return repaired;
      }
      c := Abstained(config, SchemaInvalid);
    }

    method ClassifyWithRepair(context: string) returns (c: Classification)
      requires client.Some?
      modifies stats
      ensures (stats.View(), c) == ClassifiedWithRepair(client.value, config, old(stats.View()), context)
    {
      var response := Call(Request(Classify, config.classifierModel, ContextPrompt(context)));
      if response.failed {
        return Abstained(config, ApiError);
      }
      var (first, malformed) := Parsed(config, response);
      if malformed.None? {
        return first;
      }
      stats.schemaFailures := stats.schemaFailures + 1;
      stats.repairsAttempted := stats.repairsAttempted + 1;
      if WouldExceedBudget(config.budget, stats.calls) {
        return Abstained(config, BudgetExhausted);
      }
      c := RepairOnce(context, first.downgrade, malformed.value);
    }

    /** The budget check, the gate and the classification, after a cache miss. */
    method Ask(subject: Subject) returns (c: Classification)
      requires client.Some?
      modifies stats
      ensures (stats.View(), c) == Asked(client.value, config, old(stats.View()), subject)
    {
      if WouldExceedBudget(config.budget, stats.calls) {
        stats.budgetExhausted := stats.budgetExhausted + 1;
        return Abstained(config, BudgetExhausted);
      }
      if config.gateModel.Some? {
        var escalate := Prefilter(subject);
        if !escalate {
          stats.prefiltered := stats.prefiltered + 1;
          return Abstain(Prefiltered, config.gateModel.value, config.promptVersion);
        }
      }
      c := ClassifyWithRepair(subject.context);
    }

    method Remember(key: string, c: Classification)
      modifies Frame() - {this, stats}
      ensures View() == old(View()).(shelf := Keep(old(View()).shelf, key, c))
    {
      if cache != null {
        cache.Put(key, c);
      }
    }

    method Lookup(key: string) returns (cached: Option<Classification>)
      modifies Frame() - {this}
      ensures (View(), cached) == Consult(old(View()), key)
    {
      cached := None;
      if cache != null {
        cached := cache.Get(key);
        if cached.Some? {
          stats.cacheHits := stats.cacheHits + 1;
        } else {
          stats.cacheMisses := stats.cacheMisses + 1;
        }
      }
    }

    method ClassifyOne(subject: Subject) returns (c: Classification)
      modifies Frame()
      ensures (View(), c) == Classified(client, config, old(View()), subject)
    {
      if client.None? {
        return Abstain(LlmDisabled, "", config.promptVersion);
      }
      var key := KeyOf(config, subject);
      var cached := Lookup(key);
      if cached.Some? {
        cacheHitIds := cacheHitIds + {subject.identityId};
        return cached.value;
      }
      c := Ask(subject);
      Remember(key, c);
    }

    method AnswerNext(subject: Subject, index: nat, limit: nat) returns (c: Classification)
      modifies Frame()
      ensures (View(), c) == Next(client, config, old(View()), subject, index, limit)
    {
      if index >= limit {
        return BeyondCap(config);
      }
      c := ClassifyOne(subject);
    }

    /** A batch: the most urgent first, the rest as explicit abstentions. */
    method ClassifyMany(subjects: seq<Subject>, limit: nat) returns (results: map<nat, Classification>)
      modifies Frame()
      ensures var ordered := Sorting.SortBy(subjects, MoreUrgent);
        var (after, answers) := AnswerAll(client, config, old(View()), ordered, limit);
        View() == after && results == ByIdentity(ordered, answers)
    {
      var ordered := Sorting.SortBy(subjects, MoreUrgent);
      results := map[];
      ghost var start := View();
      ghost var answers := [];
      for k := 0 to |ordered|
        invariant (View(), answers) == AnswerAll(client, config, start, ordered[..k], limit)
        invariant results == ByIdentity(ordered[..k], answers)
      {
        AnswerStep(client, config, start, ordered, limit, k);
        var c := AnswerNext(ordered[k], k, limit);
        ByIdentityStep(ordered, answers, k, c);
        answers := answers + [c];
        results := results[ordered[k].identityId := c];
      }
      assert ordered[..|ordered|] == ordered;
    }
  }
}
