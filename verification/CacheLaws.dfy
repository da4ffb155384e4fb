/** What holds of every result of every run, and why the cache cannot be noticed in the answers. */
module CacheLaws {
  import opened Models
  import opened Guardrails
  import opened Cache
  import opened Classifying
  import Sorting

  // ---- guardrails hold on every result, fresh or cached ------------------

  /** Entries are never transient abstentions, and were trusted when stored. */
  ghost predicate EntriesOk(entries: map<string, Classification>, floor: real) {
    forall key :: key in entries ==> Cacheable(entries[key]) && Trusted(entries[key], floor)
  }

  ghost predicate ShelfOk(shelf: Option<Shelf>, floor: real) {
    shelf.Some? ==> EntriesOk(shelf.value.entries, floor)
  }

  /** Entries are never replaced or dropped in a run. */
  ghost predicate Grows(a: Option<Shelf>, b: Option<Shelf>) {
    && (a.Some? <==> b.Some?)
    && (a.Some? ==> a.value.enabled == b.value.enabled)
    && (a.Some? ==> forall key :: key in a.value.entries ==>
      key in b.value.entries && b.value.entries[key] == a.value.entries[key])
  }

  lemma {:induction false} ReplyIsTrusted(config: ClassifyConfig, response: ModelResponse)
    ensures Trusted(Parsed(config, response).0, config.floor)
  {
    ParsedIsTrusted(response.text, config.floor, config.classifierModel, config.promptVersion);
  }

  lemma {:induction false} RepairedIsTrusted(client: Client, config: ClassifyConfig, s: Stats, context: string,
                                             reason: DowngradeReason, malformed: string)
    ensures Trusted(Repaired(client, config, s, context, reason, malformed).1, config.floor)
  {
    ReplyIsTrusted(config, Called(client, s, RepairRequest(config, context, reason, malformed)).1);
  }

  lemma {:induction false} WithRepairIsTrusted(client: Client, config: ClassifyConfig, s: Stats, context: string)
    ensures Trusted(ClassifiedWithRepair(client, config, s, context).1, config.floor)
  {
    var (after, response) := Called(client, s, Request(Classify, config.classifierModel, ContextPrompt(context)));
    ReplyIsTrusted(config, response);
    var (c, malformed) := Parsed(config, response);
    if malformed.Some? {
      var counted := CountFailure(after);
      RepairedIsTrusted(client, config, counted, context, c.downgrade, malformed.value);
    }
  }

  lemma {:induction false} AskedIsTrusted(client: Client, config: ClassifyConfig, s: Stats, subject: Subject)
    ensures Trusted(Asked(client, config, s, subject).1, config.floor)
  {
    if config.gateModel.None? {
      WithRepairIsTrusted(client, config, s, subject.context);
    } else {
      WithRepairIsTrusted(client, config, Called(client, s, GateRequest(config, subject)).0, subject.context);
    }
  }

  lemma {:induction false} ClassifiedIsTrusted(client: Option<Client>, config: ClassifyConfig, st: State,
                                               subject: Subject, floor: real)
    requires floor <= config.floor && ShelfOk(st.shelf, floor)
    ensures var (after, c) := Classified(client, config, st, subject);
      Trusted(c, floor) && ShelfOk(after.shelf, floor) && Grows(st.shelf, after.shelf)
  {
    if client.Some? {
      AskedIsTrusted(client.value, config, Consult(st, KeyOf(config, subject)).0.stats, subject);
    }
  }

  /** For any client, prices and order: every result is trusted at the lowest floor the cache has been filled under,
      and the cache stays so, never holding a transient abstention and never changing an entry. */
  lemma {:induction false} EveryResultIsTrusted(client: Option<Client>, config: ClassifyConfig, st: State,
                                                subjects: seq<Subject>, limit: nat, floor: real)
    requires floor <= config.floor && ShelfOk(st.shelf, floor)
    ensures var (after, answers) := AnswerAll(client, config, st, subjects, limit);
      && (forall i :: 0 <= i < |answers| ==> Trusted(answers[i], floor))
      && ShelfOk(after.shelf, floor) && Grows(st.shelf, after.shelf)
  {
    if subjects != [] {
      var n := |subjects| - 1;
      EveryResultIsTrusted(client, config, st, subjects[..n], limit, floor);
      var before := AnswerAll(client, config, st, subjects[..n], limit).0;
      ClassifiedIsTrusted(client, config, before, subjects[n], floor);
      AbstainIsTrusted(BudgetExhausted, floor, "", config.promptVersion);
    }
  }

  // ---- when a result meets the floor now in force ------------------------

  /** The cache would answer the subject with an entry that does not meet the floor. */
  ghost predicate Stale(shelf: Option<Shelf>, config: ClassifyConfig, subject: Subject) {
    && shelf.Some?
    && Found(shelf.value, KeyOf(config, subject)).Some?
    && !Trusted(Found(shelf.value, KeyOf(config, subject)).value, config.floor)
  }

  /** Every entry was there at the start or meets the floor, and nothing that was there is gone. */
  ghost predicate FreshOnTop(start: Option<Shelf>, now: Option<Shelf>, floor: real) {
    && Grows(start, now)
    && (now.Some? ==>
      forall key :: key in now.value.entries && key !in start.value.entries ==> Trusted(now.value.entries[key], floor))
  }

  lemma {:induction false} ClassifiedOnTop(client: Client, config: ClassifyConfig, start: Option<Shelf>, st: State,
                                           subject: Subject)
    requires FreshOnTop(start, st.shelf, config.floor)
    ensures var (after, c) := Classified(Some(client), config, st, subject);
      && FreshOnTop(start, after.shelf, config.floor)
      && (Trusted(c, config.floor) <==> !Stale(start, config, subject))
  {
    AskedIsTrusted(client, config, Consult(st, KeyOf(config, subject)).0.stats, subject);
  }

  /** Within the cap, an answer meets the floor exactly when its subject is not stale. */
  ghost predicate FloorMet(answers: seq<Classification>, start: Option<Shelf>, config: ClassifyConfig,
                           subjects: seq<Subject>, limit: nat) {
    |answers| <= |subjects| &&
    forall i :: 0 <= i < |answers| && i < limit ==>
      (Trusted(answers[i], config.floor) <==> !Stale(start, config, subjects[i]))
  }

  lemma {:induction false} FloorSnoc(answers: seq<Classification>, c: Classification, start: Option<Shelf>,
                                     config: ClassifyConfig, subjects: seq<Subject>, limit: nat)
    requires FloorMet(answers, start, config, subjects, limit) && |answers| < |subjects|
    requires |answers| < limit ==> (Trusted(c, config.floor) <==> !Stale(start, config, subjects[|answers|]))
    ensures FloorMet(answers + [c], start, config, subjects, limit)
  {
  }

  lemma {:induction false} NextOnTop(client: Client, config: ClassifyConfig, start: Option<Shelf>, st: State,
                                     subject: Subject, i: nat, limit: nat)
    requires FreshOnTop(start, st.shelf, config.floor)
    ensures var (after, c) := Next(Some(client), config, st, subject, i, limit);
      && FreshOnTop(start, after.shelf, config.floor)
      && (i < limit ==> (Trusted(c, config.floor) <==> !Stale(start, config, subject)))
  {
    ClassifiedOnTop(client, config, start, st, subject);
  }

  /** What holds after the first `n` subjects. */
  ghost predicate OnTop(client: Client, config: ClassifyConfig, st: State, subjects: seq<Subject>, limit: nat, n: nat)
    requires n <= |subjects|
  {
    var run := AnswerAll(Some(client), config, st, subjects[..n], limit);
    FreshOnTop(st.shelf, run.0.shelf, config.floor) && FloorMet(run.1, st.shelf, config, subjects, limit)
  }

  lemma {:induction false} OnTopStep(client: Client, config: ClassifyConfig, st: State, subjects: seq<Subject>,
                                     limit: nat, n: nat)
    requires n < |subjects| && OnTop(client, config, st, subjects, limit, n)
    ensures OnTop(client, config, st, subjects, limit, n + 1)
  {
    var run := AnswerAll(Some(client), config, st, subjects[..n], limit);
    NextOnTop(client, config, st.shelf, run.0, subjects[n], n, limit);
    AnswerStep(Some(client), config, st, subjects, limit, n);
    FloorSnoc(run.1, Next(Some(client), config, run.0, subjects[n], n, limit).1, st.shelf, config, subjects, limit);
  }

  lemma {:induction false} StaysOnTop(client: Client, config: ClassifyConfig, st: State, subjects: seq<Subject>,
                                      limit: nat, n: nat)
    requires n <= |subjects|
    ensures OnTop(client, config, st, subjects, limit, n)
  {
    if n > 0 {
      StaysOnTop(client, config, st, subjects, limit, n - 1);
      OnTopStep(client, config, st, subjects, limit, n - 1);
    }
  }

  /** Whatever the cache was filled under and whatever the client does: an answer meets the floor in force if and
      only if the cache did not hold, from the start, an entry for its subject that does not. */
  lemma {:induction false} MeetsFloorIff(client: Client, config: ClassifyConfig, st: State, subjects: seq<Subject>,
                                         limit: nat, i: nat)
    requires i < |subjects| && i < limit
    ensures Trusted(AnswerAll(Some(client), config, st, subjects, limit).1[i], config.floor) <==>
      !Stale(st.shelf, config, subjects[i])
  {
    StaysOnTop(client, config, st, subjects, limit, |subjects|);
    assert subjects[..|subjects|] == subjects;
  }

  /** A result stored at a confidence of 0.6 under a floor of 0.55, served when the floor has been raised to 0.8. */
  lemma {:induction false} RaisedFloorServesStale(client: Client, config: ClassifyConfig, subject: Subject, limit: nat)
    returns (st: State)
    requires config.floor == 0.8 && limit > 0
    ensures st.shelf.Some? && EntriesOk(st.shelf.value.entries, 0.55)
    ensures !Trusted(AnswerAll(Some(client), config, st, [subject], limit).1[0], config.floor)
  {
    var c := Classification(RaceCondition, 0.6, ["x"], false, NotDowngraded, config.classifierModel,
      config.promptVersion);
    assert !IsSpace("x"[0]);
    assert Citable("x");
    var shelf := Shelf(true, map[KeyOf(config, subject) := c], 0, 0, 0);
    st := State(Some(shelf), Stats([], 0, 0, 0, 0, 0, 0, 0), {});
    MeetsFloorIff(client, config, st, [subject], limit, 0);
  }

  // ---- every classification is accounted for -----------------------------

  function CallsOf(calls: seq<CallRecord>, kind: Kind): nat {
    if calls == [] then 0 else CallsOf(calls[..|calls| - 1], kind) + if calls[|calls| - 1].kind == kind then 1 else 0
  }

  /** Classifications settled so far: served, refused over budget, turned away by the gate, or put to the classifier. */
  function Settled(s: Stats): nat { s.cacheHits + s.budgetExhausted + s.prefiltered + CallsOf(s.calls, Classify) }

  /** Repairs are counted once each, and only a second call can succeed. */
  predicate Balanced(s: Stats) {
    && s.repairsSucceeded <= CallsOf(s.calls, Repair) <= s.repairsAttempted <= CallsOf(s.calls, Classify)
    && s.schemaFailures == s.repairsAttempted
  }

  lemma {:induction false} CalledCounts(client: Client, s: Stats, r: Request, kind: Kind)
    ensures CallsOf(Called(client, s, r).0.calls, kind) == CallsOf(s.calls, kind) + if r.kind == kind then 1 else 0
  {
    assert Called(client, s, r).0.calls[..|s.calls|] == s.calls;
  }

  lemma {:induction false} RepairedSettles(client: Client, config: ClassifyConfig, s: Stats, context: string,
                                           reason: DowngradeReason, malformed: string)
    requires CallsOf(s.calls, Repair) < s.repairsAttempted <= CallsOf(s.calls, Classify)
    requires s.repairsSucceeded <= CallsOf(s.calls, Repair) && s.schemaFailures == s.repairsAttempted
    ensures var after := Repaired(client, config, s, context, reason, malformed).0;
      Balanced(after) && Settled(after) == Settled(s)
  {
    CalledCounts(client, s, RepairRequest(config, context, reason, malformed), Repair);
    CalledCounts(client, s, RepairRequest(config, context, reason, malformed), Classify);
  }

  /** What a first call leaves for the repair: one more classification, and nothing repaired yet. */
  lemma {:induction false} FirstCallSettles(client: Client, config: ClassifyConfig, s: Stats, context: string)
    requires Balanced(s)
    ensures var after := Called(client, s, Request(Classify, config.classifierModel, ContextPrompt(context))).0;
      Balanced(after) && Settled(after) == Settled(s) + 1 &&
        CallsOf(after.calls, Repair) < CallsOf(after.calls, Classify)
      && after.repairsAttempted < CallsOf(after.calls, Classify)
  {
    var request := Request(Classify, config.classifierModel, ContextPrompt(context));
    CalledCounts(client, s, request, Repair);
    CalledCounts(client, s, request, Classify);
  }

  lemma {:induction false} WithRepairSettles(client: Client, config: ClassifyConfig, s: Stats, context: string)
    requires Balanced(s)
    ensures var after := ClassifiedWithRepair(client, config, s, context).0;
      Balanced(after) && Settled(after) == Settled(s) + 1
  {
    FirstCallSettles(client, config, s, context);
    var (after, response) := Called(client, s, Request(Classify, config.classifierModel, ContextPrompt(context)));
    var (c, malformed) := Parsed(config, response);
    if !response.failed {
      if malformed.Some? {
        var counted := CountFailure(after);
        assert counted.calls == after.calls && Settled(counted) == Settled(after);
        RepairedSettles(client, config, counted, context, c.downgrade, malformed.value);
      }
    }
  }

  lemma {:induction false} SameCountsKeep(a: Stats, b: Stats)
    requires Balanced(a) && b.(calls := a.calls) == a
    requires CallsOf(b.calls, Repair) == CallsOf(a.calls, Repair)
    requires CallsOf(b.calls, Classify) == CallsOf(a.calls, Classify)
    ensures Balanced(b) && Settled(b) == Settled(a)
  {
  }

  lemma {:induction false} GateCallKeeps(client: Client, config: ClassifyConfig, s: Stats, subject: Subject)
    requires Balanced(s) && config.gateModel.Some?
    ensures var after := Called(client, s, GateRequest(config, subject)).0;
      Balanced(after) && Settled(after) == Settled(s)
  {
    CalledCounts(client, s, GateRequest(config, subject), Repair);
    CalledCounts(client, s, GateRequest(config, subject), Classify);
    SameCountsKeep(s, Called(client, s, GateRequest(config, subject)).0);
  }

  lemma {:induction false} AskedSettles(client: Client, config: ClassifyConfig, s: Stats, subject: Subject)
    requires Balanced(s)
    ensures var after := Asked(client, config, s, subject).0; Balanced(after) && Settled(after) == Settled(s) + 1
  {
    if config.gateModel.None? {
      WithRepairSettles(client, config, s, subject.context);
    } else {
      GateCallKeeps(client, config, s, subject);
      WithRepairSettles(client, config, Called(client, s, GateRequest(config, subject)).0, subject.context);
    }
  }

  /** Each subject within the cap ends in exactly one of the four ways, and no repair is counted without a call. */
  lemma {:induction false} EverySubjectSettlesOnce(client: Client, config: ClassifyConfig, st: State,
                                                   subjects: seq<Subject>, limit: nat)
    requires Balanced(st.stats)
    ensures var after := AnswerAll(Some(client), config, st, subjects, limit).0.stats;
      && Balanced(after)
      && Settled(after) == Settled(st.stats) + if |subjects| <= limit then |subjects| else limit
  {
    if subjects != [] {
      var n := |subjects| - 1;
      EverySubjectSettlesOnce(client, config, st, subjects[..n], limit);
      var before := AnswerAll(Some(client), config, st, subjects[..n], limit).0;
      if n < limit { AskedSettles(client, config, Consult(before, KeyOf(config, subjects[n])).0.stats, subjects[n]); }
    }
  }

  // ---- batches -----------------------------------------------------------

  lemma {:induction false} IdentitiesAnswered(subjects: seq<Subject>, answers: seq<Classification>, id: nat)
    requires |subjects| == |answers|
    ensures id in ByIdentity(subjects, answers) <==> exists x :: x in subjects && x.identityId == id
  {
    if subjects != [] {
      var n := |subjects| - 1;
      IdentitiesAnswered(subjects[..n], answers[..n], id);
      assert subjects == subjects[..n] + [subjects[n]];
    }
  }

  lemma {:induction false} BeyondCapIsExplicit(client: Option<Client>, config: ClassifyConfig, st: State,
                                               subjects: seq<Subject>, limit: nat, j: nat)
    requires limit <= j < |subjects|
    ensures AnswerAll(client, config, st, subjects, limit).1[j] == BeyondCap(config)
  {
    var n := |subjects| - 1;
    if j < n { BeyondCapIsExplicit(client, config, st, subjects[..n], limit, j); }
  }

  /** Subject `i` is asked, in the state the ones before it left. */
  ghost predicate AskedAt(client: Option<Client>, config: ClassifyConfig, st: State, subjects: seq<Subject>, limit: nat,
                          i: nat)
    requires i < |subjects|
  {
    AnswerAll(client, config, st, subjects, limit).1[i] ==
      Classified(client, config, AnswerAll(client, config, st, subjects[..i], limit).0, subjects[i]).1
  }

  lemma {:induction false} AskedLast(client: Option<Client>, config: ClassifyConfig, st: State, subjects: seq<Subject>,
                                     limit: nat)
    requires subjects != [] && |subjects| <= limit
    ensures AskedAt(client, config, st, subjects, limit, |subjects| - 1)
  {
  }

  lemma {:induction false} AskedEarlier(client: Option<Client>, config: ClassifyConfig, st: State,
                                        before: seq<Subject>, subjects: seq<Subject>, limit: nat, i: nat)
    requires subjects != [] && before == subjects[..|subjects| - 1] && i < |before|
    requires AskedAt(client, config, st, before, limit, i)
    ensures AskedAt(client, config, st, subjects, limit, i)
  {
    assert before[..i] == subjects[..i];
  }

  /** Every subject within the cap is. */
  lemma {:induction false} WithinCapIsAsked(client: Option<Client>, config: ClassifyConfig, st: State,
                                            subjects: seq<Subject>, limit: nat, i: nat)
    requires i < |subjects| && i < limit
    ensures AskedAt(client, config, st, subjects, limit, i)
    decreases |subjects|
  {
    if i == |subjects| - 1 {
      AskedLast(client, config, st, subjects, limit);
    } else {
      var before := subjects[..|subjects| - 1];
      WithinCapIsAsked(client, config, st, before, limit, i);
      AskedEarlier(client, config, st, before, subjects, limit, i);
    }
  }

  /** The batch gives each identity the answer to the last subject that has it. */
  lemma {:induction false} AnswersByIdentity(subjects: seq<Subject>, answers: seq<Classification>, i: nat)
    requires |subjects| == |answers| && i < |subjects|
    requires forall j :: i < j < |subjects| ==> subjects[j].identityId != subjects[i].identityId
    ensures subjects[i].identityId in ByIdentity(subjects, answers)
    ensures ByIdentity(subjects, answers)[subjects[i].identityId] == answers[i]
    decreases |subjects|
  {
    var n := |subjects| - 1;
    if i < n {
      assert subjects[n].identityId != subjects[i].identityId;
      assert forall j :: i < j < n ==> subjects[..n][j] == subjects[j];
      AnswersByIdentity(subjects[..n], answers[..n], i);
    }
  }

  lemma {:induction false} UrgencyRanks(subjects: seq<Subject>)
    ensures Sorting.Ranks(multiset(subjects), MoreUrgent)
  {
  }

  /** A batch answers every identity it was given and no other. */
  lemma {:induction false} BatchIsComplete(subjects: seq<Subject>, answers: seq<Classification>, id: nat)
    requires |answers| == |Sorting.SortBy(subjects, MoreUrgent)|
    ensures id in ByIdentity(Sorting.SortBy(subjects, MoreUrgent), answers) <==>
      exists x :: x in subjects && x.identityId == id
  {
    var ordered := Sorting.SortBy(subjects, MoreUrgent);
    Sorting.SortElements(subjects, MoreUrgent);
    Sorting.SameElements(ordered, subjects);
    IdentitiesAnswered(ordered, answers, id);
  }

  predicate EquallyUrgent(a: Subject, flakeRate: real, observations: nat) {
    a.flakeRate == flakeRate && a.observations == observations
  }

  /** Equally urgent subjects are asked in the order they came. */
  lemma {:induction false} TiesKeepOrder(subjects: seq<Subject>, flakeRate: real, observations: nat)
    ensures var same := (a: Subject) => EquallyUrgent(a, flakeRate, observations);
      Sorting.Only(Sorting.SortBy(subjects, MoreUrgent), same) == Sorting.Only(subjects, same)
  {
    UrgencyRanks(subjects);
    Sorting.SortIsStable(subjects, MoreUrgent, (a: Subject) => EquallyUrgent(a, flakeRate, observations));
  }

  /** What the cap leaves out is said to be left out, and is no more urgent than anything that was asked. */
  lemma {:induction false} UrgentFirst(client: Option<Client>, config: ClassifyConfig, st: State,
                                       subjects: seq<Subject>, limit: nat, i: nat, j: nat)
    requires i < limit <= j < |Sorting.SortBy(subjects, MoreUrgent)|
    ensures var ordered := Sorting.SortBy(subjects, MoreUrgent);
      && (ordered[i].flakeRate > ordered[j].flakeRate
          || (ordered[i].flakeRate == ordered[j].flakeRate && ordered[i].observations >= ordered[j].observations))
      && (var left := AnswerAll(client, config, st, ordered, limit).1[j];
          left.cause.Unknown? && left.abstained && left.downgrade.BudgetExhausted? && left.evidence == []
          && left.promptVersion == config.promptVersion)
  {
    UrgencyRanks(subjects);
    Sorting.SortBySorts(subjects, MoreUrgent);
    Sorting.SortedIndex(Sorting.SortBy(subjects, MoreUrgent), MoreUrgent, i, j);
    BeyondCapIsExplicit(client, config, st, Sorting.SortBy(subjects, MoreUrgent), limit, j);
  }
}
