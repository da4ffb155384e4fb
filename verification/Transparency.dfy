/** The cache changes what is paid, never what is answered. */
module Transparency {
  import opened Models
  import opened Guardrails
  import opened Cache
  import opened Classifying
  import opened SpendLaws

  /** The answer depends on the request alone. */
  ghost predicate Functional(client: Client) {
    forall n, r :: client(n, r) == client(0, r)
  }

  // ---- the answer with no budget, no cache and no counters ---------------

  function Reply(client: Client, r: Request): ModelResponse { client(0, r) }

  function FirstRequest(config: ClassifyConfig, context: string): Request {
    Request(Classify, config.classifierModel, ContextPrompt(context))
  }

  function SecondAnswer(client: Client, config: ClassifyConfig, r: Request): Classification {
    var response := Reply(client, r);
    if response.failed then Abstained(config, ApiError)
    else if Parsed(config, response).1.None? then Parsed(config, response).0
    else Abstained(config, SchemaInvalid)
  }

  /** The repair that a malformed first reply leads to. */
  function SecondRequest(client: Client, config: ClassifyConfig, context: string): Option<Request> {
    var response := Reply(client, FirstRequest(config, context));
    if response.failed || Parsed(config, response).1.None? then None
    else Some(RepairRequest(config, context, Parsed(config, response).0.downgrade, Parsed(config, response).1.value))
  }

  predicate LetIn(client: Client, config: ClassifyConfig, subject: Subject) {
    config.gateModel.None? || Escalates(Reply(client, GateRequest(config, subject)))
  }

  function AskAnswer(client: Client, config: ClassifyConfig, context: string): Classification {
    var response := Reply(client, FirstRequest(config, context));
    if response.failed then Abstained(config, ApiError)
    else
      match SecondRequest(client, config, context)
      case None => Parsed(config, response).0
      case Some(r) => SecondAnswer(client, config, r)
  }

  function IdealAnswer(client: Client, config: ClassifyConfig, subject: Subject): Classification {
    if LetIn(client, config, subject) then AskAnswer(client, config, subject.context)
    else Abstain(Prefiltered, config.gateModel.value, config.promptVersion)
  }

  function AskCost(client: Client, config: ClassifyConfig, context: string): real {
    Reply(client, FirstRequest(config, context)).cost
    + match SecondRequest(client, config, context) case None => 0.0 case Some(r) => Reply(client, r).cost
  }

  function IdealCost(client: Client, config: ClassifyConfig, subject: Subject): real {
    (if config.gateModel.None? then 0.0 else Reply(client, GateRequest(config, subject)).cost)
    + if LetIn(client, config, subject) then AskCost(client, config, subject.context) else 0.0
  }

  // ---- an ample budget never bites ---------------------------------------

  ghost predicate CallsPriced(calls: seq<CallRecord>, gateCap: real, callCap: real) {
    forall i :: 0 <= i < |calls| ==> 0.0 <= calls[i].cost <= if calls[i].kind.Gate? then gateCap else callCap
  }

  lemma {:induction false} SpentSnoc(calls: seq<CallRecord>, call: CallRecord)
    ensures Spent(calls + [call]) == Spent(calls) + call.cost
  {
    assert (calls + [call])[..|calls|] == calls;
  }

  lemma {:induction false} BilledSnoc(calls: seq<CallRecord>)
    requires calls != []
    ensures var n := |calls| - 1; Billed(calls) == Billed(calls[..n]) + if calls[n].kind.Gate? then [] else [calls[n]]
    ensures
      var n := |calls| - 1;
      Spent(Billed(calls)) == Spent(Billed(calls[..n])) + if calls[n].kind.Gate? then 0.0 else calls[n].cost
  {
    var n := |calls| - 1;
    var before := Billed(calls[..n]);
    if calls[n].kind.Gate? { assert before + [] == before; } else { SpentSnoc(before, calls[n]); }
  }

  lemma {:induction false} BilledBelow(calls: seq<CallRecord>, gateCap: real, callCap: real)
    requires CallsPriced(calls, gateCap, callCap)
    ensures Spent(Billed(calls)) <= Times(|Billed(calls)|, callCap)
  {
    if calls != [] {
      BilledBelow(calls[..|calls| - 1], gateCap, callCap);
      BilledSnoc(calls);
    }
  }

  lemma {:induction false} MeanBelow(total: real, count: nat, cap: real)
    requires total <= Times(count, cap) && cap >= 0.0
    ensures Mean(total, count) <= cap
  {
    TimesIsProduct(count, cap);
    if count > 0 { DivideBelow(total, count as real, cap); }
  }

  lemma {:induction false} DivideBelow(total: real, k: real, cap: real)
    requires k > 0.0 && total <= k * cap
    ensures total / k <= cap
  {
    var mean := total / k;
    assert mean * k == total;
    if mean > cap { Greater(mean, cap, k); }
  }

  lemma {:induction false} Greater(a: real, b: real, k: real)
    requires a > b && k > 0.0
    ensures k * a > k * b
  {
  }

  lemma {:induction false} RoomForOneMore(config: ClassifyConfig, calls: seq<CallRecord>, gateCap: real, callCap: real)
    requires CallsPriced(calls, gateCap, callCap) && callCap >= 0.0 && Spent(calls) + callCap < config.budget
    ensures !WouldExceedBudget(config.budget, calls)
  {
    BilledBelow(calls, gateCap, callCap);
    MeanBelow(Spent(Billed(calls)), |Billed(calls)|, callCap);
  }

  /** The caps are prices of a functional client, and what it has been paid so far respects them. */
  ghost predicate Regular(client: Client, gateCap: real, callCap: real, calls: seq<CallRecord>) {
    Functional(client) && Priced(client, gateCap, callCap) && gateCap >= 0.0 && callCap >= 0.0 &&
      CallsPriced(calls, gateCap, callCap)
  }

  lemma {:induction false} CalledRegular(client: Client, s: Stats, r: Request, gateCap: real, callCap: real)
    requires Regular(client, gateCap, callCap, s.calls)
    ensures var (after, response) := Called(client, s, r);
      && response == Reply(client, r) && Regular(client, gateCap, callCap, after.calls)
      && Spent(after.calls) == Spent(s.calls) + Reply(client, r).cost
      && 0.0 <= Reply(client, r).cost <= if r.kind.Gate? then gateCap else callCap
  {
    CalledSpends(client, s, r);
    assert client(|s.calls|, r) == client(0, r);
  }

  lemma {:induction false} RepairedAnswer(client: Client, config: ClassifyConfig, s: Stats, context: string,
                                          reason: DowngradeReason, malformed: string)
    requires Functional(client)
    ensures var r := RepairRequest(config, context, reason, malformed);
      var (after, c) := Repaired(client, config, s, context, reason, malformed);
      c == SecondAnswer(client, config, r) && after.calls == Called(client, s, r).0.calls
  {
    assert client(|s.calls|, RepairRequest(config, context, reason, malformed))
      == client(0, RepairRequest(config, context, reason, malformed));
  }

  lemma {:induction false} RepairedIsIdeal(client: Client, config: ClassifyConfig, s: Stats, context: string,
                                           reason: DowngradeReason, malformed: string, gateCap: real, callCap: real)
    requires Regular(client, gateCap, callCap, s.calls)
    ensures var r := RepairRequest(config, context, reason, malformed);
      var (after, c) := Repaired(client, config, s, context, reason, malformed);
      && c == SecondAnswer(client, config, r)
      && Regular(client, gateCap, callCap, after.calls)
      && Spent(after.calls) == Spent(s.calls) + Reply(client, r).cost
      && 0.0 <= Reply(client, r).cost <= callCap
  {
    RepairedAnswer(client, config, s, context, reason, malformed);
    CalledRegular(client, s, RepairRequest(config, context, reason, malformed), gateCap, callCap);
  }

  lemma {:induction false} NoRepairNeeded(client: Client, config: ClassifyConfig, s: Stats, context: string)
    requires Functional(client) && SecondRequest(client, config, context).None?
    ensures ClassifiedWithRepair(client, config, s, context) ==
      (Called(client, s, FirstRequest(config, context)).0, AskAnswer(client, config, context))
  {
    assert client(|s.calls|, FirstRequest(config, context)) == client(0, FirstRequest(config, context));
  }

  lemma {:induction false} RepairNeeded(client: Client, config: ClassifyConfig, s: Stats, context: string)
    requires Functional(client) && SecondRequest(client, config, context).Some?
    requires !WouldExceedBudget(config.budget, Called(client, s, FirstRequest(config, context)).0.calls)
    ensures var first := Parsed(config, Reply(client, FirstRequest(config, context)));
      && first.1.Some?
      && SecondRequest(client, config, context) ==
        Some(RepairRequest(config, context, first.0.downgrade, first.1.value))
      && ClassifiedWithRepair(client, config, s, context) ==
         Repaired(client, config, CountFailure(Called(client, s, FirstRequest(config, context)).0), context,
           first.0.downgrade, first.1.value)
  {
    assert client(|s.calls|, FirstRequest(config, context)) == client(0, FirstRequest(config, context));
  }

  lemma {:induction false} RepairIsIdeal(client: Client, config: ClassifyConfig, s: Stats, context: string,
                                         gateCap: real, callCap: real)
    requires Regular(client, gateCap, callCap, s.calls) && Spent(s.calls) + callCap + callCap < config.budget
    ensures var (after, c) := ClassifiedWithRepair(client, config, s, context);
      && c == AskAnswer(client, config, context)
      && Regular(client, gateCap, callCap, after.calls)
      && Spent(after.calls) == Spent(s.calls) + AskCost(client, config, context)
      && 0.0 <= AskCost(client, config, context) <= callCap + callCap
  {
    var after := Called(client, s, FirstRequest(config, context)).0;
    CalledRegular(client, s, FirstRequest(config, context), gateCap, callCap);
    if SecondRequest(client, config, context).None? {
      NoRepairNeeded(client, config, s, context);
    } else {
      RoomForOneMore(config, after.calls, gateCap, callCap);
      RepairNeeded(client, config, s, context);
      var (c, malformed) := Parsed(config, Reply(client, FirstRequest(config, context)));
      RepairedIsIdeal(client, config, CountFailure(after), context, c.downgrade, malformed.value, gateCap, callCap);
    }
  }

  function Worst(gateCap: real, callCap: real): real { gateCap + callCap + callCap }

  lemma {:induction false} AskedIsIdeal(client: Client, config: ClassifyConfig, s: Stats, subject: Subject,
                                        gateCap: real, callCap: real)
    requires Regular(client, gateCap, callCap, s.calls) && Spent(s.calls) + Worst(gateCap, callCap) < config.budget
    ensures var (after, c) := Asked(client, config, s, subject);
      && c == IdealAnswer(client, config, subject)
      && Regular(client, gateCap, callCap, after.calls)
      && Spent(after.calls) == Spent(s.calls) + IdealCost(client, config, subject)
      && 0.0 <= IdealCost(client, config, subject) <= Worst(gateCap, callCap)
  {
    RoomForOneMore(config, s.calls, gateCap, callCap);
    if config.gateModel.None? {
      RepairIsIdeal(client, config, s, subject.context, gateCap, callCap);
    } else {
      var (gated, response) := Called(client, s, GateRequest(config, subject));
      CalledRegular(client, s, GateRequest(config, subject), gateCap, callCap);
      if Escalates(response) { RepairIsIdeal(client, config, gated, subject.context, gateCap, callCap); }
    }
  }

  // ---- sharing entries ---------------------------------------------------

  /** The gate reads its own prompt, which the key does not cover: it must decide alike on equal contexts. */
  ghost predicate GateFollowsContext(client: Client, config: ClassifyConfig, subjects: seq<Subject>) {
    forall i, j :: 0 <= i < |subjects| && 0 <= j < |subjects| && subjects[i].context == subjects[j].context
      ==> LetIn(client, config, subjects[i]) == LetIn(client, config, subjects[j])
  }

  /** What the cache holds for these subjects is what asking would answer. */
  ghost predicate Agrees(shelf: Option<Shelf>, client: Client, config: ClassifyConfig, subjects: seq<Subject>) {
    shelf.Some? ==> forall i :: 0 <= i < |subjects| && KeyOf(config, subjects[i]) in shelf.value.entries ==>
      shelf.value.entries[KeyOf(config, subjects[i])] == IdealAnswer(client, config, subjects[i])
  }

  lemma {:induction false} SameKeySameAnswer(client: Client, config: ClassifyConfig, subjects: seq<Subject>, i: nat,
                                             j: nat)
    requires i < |subjects| && j < |subjects| && GateFollowsContext(client, config, subjects)
    requires KeyOf(config, subjects[i]) == KeyOf(config, subjects[j])
    ensures IdealAnswer(client, config, subjects[i]) == IdealAnswer(client, config, subjects[j])
  {
    var model := CacheModelId(config.classifierModel, config.gateModel);
    ContextIsInKey(subjects[i].context, subjects[j].context, model, config.promptVersion);
  }

  lemma {:induction false} KeepAgrees(shelf: Option<Shelf>, client: Client, config: ClassifyConfig,
                                      subjects: seq<Subject>, n: nat)
    requires n < |subjects| && GateFollowsContext(client, config, subjects)
    requires Agrees(shelf, client, config, subjects)
    ensures Agrees(Keep(shelf, KeyOf(config, subjects[n]), IdealAnswer(client, config, subjects[n])), client, config,
      subjects)
  {
    if shelf.Some? {
      forall i: nat | i < |subjects| && KeyOf(config, subjects[i]) == KeyOf(config, subjects[n])
        ensures IdealAnswer(client, config, subjects[i]) == IdealAnswer(client, config, subjects[n])
      {
        SameKeySameAnswer(client, config, subjects, i, n);
      }
    }
  }

  lemma {:induction false} ClassifiedIsIdeal(client: Client, config: ClassifyConfig, st: State, subjects: seq<Subject>,
                                             n: nat, gateCap: real, callCap: real)
    requires n < |subjects| && GateFollowsContext(client, config, subjects)
    requires Agrees(st.shelf, client, config, subjects)
    requires Regular(client, gateCap, callCap, st.stats.calls) &&
      Spent(st.stats.calls) + Worst(gateCap, callCap) < config.budget
    ensures var (after, c) := Classified(Some(client), config, st, subjects[n]);
      && c == IdealAnswer(client, config, subjects[n])
      && Agrees(after.shelf, client, config, subjects)
      && Regular(client, gateCap, callCap, after.stats.calls)
      && Spent(after.stats.calls) <= Spent(st.stats.calls) + IdealCost(client, config, subjects[n])
      && (st.shelf.None? ==>
        after.shelf.None? && Spent(after.stats.calls) == Spent(st.stats.calls) + IdealCost(client, config, subjects[n]))
      && IdealCost(client, config, subjects[n]) <= Worst(gateCap, callCap)
  {
    var (looked, cached) := Consult(st, KeyOf(config, subjects[n]));
    AskedIsIdeal(client, config, looked.stats, subjects[n], gateCap, callCap);
    KeepAgrees(looked.shelf, client, config, subjects, n);
  }

  function TotalCost(client: Client, config: ClassifyConfig, subjects: seq<Subject>): real {
    if subjects == [] then 0.0
    else TotalCost(client, config, subjects[..|subjects| - 1]) + IdealCost(client, config, subjects[|subjects| - 1])
  }

  ghost predicate AnswersIdeal(client: Client, config: ClassifyConfig, subjects: seq<Subject>,
                               answers: seq<Classification>) {
    |answers| <= |subjects| && forall i :: 0 <= i < |answers| ==> answers[i] == IdealAnswer(client, config, subjects[i])
  }

  lemma {:induction false} IdealSnoc(client: Client, config: ClassifyConfig, subjects: seq<Subject>,
                                     answers: seq<Classification>)
    requires |answers| < |subjects| && AnswersIdeal(client, config, subjects, answers)
    ensures AnswersIdeal(client, config, subjects, answers + [IdealAnswer(client, config, subjects[|answers|])])
  {
  }

  /** The state after the first `n` subjects of a run from `st`. */
  ghost predicate OnTrack(client: Client, config: ClassifyConfig, st: State, after: State, subjects: seq<Subject>,
                          n: nat, gateCap: real, callCap: real)
    requires n <= |subjects|
  {
    && Agrees(after.shelf, client, config, subjects)
    && Regular(client, gateCap, callCap, after.stats.calls)
    && Spent(after.stats.calls) <= Spent(st.stats.calls) + TotalCost(client, config, subjects[..n])
    && TotalCost(client, config, subjects[..n]) <= Times(n, Worst(gateCap, callCap))
    && (st.shelf.None? ==>
      after.shelf.None? && Spent(after.stats.calls) == Spent(st.stats.calls) + TotalCost(client, config, subjects[..n]))
  }

  lemma {:induction false} TotalSnoc(client: Client, config: ClassifyConfig, subjects: seq<Subject>, n: nat)
    requires n < |subjects|
    ensures TotalCost(client, config, subjects[..n + 1]) ==
      TotalCost(client, config, subjects[..n]) + IdealCost(client, config, subjects[n])
  {
    assert subjects[..n + 1][..n] == subjects[..n];
  }

  lemma {:induction false} TrackStep(client: Client, config: ClassifyConfig, st: State, before: State,
                                     subjects: seq<Subject>, n: nat, gateCap: real, callCap: real)
    requires n < |subjects| && GateFollowsContext(client, config, subjects)
    requires OnTrack(client, config, st, before, subjects, n, gateCap, callCap)
    requires Spent(st.stats.calls) + Times(|subjects|, Worst(gateCap, callCap)) < config.budget
    ensures var (after, c) := Classified(Some(client), config, before, subjects[n]);
      OnTrack(client, config, st, after, subjects, n + 1, gateCap, callCap) &&
        c == IdealAnswer(client, config, subjects[n])
  {
    TimesGrows(n + 1, |subjects|, Worst(gateCap, callCap));
    ClassifiedIsIdeal(client, config, before, subjects, n, gateCap, callCap);
    TotalSnoc(client, config, subjects, n);
  }

  /** The first `n` answers are the ideal ones and the state is on track. */
  ghost predicate Tracks(client: Client, config: ClassifyConfig, st: State, subjects: seq<Subject>, n: nat,
                         gateCap: real, callCap: real)
    requires n <= |subjects|
  {
    var run := AnswerAll(Some(client), config, st, subjects[..n], |subjects|);
    OnTrack(client, config, st, run.0, subjects, n, gateCap, callCap) && AnswersIdeal(client, config, subjects, run.1)
  }

  lemma {:induction false} TrackNext(client: Client, config: ClassifyConfig, st: State, subjects: seq<Subject>, n: nat,
                                     gateCap: real, callCap: real)
    requires n < |subjects| && GateFollowsContext(client, config, subjects)
    requires Tracks(client, config, st, subjects, n, gateCap, callCap)
    requires Spent(st.stats.calls) + Times(|subjects|, Worst(gateCap, callCap)) < config.budget
    ensures Tracks(client, config, st, subjects, n + 1, gateCap, callCap)
  {
    var run := AnswerAll(Some(client), config, st, subjects[..n], |subjects|);
    TrackStep(client, config, st, run.0, subjects, n, gateCap, callCap);
    AnswerStep(Some(client), config, st, subjects, |subjects|, n);
    IdealSnoc(client, config, subjects, run.1);
  }

  lemma {:induction false} TracksAll(client: Client, config: ClassifyConfig, st: State, subjects: seq<Subject>, n: nat,
                                     gateCap: real, callCap: real)
    requires n <= |subjects| && GateFollowsContext(client, config, subjects)
    requires Agrees(st.shelf, client, config, subjects)
    requires Regular(client, gateCap, callCap, st.stats.calls)
    requires Spent(st.stats.calls) + Times(|subjects|, Worst(gateCap, callCap)) < config.budget
    ensures Tracks(client, config, st, subjects, n, gateCap, callCap)
  {
    if n > 0 {
      TracksAll(client, config, st, subjects, n - 1, gateCap, callCap);
      TrackNext(client, config, st, subjects, n - 1, gateCap, callCap);
    }
  }

  lemma {:induction false} AnsweredIdeally(client: Client, config: ClassifyConfig, subjects: seq<Subject>,
                                           a: seq<Classification>, b: seq<Classification>)
    requires |a| == |b| && AnswersIdeal(client, config, subjects, a) && AnswersIdeal(client, config, subjects, b)
    ensures a == b
  {
  }

  lemma {:induction false} TransparentWithin(client: Client, config: ClassifyConfig, st: State, subjects: seq<Subject>,
                                             gateCap: real, callCap: real)
    requires GateFollowsContext(client, config, subjects)
    requires Agrees(st.shelf, client, config, subjects)
    requires Regular(client, gateCap, callCap, st.stats.calls)
    requires Spent(st.stats.calls) + Times(|subjects|, Worst(gateCap, callCap)) < config.budget
    ensures var bare := AnswerAll(Some(client), config, st.(shelf := None), subjects, |subjects|);
      var cached := AnswerAll(Some(client), config, st, subjects, |subjects|);
      cached.1 == bare.1 && Spent(cached.0.stats.calls) <= Spent(bare.0.stats.calls)
  {
    var n := |subjects|;
    assert subjects[..n] == subjects;
    TracksAll(client, config, st, subjects, n, gateCap, callCap);
    TracksAll(client, config, st.(shelf := None), subjects, n, gateCap, callCap);
    AnsweredIdeally(client, config, subjects, AnswerAll(Some(client), config, st, subjects, n).1,
                    AnswerAll(Some(client), config, st.(shelf := None), subjects, n).1);
  }

  /** With a functional client, an ample budget and a gate that decides by the context, any sequence of
      classifications is answered the same with the cache as without, and never costs more. */
  lemma {:induction false} CacheIsTransparent(client: Client, config: ClassifyConfig, st: State, subjects: seq<Subject>,
                                              gateCap: real, callCap: real)
    requires GateFollowsContext(client, config, subjects)
    requires Agrees(st.shelf, client, config, subjects)
    requires Regular(client, gateCap, callCap, st.stats.calls)
    requires Spent(st.stats.calls) + |subjects| as real * Worst(gateCap, callCap) < config.budget
    ensures var bare := AnswerAll(Some(client), config, st.(shelf := None), subjects, |subjects|);
      var cached := AnswerAll(Some(client), config, st, subjects, |subjects|);
      cached.1 == bare.1 && Spent(cached.0.stats.calls) <= Spent(bare.0.stats.calls)
  {
    TimesIsProduct(|subjects|, Worst(gateCap, callCap));
    TransparentWithin(client, config, st, subjects, gateCap, callCap);
  }

  // ---- why the gate must follow the context ------------------------------

  lemma {:induction false} AskNeverPrefilters(client: Client, config: ClassifyConfig, context: string)
    ensures !AskAnswer(client, config, context).downgrade.Prefiltered?
  {
  }

  predicate Keeps(a: Shelf, b: Shelf, key: string, c: Classification) {
    b.enabled && b.entries == if Cacheable(c) then a.entries[key := c] else a.entries
  }

  /** One classification from an enabled cache that does not hold the subject. */
  lemma {:induction false} MissIsIdeal(client: Client, config: ClassifyConfig, st: State, subject: Subject,
                                       gateCap: real, callCap: real)
    requires st.shelf.Some? ==> st.shelf.value.enabled && KeyOf(config, subject) !in st.shelf.value.entries
    requires Regular(client, gateCap, callCap, st.stats.calls) &&
      Spent(st.stats.calls) + Worst(gateCap, callCap) < config.budget
    ensures var (after, c) := Classified(Some(client), config, st, subject);
      && c == IdealAnswer(client, config, subject)
      && (st.shelf.None? <==> after.shelf.None?)
      && (st.shelf.Some? ==> Keeps(st.shelf.value, after.shelf.value, KeyOf(config, subject), c))
      && Regular(client, gateCap, callCap, after.stats.calls)
      && Spent(after.stats.calls) <= Spent(st.stats.calls) + Worst(gateCap, callCap)
  {
    AskedIsIdeal(client, config, Consult(st, KeyOf(config, subject)).0.stats, subject, gateCap, callCap);
  }

  lemma {:induction false} PairSteps(client: Client, config: ClassifyConfig, st: State, a: Subject, b: Subject)
    ensures var first := Classified(Some(client), config, st, a);
      AnswerAll(Some(client), config, st, [a, b], 2).1 == [first.1, Classified(Some(client), config, first.0, b).1]
  {
    AnswerStep(Some(client), config, st, [a, b], 2, 0);
    AnswerStep(Some(client), config, st, [a, b], 2, 1);
    assert [a, b][..2] == [a, b] && [a, b][..0] == [];
  }

  /** Two detections with one context and an empty cache: the answers agree with uncached ones exactly when the
      gate treats both alike, or when the first answer was transient and so was not kept. */
  lemma {:induction false} PairIff(client: Client, config: ClassifyConfig, st: State, a: Subject, b: Subject,
                                   gateCap: real, callCap: real)
    requires st.shelf.Some? && st.shelf.value.enabled && st.shelf.value.entries == map[]
    requires a.context == b.context
    requires Regular(client, gateCap, callCap, st.stats.calls)
    requires Spent(st.stats.calls) + Worst(gateCap, callCap) + Worst(gateCap, callCap) < config.budget
    ensures AnswerAll(Some(client), config, st, [a, b], 2).1 ==
      AnswerAll(Some(client), config, st.(shelf := None), [a, b], 2).1
      <==> LetIn(client, config, a) == LetIn(client, config, b)
           || (LetIn(client, config, a) && !Cacheable(AskAnswer(client, config, a.context)))
  {
    var bare := st.(shelf := None);
    PairSteps(client, config, st, a, b);
    PairSteps(client, config, bare, a, b);
    MissIsIdeal(client, config, st, a, gateCap, callCap);
    MissIsIdeal(client, config, bare, a, gateCap, callCap);
    var kept := Classified(Some(client), config, st, a).0;
    MissIsIdeal(client, config, Classified(Some(client), config, bare, a).0, b, gateCap, callCap);
    if !Cacheable(IdealAnswer(client, config, a)) { MissIsIdeal(client, config, kept, b, gateCap, callCap); }
    AskNeverPrefilters(client, config, a.context);
  }
}