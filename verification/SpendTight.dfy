/** The spending bound cannot be improved: with the gate on, more than one call can land past the budget. */
module SpendTight {
  import opened Models
  import opened Guardrails
  import opened Classifying
  import opened SpendLaws

  const NO := Text(@"{""classifiable"": false}", OffSchema, Some(false))
  const YES := Text(@"{""classifiable"": true}", OffSchema, Some(true))

  const FIELDS :=
    @"""cause"": ""UNKNOWN"", ""confidence"": 0, ""reasoning"": """", ""evidence"": [], "
    + @"""suggested_action"": """", ""abstained"": true"

  /** A well-formed answer that abstains. */
  const ABSTAINS := Text("{" + FIELDS + "}", Shaped(RawAnswer(Unknown, 0.0, [], true)), None)

  /** A client whose gate turns away the first `k` subjects at price `g`, then waves one through at full price. */
  function Squeeze(k: nat, g: real, gateCap: real, callCap: real): Client {
    (n: nat, r: Request) =>
      if !r.kind.Gate? then ModelResponse(Some(ABSTAINS), callCap, false)
      else if n < k then ModelResponse(Some(NO), g, false)
      else ModelResponse(Some(YES), gateCap, false)
  }

  lemma {:induction false} AnswersOnce(config: ClassifyConfig, cost: real)
    ensures Parsed(config, ModelResponse(Some(ABSTAINS), cost, false)).1.None?
  {
    assert ABSTAINS.chars[0] == "{"[0];
    StripIs(ABSTAINS.chars);
  }

  ghost predicate Gates(calls: seq<CallRecord>, g: real) {
    forall i :: 0 <= i < |calls| ==> calls[i].cost == g && calls[i].kind.Gate?
  }

  /** Gate calls are spent but never enter the estimate of the next call. */
  lemma {:induction false} GatesSpend(calls: seq<CallRecord>, g: real)
    requires Gates(calls, g)
    ensures Spent(calls) == Times(|calls|, g) && Billed(calls) == []
  {
    if calls != [] {
      GatesSpend(calls[..|calls| - 1], g);
    }
  }

  function Copies(subject: Subject, n: nat): (r: seq<Subject>)
    ensures |r| == n
  {
    seq(n, _ => subject)
  }

  const START: State := State(None, Stats([], 0, 0, 0, 0, 0, 0, 0), {})

  lemma {:induction false} TurnedAway(config: ClassifyConfig, s: Stats, subject: Subject, k: nat, g: real,
                                      gateCap: real, callCap: real)
    requires config.gateModel.Some? && Gates(s.calls, g) && |s.calls| < k
    requires g >= 0.0 && Times(k, g) < config.budget
    ensures var after := Asked(Squeeze(k, g, gateCap, callCap), config, s, subject).0;
      Gates(after.calls, g) && |after.calls| == |s.calls| + 1
  {
    GatesSpend(s.calls, g);
    TimesGrows(|s.calls|, k, g);
    var after := Asked(Squeeze(k, g, gateCap, callCap), config, s, subject).0;
    assert after.calls == s.calls + [CallRecord(Gate, config.gateModel.value, g, false)];
  }

  /** No cache, and `j` gate calls at price `g` so far. */
  ghost predicate OnlyGates(st: State, g: real, j: nat) {
    st.shelf.None? && Gates(st.stats.calls, g) && |st.stats.calls| == j
  }

  lemma {:induction false} NextTurnedAway(config: ClassifyConfig, st: State, subject: Subject, j: nat, k: nat, g: real,
                                          gateCap: real, callCap: real)
    requires j < k && OnlyGates(st, g, j) && config.gateModel.Some? && g >= 0.0 && Times(k, g) < config.budget
    ensures OnlyGates(Next(Some(Squeeze(k, g, gateCap, callCap)), config, st, subject, j, k + 1).0, g, j + 1)
  {
    TurnedAway(config, st.stats, subject, k, g, gateCap, callCap);
  }

  lemma {:induction false} AllTurnedAway(client: Client, config: ClassifyConfig, subject: Subject, j: nat, k: nat,
                                         g: real, gateCap: real, callCap: real)
    requires client == Squeeze(k, g, gateCap, callCap)
    requires j <= k && config.gateModel.Some? && g >= 0.0 && Times(k, g) < config.budget
    ensures OnlyGates(AnswerAll(Some(client), config, START, Copies(subject, j), k + 1).0, g, j)
  {
    if j > 0 {
      var subjects := Copies(subject, j);
      AllTurnedAway(client, config, subject, j - 1, k, g, gateCap, callCap);
      assert subjects[..j - 1] == Copies(subject, j - 1) && subjects[..j] == subjects;
      AnswerStep(Some(client), config, START, subjects, k + 1, j - 1);
      var before := AnswerAll(Some(client), config, START, subjects[..j - 1], k + 1).0;
      NextTurnedAway(config, before, subject, j - 1, k, g, gateCap, callCap);
    }
  }

  lemma {:induction false} LetThrough(config: ClassifyConfig, s: Stats, subject: Subject, k: nat, g: real,
                                      gateCap: real, callCap: real)
    requires config.gateModel.Some? && Gates(s.calls, g) && |s.calls| == k
    requires g >= 0.0 && Times(k, g) < config.budget
    ensures Spent(Asked(Squeeze(k, g, gateCap, callCap), config, s, subject).0.calls) == Times(k, g) + gateCap + callCap
  {
    var client := Squeeze(k, g, gateCap, callCap);
    GatesSpend(s.calls, g);
    var gated := Called(client, s, GateRequest(config, subject)).0;
    AnswersOnce(config, callCap);
    CalledSpends(client, s, GateRequest(config, subject));
    CalledSpends(client, gated, Request(Classify, config.classifierModel, ContextPrompt(subject.context)));
  }

  lemma {:induction false} Scale(k: real, x: real, cap: real)
    requires k >= x && cap > 0.0
    ensures k * cap >= x * cap
  {
  }

  /** Enough shares of at most `cap` to make up `total`. */
  lemma {:induction false} Shares(total: real, cap: real) returns (k: nat, g: real)
    requires total >= 0.0 && cap > 0.0
    ensures k > 0 && 0.0 <= g <= cap && Times(k, g) == total
  {
    var x := total / cap;
    assert x * cap == total;
    k := x.Floor + 1;
    Scale(k as real, x, cap);
    g := total / k as real;
    Divide(total, k as real, cap);
    TimesIsProduct(k, g);
  }

  lemma {:induction false} Divide(total: real, k: real, cap: real)
    requires 0.0 <= total <= k * cap && k > 0.0
    ensures k * (total / k) == total && 0.0 <= total / k <= cap
  {
    var g := total / k;
    assert g * k == total;
    if g > cap { Scale(g, cap, k); assert cap * k == k * cap; Strict(g, cap, k); }
    if g < 0.0 { Strict(0.0, g, k); }
  }

  lemma {:induction false} Strict(a: real, b: real, k: real)
    requires a > b && k > 0.0
    ensures a * k > b * k
  {
  }

  lemma {:induction false} NextLetThrough(config: ClassifyConfig, st: State, subject: Subject, k: nat, g: real,
                                          gateCap: real, callCap: real)
    requires OnlyGates(st, g, k) && config.gateModel.Some? && g >= 0.0 && Times(k, g) < config.budget
    ensures
      var after := Next(Some(Squeeze(k, g, gateCap, callCap)), config, st, subject, k, k + 1).0;
      Spent(after.stats.calls) == Times(k, g) + gateCap + callCap
  {
    LetThrough(config, st.stats, subject, k, g, gateCap, callCap);
  }

  lemma {:induction false} SqueezeSpends(client: Client, config: ClassifyConfig, subject: Subject, k: nat, g: real,
                                         gateCap: real, callCap: real)
    requires client == Squeeze(k, g, gateCap, callCap)
    requires config.gateModel.Some? && g >= 0.0 && Times(k, g) < config.budget
    ensures
      var run := AnswerAll(Some(client), config, START, Copies(subject, k + 1), k + 1).0;
      Spent(run.stats.calls) == Times(k, g) + gateCap + callCap
  {
    var subjects := Copies(subject, k + 1);
    AllTurnedAway(client, config, subject, k, k, g, gateCap, callCap);
    assert subjects[..k] == Copies(subject, k) && subjects[..k + 1] == subjects;
    var before := AnswerAll(Some(client), config, START, subjects[..k], k + 1).0;
    assert AnswerAll(Some(client), config, START, subjects, k + 1).0 ==
      Next(Some(client), config, before, subject, k, k + 1).0 by {
      AnswerStep(Some(client), config, START, subjects, k + 1, k);
    }
    NextLetThrough(config, before, subject, k, g, gateCap, callCap);
  }

  lemma {:induction false} SqueezePriced(k: nat, g: real, gateCap: real, callCap: real)
    requires 0.0 <= g <= gateCap && callCap >= 0.0
    ensures Priced(Squeeze(k, g, gateCap, callCap), gateCap, callCap)
  {
  }

  /** However small `eps` is, some client within the caps drives the spend to within `eps` of the bound. */
  lemma {:induction false} BoundIsTight(config: ClassifyConfig, subject: Subject, gateCap: real, callCap: real,
                                        eps: real)
    returns (client: Client, n: nat)
    requires config.gateModel.Some? && config.budget > 0.0 && gateCap > 0.0 && callCap >= 0.0 && eps > 0.0
    ensures Priced(client, gateCap, callCap)
    ensures Spent(AnswerAll(Some(client), config, START, Copies(subject, n), n).0.stats.calls) >
      config.budget + gateCap + callCap - eps
  {
    var left := if eps < config.budget then eps / 2.0 else config.budget / 2.0;
    var k, g := Shares(config.budget - left, gateCap);
    client, n := Squeeze(k, g, gateCap, callCap), k + 1;
    SqueezePriced(k, g, gateCap, callCap);
    SqueezeSpends(client, config, subject, k, g, gateCap, callCap);
  }

  /** So the ceiling plus any one call is not a bound when both kinds of call cost something. */
  lemma {:induction false} OneCallIsNotEnough(config: ClassifyConfig, subject: Subject, gateCap: real, callCap: real)
    returns (client: Client, n: nat)
    requires config.gateModel.Some? && config.budget > 0.0 && gateCap > 0.0 && callCap > 0.0
    ensures Priced(client, gateCap, callCap)
    ensures Spent(AnswerAll(Some(client), config, START, Copies(subject, n), n).0.stats.calls) >
      config.budget + Max(gateCap, callCap)
  {
    client, n := BoundIsTight(config, subject, gateCap, callCap, if gateCap < callCap then gateCap else callCap);
  }

  // ---- when one call is enough -------------------------------------------

  /** Once the budget is spent, nothing more is. */
  lemma {:induction false} ExhaustedStaysPut(client: Client, config: ClassifyConfig, st: State, subjects: seq<Subject>,
                                             limit: nat)
    requires Spent(st.stats.calls) >= config.budget
    ensures AnswerAll(Some(client), config, st, subjects, limit).0.stats.calls == st.stats.calls
  {
    if subjects != [] { ExhaustedStaysPut(client, config, st, subjects[..|subjects| - 1], limit); }
  }

  /** What the run spends from the start. */
  function SpentOn(client: Client, config: ClassifyConfig, subjects: seq<Subject>): real {
    Spent(AnswerAll(Some(client), config, START, subjects, |subjects|).0.stats.calls)
  }

  /** The guarantee as documented: for every client within the caps and every run, the ceiling plus one call. */
  ghost predicate OneCallBounds(config: ClassifyConfig, gateCap: real, callCap: real) {
    forall client: Client, subjects: seq<Subject> ::
      Priced(client, gateCap, callCap) ==> SpentOn(client, config, subjects) <= config.budget + Max(gateCap, callCap)
  }

  lemma {:induction false} OneCallSuffices(client: Client, config: ClassifyConfig, subjects: seq<Subject>,
                                           gateCap: real, callCap: real)
    requires Priced(client, gateCap, callCap) && config.budget >= 0.0 && gateCap >= 0.0 && callCap >= 0.0
    requires config.gateModel.None? || config.budget == 0.0 || gateCap == 0.0 || callCap == 0.0
    ensures SpentOn(client, config, subjects) <= config.budget + Max(gateCap, callCap)
  {
    SpendIsBounded(Some(client), config, START, subjects, |subjects|, gateCap, callCap);
    if config.budget == 0.0 { ExhaustedStaysPut(client, config, START, subjects, |subjects|); }
  }

  /** It holds exactly when the gate is off, or one of the two kinds of call, or everything, is free. */
  lemma {:induction false} OneCallBoundsIff(config: ClassifyConfig, gateCap: real, callCap: real)
    requires config.budget >= 0.0 && gateCap >= 0.0 && callCap >= 0.0
    ensures OneCallBounds(config, gateCap, callCap) <==>
      config.gateModel.None? || config.budget == 0.0 || gateCap == 0.0 || callCap == 0.0
  {
    if config.gateModel.None? || config.budget == 0.0 || gateCap == 0.0 || callCap == 0.0 {
      forall client: Client, subjects: seq<Subject> | Priced(client, gateCap, callCap)
        ensures SpentOn(client, config, subjects) <= config.budget + Max(gateCap, callCap)
      {
        OneCallSuffices(client, config, subjects, gateCap, callCap);
      }
    } else {
      var subject := Subject(0, 0.0, 0, "", "");
      var client, n := OneCallIsNotEnough(config, subject, gateCap, callCap);
      assert SpentOn(client, config, Copies(subject, n)) > config.budget + Max(gateCap, callCap);
    }
  }
}
