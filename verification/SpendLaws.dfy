/** What a run can spend. The client is an adversary that chooses every answer and every price below the caps. */
module SpendLaws {
  import opened Models
  import opened Classifying

  /** Gate calls cost at most `gateCap`, other calls at most `callCap`, and nothing costs less than nothing. */
  ghost predicate Priced(client: Client, gateCap: real, callCap: real) {
    forall n, r :: 0.0 <= client(n, r).cost <= if r.kind.Gate? then gateCap else callCap
  }

  lemma {:induction false} CalledSpends(client: Client, s: Stats, r: Request)
    ensures Spent(Called(client, s, r).0.calls) == Spent(s.calls) + client(|s.calls|, r).cost
  {
    assert Called(client, s, r).0.calls[..|s.calls|] == s.calls;
  }

  // ---- the bound ---------------------------------------------------------

  /** The most the gate can add after the check has passed. */
  function GateSlack(config: ClassifyConfig, gateCap: real): real {
    if config.gateModel.None? then 0.0 else gateCap
  }

  lemma {:induction false} RepairSpends(client: Client, config: ClassifyConfig, s: Stats, context: string,
                                        ceiling: real, gateCap: real, callCap: real)
    requires Priced(client, gateCap, callCap) && config.budget <= ceiling && Spent(s.calls) < ceiling
    ensures Spent(ClassifiedWithRepair(client, config, s, context).0.calls) < ceiling + callCap
  {
    var request := Request(Classify, config.classifierModel, ContextPrompt(context));
    var (after, response) := Called(client, s, request);
    CalledSpends(client, s, request);
    var (c, malformed) := Parsed(config, response);
    if !response.failed && malformed.Some? {
      var counted := CountFailure(after);
      CalledSpends(client, counted, RepairRequest(config, context, c.downgrade, malformed.value));
    }
  }

  /** Either nothing has been spent, or less than the budget plus what was in flight when the check last passed. */
  predicate Within(config: ClassifyConfig, calls: seq<CallRecord>, gateCap: real, callCap: real) {
    Spent(calls) == 0.0 || Spent(calls) < config.budget + GateSlack(config, gateCap) + callCap
  }

  lemma {:induction false} AskedStaysWithin(client: Client, config: ClassifyConfig, s: Stats, subject: Subject,
                                            gateCap: real, callCap: real)
    requires Priced(client, gateCap, callCap) && Within(config, s.calls, gateCap, callCap)
    ensures Within(config, Asked(client, config, s, subject).0.calls, gateCap, callCap)
  {
    if !WouldExceedBudget(config.budget, s.calls) {
      if config.gateModel.None? {
        RepairSpends(client, config, s, subject.context, config.budget, gateCap, callCap);
      } else {
        var request := GateRequest(config, subject);
        var (gated, response) := Called(client, s, request);
        CalledSpends(client, s, request);
        assert client(|s.calls|, request).cost <= gateCap;
        RepairSpends(client, config, gated, subject.context, config.budget + gateCap, gateCap, callCap);
      }
    }
  }

  /** Over any run, whatever the client does: spend is zero, or below the budget plus one gate call and one other
      call, or plus one call when the gate is off. */
  lemma {:induction false} SpendIsBounded(client: Option<Client>, config: ClassifyConfig, st: State,
                                          subjects: seq<Subject>, limit: nat, gateCap: real, callCap: real)
    requires client.Some? ==> Priced(client.value, gateCap, callCap)
    requires Within(config, st.stats.calls, gateCap, callCap)
    ensures Within(config, AnswerAll(client, config, st, subjects, limit).0.stats.calls, gateCap, callCap)
  {
    if subjects != [] {
      var n := |subjects| - 1;
      SpendIsBounded(client, config, st, subjects[..n], limit, gateCap, callCap);
      var before := AnswerAll(client, config, st, subjects[..n], limit).0;
      if client.Some? {
        var looked := Consult(before, KeyOf(config, subjects[n])).0;
        AskedStaysWithin(client.value, config, looked.stats, subjects[n], gateCap, callCap);
      }
    }
  }

  // ---- one price ---------------------------------------------------------

  /** Every call so far was a classification or a repair at the same price. */
  ghost predicate Uniform(calls: seq<CallRecord>, price: real) {
    forall i :: 0 <= i < |calls| ==> calls[i].cost == price && !calls[i].kind.Gate?
  }

  lemma {:induction false} NextMultiple(n: nat, price: real)
    ensures (n + 1) as real * price == n as real * price + price
  {
  }

  /** `n` calls at price `x`. */
  function Times(n: nat, x: real): real { if n == 0 then 0.0 else Times(n - 1, x) + x }

  lemma {:induction false} TimesIsProduct(n: nat, x: real)
    ensures Times(n, x) == n as real * x
  {
    if n > 0 {
      TimesIsProduct(n - 1, x);
      NextMultiple(n - 1, x);
    }
  }

  lemma {:induction false} TimesGrows(n: nat, m: nat, x: real)
    requires n <= m && x >= 0.0
    ensures Times(n, x) <= Times(m, x)
  {
    if n < m { TimesGrows(n, m - 1, x); }
  }

  lemma {:induction false} Quotient(n: nat, price: real)
    requires n > 0
    ensures Mean(Times(n, price), n) == price
  {
    TimesIsProduct(n, price);
    Undo(n as real, price);
  }

  lemma {:induction false} Undo(k: real, x: real)
    requires k > 0.0
    ensures k * x / k == x
  {
  }

  lemma {:induction false} UniformSpend(calls: seq<CallRecord>, price: real)
    requires Uniform(calls, price)
    ensures Spent(calls) == Times(|calls|, price) && Billed(calls) == calls
  {
    if calls != [] {
      var n := |calls| - 1;
      UniformSpend(calls[..n], price);
      assert calls == calls[..n] + [calls[n]];
    }
  }

  lemma {:induction false} UniformMean(calls: seq<CallRecord>, price: real)
    requires Uniform(calls, price)
    ensures MeanClassifyCost(calls) == if calls == [] then 0.0 else price
  {
    UniformSpend(calls, price);
    if calls != [] { Quotient(|calls|, price); }
  }

  function Max(a: real, b: real): real { if a >= b then a else b }

  /** The next call at the same price still fits: the check predicts it exactly, except the first. */
  lemma {:induction false} OneMore(client: Client, config: ClassifyConfig, s: Stats, r: Request, price: real)
    requires price >= 0.0 && (forall n, q :: client(n, q).cost == price)
    requires !r.kind.Gate? && Uniform(s.calls, price) && !WouldExceedBudget(config.budget, s.calls)
    ensures Uniform(Called(client, s, r).0.calls, price)
    ensures Spent(Called(client, s, r).0.calls) <= Max(config.budget, price)
  {
    CalledSpends(client, s, r);
    UniformMean(s.calls, price);
    UniformSpend(s.calls, price);
  }

  ghost predicate AtOnePrice(config: ClassifyConfig, calls: seq<CallRecord>, price: real) {
    Uniform(calls, price) && Spent(calls) <= Max(config.budget, price)
  }

  lemma {:induction false} RepairAtOnePrice(client: Client, config: ClassifyConfig, s: Stats, context: string,
                                            reason: DowngradeReason, malformed: string, price: real)
    requires price >= 0.0 && (forall n, q :: client(n, q).cost == price)
    requires AtOnePrice(config, s.calls, price) && !WouldExceedBudget(config.budget, s.calls)
    ensures AtOnePrice(config, Repaired(client, config, s, context, reason, malformed).0.calls, price)
  {
    OneMore(client, config, s, RepairRequest(config, context, reason, malformed), price);
  }

  lemma {:induction false} ClassifyAtOnePrice(client: Client, config: ClassifyConfig, s: Stats, context: string,
                                              price: real)
    requires price >= 0.0 && (forall n, q :: client(n, q).cost == price)
    requires AtOnePrice(config, s.calls, price) && !WouldExceedBudget(config.budget, s.calls)
    ensures AtOnePrice(config, ClassifiedWithRepair(client, config, s, context).0.calls, price)
  {
    var request := Request(Classify, config.classifierModel, ContextPrompt(context));
    var (after, response) := Called(client, s, request);
    OneMore(client, config, s, request, price);
    var (c, malformed) := Parsed(config, response);
    var counted := CountFailure(after);
    if !response.failed && malformed.Some? && !WouldExceedBudget(config.budget, counted.calls) {
      RepairAtOnePrice(client, config, counted, context, c.downgrade, malformed.value, price);
    }
  }

  lemma {:induction false} AskedAtOnePrice(client: Client, config: ClassifyConfig, s: Stats, subject: Subject,
                                           price: real)
    requires price >= 0.0 && (forall n, q :: client(n, q).cost == price) && config.gateModel.None?
    requires AtOnePrice(config, s.calls, price)
    ensures AtOnePrice(config, Asked(client, config, s, subject).0.calls, price)
  {
    if !WouldExceedBudget(config.budget, s.calls) {
      ClassifyAtOnePrice(client, config, s, subject.context, price);
    }
  }

  /** When every call costs the same and there is no gate, the cap is exact but for the first call. */
  lemma {:induction false} SpendAtOnePrice(client: Client, config: ClassifyConfig, st: State, subjects: seq<Subject>,
                                           limit: nat, price: real)
    requires price >= 0.0 && (forall n, q :: client(n, q).cost == price) && config.gateModel.None?
    requires AtOnePrice(config, st.stats.calls, price)
    ensures AtOnePrice(config, AnswerAll(Some(client), config, st, subjects, limit).0.stats.calls, price)
  {
    if subjects != [] {
      var n := |subjects| - 1;
      SpendAtOnePrice(client, config, st, subjects[..n], limit, price);
      var before := AnswerAll(Some(client), config, st, subjects[..n], limit).0;
      AskedAtOnePrice(client, config, Consult(before, KeyOf(config, subjects[n])).0.stats, subjects[n], price);
    }
  }
}
