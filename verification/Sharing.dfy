/** Which answer a run takes from the cache, and exactly when that is the answer it would have got by asking. */
module Sharing {
  import opened Models
  import opened Cache
  import opened Classifying
  import opened SpendLaws
  import opened Transparency

  // ---- what the cache holds ----------------------------------------------

  /** What the cache holds for `subject` after `earlier`: the entry it began with, or else the first answer worth
      keeping on the same context. */
  function Held(client: Client, config: ClassifyConfig, shelf: Shelf, earlier: seq<Subject>, subject: Subject)
    : Option<Classification>
  {
    if earlier == [] then
      if KeyOf(config, subject) in shelf.entries then Some(shelf.entries[KeyOf(config, subject)]) else None
    else
      var before, last := Held(client, config, shelf, earlier[..|earlier| - 1], subject), earlier[|earlier| - 1];
      if before.Some? then before
      else if last.context == subject.context && Cacheable(IdealAnswer(client, config, last)) then
        Some(IdealAnswer(client, config, last))
      else None
  }

  /** The answer subject `i` of a run gets. */
  function Served(client: Client, config: ClassifyConfig, shelf: Option<Shelf>, subjects: seq<Subject>, i: nat)
    : Classification
    requires i < |subjects|
  {
    var held := if shelf.Some? then Held(client, config, shelf.value, subjects[..i], subjects[i]) else None;
    if held.Some? then held.value else IdealAnswer(client, config, subjects[i])
  }

  predicate FiledFor(client: Client, config: ClassifyConfig, start: Shelf, shelf: Shelf, earlier: seq<Subject>,
                     subject: Subject) {
    Held(client, config, start, earlier, subject) ==
      if KeyOf(config, subject) in shelf.entries then Some(shelf.entries[KeyOf(config, subject)]) else None
  }

  /** For every subject the cache holds what it should after `earlier`. */
  ghost predicate Filed(client: Client, config: ClassifyConfig, start: Option<Shelf>, shelf: Option<Shelf>,
                        earlier: seq<Subject>) {
    && (shelf.Some? <==> start.Some?)
    && (shelf.Some? ==>
      shelf.value.enabled && forall s: Subject :: FiledFor(client, config, start.value, shelf.value, earlier, s))
  }

  lemma {:induction false} SameKeyIff(config: ClassifyConfig, a: Subject, b: Subject)
    ensures KeyOf(config, a) == KeyOf(config, b) <==> a.context == b.context
  {
    if KeyOf(config, a) == KeyOf(config, b) {
      ContextIsInKey(a.context, b.context, CacheModelId(config.classifierModel, config.gateModel),
        config.promptVersion);
    }
  }

  lemma {:induction false} HeldSnoc(client: Client, config: ClassifyConfig, start: Shelf, earlier: seq<Subject>,
                                    last: Subject, subject: Subject)
    ensures var before := Held(client, config, start, earlier, subject);
      Held(client, config, start, earlier + [last], subject) ==
      if before.Some? then before
      else if last.context == subject.context && Cacheable(IdealAnswer(client, config, last)) then
        Some(IdealAnswer(client, config, last))
      else None
  {
    assert (earlier + [last])[..|earlier|] == earlier;
  }

  lemma {:induction false} FiledOne(client: Client, config: ClassifyConfig, start: Shelf, shelf: Shelf, after: Shelf,
                                    earlier: seq<Subject>, last: Subject, s: Subject)
    requires FiledFor(client, config, start, shelf, earlier, s)
    requires FiledFor(client, config, start, shelf, earlier, last)
    requires var held := Held(client, config, start, earlier, last);
      after.entries == if held.None? && Cacheable(IdealAnswer(client, config, last)) then
                         shelf.entries[KeyOf(config, last) := IdealAnswer(client, config, last)]
                       else shelf.entries
    ensures FiledFor(client, config, start, after, earlier + [last], s)
  {
    HeldSnoc(client, config, start, earlier, last, s);
    SameKeyIff(config, last, s);
  }

  // ---- one answer --------------------------------------------------------

  /** From a cache that is filed, the next subject gets its served answer and the cache stays filed. */
  lemma {:induction false} ServedNext(client: Client, config: ClassifyConfig, start: Option<Shelf>, st: State,
                                      earlier: seq<Subject>, last: Subject, gateCap: real, callCap: real)
    requires Filed(client, config, start, st.shelf, earlier)
    requires Regular(client, gateCap, callCap, st.stats.calls) &&
      Spent(st.stats.calls) + Worst(gateCap, callCap) < config.budget
    ensures var (after, c) := Classified(Some(client), config, st, last);
      && c == Served(client, config, start, earlier + [last], |earlier|)
      && Filed(client, config, start, after.shelf, earlier + [last])
      && Regular(client, gateCap, callCap, after.stats.calls)
      && Spent(after.stats.calls) <= Spent(st.stats.calls) + Worst(gateCap, callCap)
  {
    var (after, c) := Classified(Some(client), config, st, last);
    assert (earlier + [last])[..|earlier|] == earlier;
    if st.shelf.None? {
      MissIsIdeal(client, config, st, last, gateCap, callCap);
    } else {
      assert FiledFor(client, config, start.value, st.shelf.value, earlier, last);
      if Held(client, config, start.value, earlier, last).None? {
        MissIsIdeal(client, config, st, last, gateCap, callCap);
      }
      forall s: Subject ensures FiledFor(client, config, start.value, after.shelf.value, earlier + [last], s) {
        assert FiledFor(client, config, start.value, st.shelf.value, earlier, s);
        FiledOne(client, config, start.value, st.shelf.value, after.shelf.value, earlier, last, s);
      }
    }
  }

  // ---- a run -------------------------------------------------------------

  ghost predicate AnswersServed(client: Client, config: ClassifyConfig, start: Option<Shelf>, subjects: seq<Subject>,
                                answers: seq<Classification>) {
    && |answers| <= |subjects|
    && forall i :: 0 <= i < |answers| ==> answers[i] == Served(client, config, start, subjects, i)
  }

  lemma {:induction false} ServedSnoc(client: Client, config: ClassifyConfig, start: Option<Shelf>,
                                      subjects: seq<Subject>, answers: seq<Classification>)
    requires |answers| < |subjects| && AnswersServed(client, config, start, subjects, answers)
    ensures AnswersServed(client, config, start, subjects,
                          answers + [Served(client, config, start, subjects, |answers|)])
  {
  }

  /** Where the state of a run from `st` stands after `n` subjects. */
  ghost predicate InStep(client: Client, config: ClassifyConfig, st: State, after: State, subjects: seq<Subject>,
                         n: nat, gateCap: real, callCap: real)
    requires n <= |subjects|
  {
    && Filed(client, config, st.shelf, after.shelf, subjects[..n])
    && Regular(client, gateCap, callCap, after.stats.calls)
    && Spent(after.stats.calls) <= Spent(st.stats.calls) + Times(n, Worst(gateCap, callCap))
  }

  lemma {:induction false} ServedPrefix(client: Client, config: ClassifyConfig, start: Option<Shelf>,
                                        subjects: seq<Subject>, n: nat)
    requires n < |subjects|
    ensures subjects[..n] + [subjects[n]] == subjects[..n + 1]
    ensures Served(client, config, start, subjects[..n + 1], n) == Served(client, config, start, subjects, n)
  {
    assert subjects[..n + 1][..n] == subjects[..n];
  }

  lemma {:induction false} InStepNext(client: Client, config: ClassifyConfig, st: State, before: State,
                                      subjects: seq<Subject>, n: nat, gateCap: real, callCap: real)
    requires n < |subjects| && InStep(client, config, st, before, subjects, n, gateCap, callCap)
    requires Spent(st.stats.calls) + Times(|subjects|, Worst(gateCap, callCap)) < config.budget
    ensures var (after, c) := Classified(Some(client), config, before, subjects[n]);
      InStep(client, config, st, after, subjects, n + 1, gateCap, callCap)
      && c == Served(client, config, st.shelf, subjects, n)
  {
    TimesGrows(n + 1, |subjects|, Worst(gateCap, callCap));
    ServedPrefix(client, config, st.shelf, subjects, n);
    ServedNext(client, config, st.shelf, before, subjects[..n], subjects[n], gateCap, callCap);
  }

  ghost predicate Serving(client: Client, config: ClassifyConfig, st: State, subjects: seq<Subject>, n: nat,
                          gateCap: real, callCap: real)
    requires n <= |subjects|
  {
    var run := AnswerAll(Some(client), config, st, subjects[..n], |subjects|);
    && InStep(client, config, st, run.0, subjects, n, gateCap, callCap)
    && AnswersServed(client, config, st.shelf, subjects, run.1)
  }

  lemma {:induction false} ServingNext(client: Client, config: ClassifyConfig, st: State, subjects: seq<Subject>,
                                       n: nat, gateCap: real, callCap: real)
    requires n < |subjects| && Serving(client, config, st, subjects, n, gateCap, callCap)
    requires Spent(st.stats.calls) + Times(|subjects|, Worst(gateCap, callCap)) < config.budget
    ensures Serving(client, config, st, subjects, n + 1, gateCap, callCap)
  {
    var run := AnswerAll(Some(client), config, st, subjects[..n], |subjects|);
    InStepNext(client, config, st, run.0, subjects, n, gateCap, callCap);
    AnswerStep(Some(client), config, st, subjects, |subjects|, n);
    ServedSnoc(client, config, st.shelf, subjects, run.1);
  }

  lemma {:induction false} ServingAll(client: Client, config: ClassifyConfig, st: State, subjects: seq<Subject>, n: nat,
                                      gateCap: real, callCap: real)
    requires n <= |subjects| && (st.shelf.Some? ==> st.shelf.value.enabled)
    requires Regular(client, gateCap, callCap, st.stats.calls)
    requires Spent(st.stats.calls) + Times(|subjects|, Worst(gateCap, callCap)) < config.budget
    ensures Serving(client, config, st, subjects, n, gateCap, callCap)
  {
    if n == 0 {
      assert subjects[..0] == [];
    } else {
      ServingAll(client, config, st, subjects, n - 1, gateCap, callCap);
      ServingNext(client, config, st, subjects, n - 1, gateCap, callCap);
    }
  }

  /** Each answer of a run is the one the cache holds by then, or else the one that asking gives. */
  lemma {:induction false} RunIsServed(client: Client, config: ClassifyConfig, st: State, subjects: seq<Subject>,
                                       gateCap: real, callCap: real)
    requires st.shelf.Some? ==> st.shelf.value.enabled
    requires Regular(client, gateCap, callCap, st.stats.calls)
    requires Spent(st.stats.calls) + |subjects| as real * Worst(gateCap, callCap) < config.budget
    ensures AnswersServed(client, config, st.shelf, subjects,
                          AnswerAll(Some(client), config, st, subjects, |subjects|).1)
  {
    TimesIsProduct(|subjects|, Worst(gateCap, callCap));
    ServingAll(client, config, st, subjects, |subjects|, gateCap, callCap);
    assert subjects[..|subjects|] == subjects;
  }

  // ---- sharing is right exactly when -------------------------------------

  /** Subject `f` is the first on its context whose answer is worth keeping. */
  ghost predicate FirstKept(client: Client, config: ClassifyConfig, subjects: seq<Subject>, f: int) {
    && 0 <= f < |subjects| && Cacheable(IdealAnswer(client, config, subjects[f]))
    && forall j :: 0 <= j < f && subjects[j].context == subjects[f].context ==>
      !Cacheable(IdealAnswer(client, config, subjects[j]))
  }

  /** Subject `i` shares the answer of the earlier subject `f`. */
  ghost predicate Shares(client: Client, config: ClassifyConfig, subjects: seq<Subject>, f: int, i: int) {
    f < i < |subjects| && FirstKept(client, config, subjects, f) && subjects[f].context == subjects[i].context
  }

  lemma {:induction false} HeldIsFirst(client: Client, config: ClassifyConfig, start: Shelf, subjects: seq<Subject>,
                                       n: nat, i: nat)
    requires start.entries == map[] && n <= i < |subjects|
    ensures var held := Held(client, config, start, subjects[..n], subjects[i]);
      && (held.Some? ==> exists f :: f < n && Shares(client, config, subjects, f, i)
                          && held.value == IdealAnswer(client, config, subjects[f]))
      && (held.None? ==> forall j :: 0 <= j < n && subjects[j].context == subjects[i].context ==>
            !Cacheable(IdealAnswer(client, config, subjects[j])))
  {
    if n > 0 {
      var m := n - 1;
      HeldIsFirst(client, config, start, subjects, m, i);
      assert subjects[..n] == subjects[..m] + [subjects[m]];
      HeldSnoc(client, config, start, subjects[..m], subjects[m], subjects[i]);
      if Held(client, config, start, subjects[..m], subjects[i]).None?
        && subjects[m].context == subjects[i].context && Cacheable(IdealAnswer(client, config, subjects[m])) {
        assert Shares(client, config, subjects, m, i);
      }
    }
  }

  lemma {:induction false} SharesOne(client: Client, config: ClassifyConfig, subjects: seq<Subject>, i: nat, g: int)
    requires Shares(client, config, subjects, g, i)
    ensures forall f :: Shares(client, config, subjects, f, i) ==> f == g
  {
  }

  lemma {:induction false} AlikeIff(client: Client, config: ClassifyConfig, a: Subject, b: Subject)
    requires a.context == b.context
    ensures IdealAnswer(client, config, a) == IdealAnswer(client, config, b) <==>
      LetIn(client, config, a) == LetIn(client, config, b)
  {
    AskNeverPrefilters(client, config, a.context);
  }

  lemma {:induction false} ServedIdealIff(client: Client, config: ClassifyConfig, start: Shelf, subjects: seq<Subject>,
                                          i: nat)
    requires start.entries == map[] && i < |subjects|
    ensures Served(client, config, Some(start), subjects, i) == IdealAnswer(client, config, subjects[i]) <==>
      forall f :: Shares(client, config, subjects, f, i) ==>
        LetIn(client, config, subjects[f]) == LetIn(client, config, subjects[i])
  {
    HeldIsFirst(client, config, start, subjects, i, i);
    if f :| Shares(client, config, subjects, f, i) {
      assert Held(client, config, start, subjects[..i], subjects[i]).Some?;
      var g :| Shares(client, config, subjects, g, i)
        && Served(client, config, Some(start), subjects, i) == IdealAnswer(client, config, subjects[g]);
      AlikeIff(client, config, subjects[g], subjects[i]);
      SharesOne(client, config, subjects, i, g);
    }
  }

  lemma {:induction false} SameAnswersIff(client: Client, config: ClassifyConfig, start: Shelf, subjects: seq<Subject>,
                                          a: seq<Classification>, b: seq<Classification>)
    requires start.entries == map[] && |a| == |b| == |subjects|
    requires AnswersServed(client, config, Some(start), subjects, a)
    requires AnswersServed(client, config, None, subjects, b)
    ensures a == b <==> forall f, i :: Shares(client, config, subjects, f, i) ==>
        LetIn(client, config, subjects[f]) == LetIn(client, config, subjects[i])
  {
    forall i: nat | i < |subjects|
      ensures a[i] == b[i] <==> forall f :: Shares(client, config, subjects, f, i) ==>
        LetIn(client, config, subjects[f]) == LetIn(client, config, subjects[i])
    {
      ServedIdealIff(client, config, start, subjects, i);
    }
  }

  /** Any sequence of detections, from an empty cache: the answers are those without a cache if and only if the gate
      treats each detection like the first one on its context whose answer was kept. */
  lemma {:induction false} SharingIff(client: Client, config: ClassifyConfig, st: State, subjects: seq<Subject>,
                                      gateCap: real, callCap: real)
    requires st.shelf.Some? && st.shelf.value.enabled && st.shelf.value.entries == map[]
    requires Regular(client, gateCap, callCap, st.stats.calls)
    requires Spent(st.stats.calls) + |subjects| as real * Worst(gateCap, callCap) < config.budget
    ensures AnswerAll(Some(client), config, st, subjects, |subjects|).1 ==
      AnswerAll(Some(client), config, st.(shelf := None), subjects, |subjects|).1
      <==> forall f, i :: Shares(client, config, subjects, f, i) ==>
        LetIn(client, config, subjects[f]) == LetIn(client, config, subjects[i])
  {
    RunIsServed(client, config, st, subjects, gateCap, callCap);
    RunIsServed(client, config, st.(shelf := None), subjects, gateCap, callCap);
    SameAnswersIff(client, config, st.shelf.value, subjects,
      AnswerAll(Some(client), config, st, subjects, |subjects|).1,
      AnswerAll(Some(client), config, st.(shelf := None), subjects, |subjects|).1);
  }
}
