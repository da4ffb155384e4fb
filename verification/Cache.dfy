/** classify/cache.py: the content-addressed cache. The digest in the key is collision-free, so a key stands for
    the text it digests; the files are a map. */
module Cache {
  import opened Models

  const SEPARATOR: char := '\U{001f}'
  const FORMAT_VERSION: string := "1"
  const GATE_MARK: string := "+gate:"

  function ContextKey(context: string, model: string, promptVersion: string): string {
    FORMAT_VERSION + [SEPARATOR] + model + [SEPARATOR] + promptVersion + [SEPARATOR] + context
  }

  /** The gate's model is part of the identity: the gate can turn an answer into an abstention. */
  function CacheModelId(classifierModel: string, gateModel: Option<string>): string {
    if gateModel.None? then classifierModel else classifierModel + GATE_MARK + gateModel.value
  }

  lemma FirstMark(s: string, a: string, rest: string, mark: char)
    requires mark !in a && s == a + [mark] + rest
    ensures |a| < |s| && s[|a|] == mark && (forall k :: 0 <= k < |a| ==> s[k] != mark)
    ensures s[..|a|] == a && s[|a| + 1..] == rest
  {
    assert s[..|a|] == a;
  }

  /** Splitting at the first separator is unambiguous. */
  lemma SplitAt(a: string, b: string, restA: string, restB: string, mark: char)
    requires mark !in a && mark !in b
    requires a + [mark] + restA == b + [mark] + restB
    ensures a == b && restA == restB
  {
    var s := a + [mark] + restA;
    FirstMark(s, a, restA, mark);
    FirstMark(s, b, restB, mark);
  }

  predicate Plain(s: string) { SEPARATOR !in s }

  /** Distinct requests have distinct keys, whatever the context holds, when the two names hold no separator. */
  lemma KeyIsInjective(context: string, model: string, version: string, context': string, model': string,
                       version': string)
    requires Plain(model) && Plain(version) && Plain(model') && Plain(version')
    requires ContextKey(context, model, version) == ContextKey(context', model', version')
    ensures context == context' && model == model' && version == version'
  {
    var rest := model + [SEPARATOR] + (version + [SEPARATOR] + context);
    var rest' := model' + [SEPARATOR] + (version' + [SEPARATOR] + context');
    assert ContextKey(context, model, version) == FORMAT_VERSION + [SEPARATOR] + rest;
    assert ContextKey(context', model', version') == FORMAT_VERSION + [SEPARATOR] + rest';
    SplitAt(FORMAT_VERSION, FORMAT_VERSION, rest, rest', SEPARATOR);
    SplitAt(model, model', version + [SEPARATOR] + context, version' + [SEPARATOR] + context', SEPARATOR);
    SplitAt(version, version', context, context', SEPARATOR);
  }

  /** The part of the key before the context that depends on the two names. */
  function Names(model: string, version: string): string {
    model + [SEPARATOR] + version + [SEPARATOR]
  }

  lemma {:induction false} KeyIsNames(context: string, model: string, version: string)
    ensures ContextKey(context, model, version) == (FORMAT_VERSION + [SEPARATOR]) + (Names(model, version) + context)
  {
  }

  /** Under one model and prompt version the key determines the context, whatever the names hold. */
  lemma {:induction false} ContextIsInKey(context: string, context': string, model: string, version: string)
    requires ContextKey(context, model, version) == ContextKey(context', model, version)
    ensures context == context'
  {
    KeyIsNames(context, model, version);
    KeyIsNames(context', model, version);
    SameTail(FORMAT_VERSION + [SEPARATOR], Names(model, version) + context, Names(model, version) + context');
    SameTail(Names(model, version), context, context');
  }

  lemma {:induction false} SameTail(head: string, a: string, b: string)
    requires head + a == head + b
    ensures a == b
  {
    assert (head + a)[|head|..] == a && (head + b)[|head|..] == b;
  }

  /** Some two contexts get one key under the two pairs of names. */
  ghost predicate KeysMeet(model: string, version: string, model': string, version': string) {
    exists c, c' :: ContextKey(c, model, version) == ContextKey(c', model', version')
  }

  lemma {:induction false} LongerNamesMeet(model: string, version: string, model': string, version': string)
    requires Names(model, version) <= Names(model', version')
    ensures KeysMeet(model, version, model', version') && KeysMeet(model', version', model, version)
  {
    var rest := Names(model', version')[|Names(model, version)|..];
    assert Names(model, version) + rest == Names(model', version') + "";
    KeyIsNames(rest, model, version);
    KeyIsNames("", model', version');
    assert ContextKey(rest, model, version) == ContextKey("", model', version');
  }

  lemma {:induction false} MeetingNames(c: string, model: string, version: string, c': string, model': string,
                                        version': string)
    requires ContextKey(c, model, version) == ContextKey(c', model', version')
    ensures Names(model, version) <= Names(model', version') || Names(model', version') <= Names(model, version)
  {
    KeyIsNames(c, model, version);
    KeyIsNames(c', model', version');
    SameTail(FORMAT_VERSION + [SEPARATOR], Names(model, version) + c, Names(model', version') + c');
    var s, m, n := Names(model, version) + c, |Names(model, version)|, |Names(model', version')|;
    assert s[..m] == Names(model, version) && s[..n] == Names(model', version');
    if m <= n { assert s[..m] == s[..n][..m]; } else { assert s[..n] == s[..m][..n]; }
  }

  /** The exact condition: two pairs of names can share a key if and only if one is written before the context
      just as the other begins. */
  lemma {:induction false} KeysMeetIff(model: string, version: string, model': string, version': string)
    ensures KeysMeet(model, version, model', version') <==>
      Names(model, version) <= Names(model', version') || Names(model', version') <= Names(model, version)
  {
    if Names(model, version) <= Names(model', version') {
      LongerNamesMeet(model, version, model', version');
    } else if Names(model', version') <= Names(model, version) {
      LongerNamesMeet(model', version', model, version);
    } else if KeysMeet(model, version, model', version') {
      var c, c' :| ContextKey(c, model, version) == ContextKey(c', model', version');
      MeetingNames(c, model, version, c', model', version');
    }
  }

  /** A separator in a model name lets two requests of one prompt version share an entry. */
  lemma {:induction false} SeparatorCollides()
    ensures
      var context := "z" + [SEPARATOR] + "p" + [SEPARATOR] + "c";
      var model := "m" + [SEPARATOR] + "p" + [SEPARATOR] + "z";
      Plain("p") && ContextKey(context, "m", "p") == ContextKey("c", model, "p")
  {
    var context := "z" + [SEPARATOR] + "p" + [SEPARATOR] + "c";
    var model := "m" + [SEPARATOR] + "p" + [SEPARATOR] + "z";
    assert ContextKey(context, "m", "p") == ContextKey("c", model, "p");
  }

  /** One name is the other with a gate marked on to it. */
  predicate NamesGate(a: string, b: string) { a + GATE_MARK <= b }

  lemma {:induction false} InsideMark(s: string, i: nat, n: nat)
    requires i + 6 <= |s| && s[i..i + 6] == GATE_MARK && 0 < n < 6
    ensures s[i + n] != '+'
  {
    assert s[i + n] == s[i..i + 6][n] == GATE_MARK[n];
  }

  /** The mark starts with a character that is nowhere else in it, so no two occurrences overlap. */
  lemma {:induction false} MarksAlign(a: string, restA: string, b: string, restB: string)
    requires a + GATE_MARK + restA == b + GATE_MARK + restB && |a| < |b|
    ensures NamesGate(a, b)
  {
    var s, n := a + GATE_MARK + restA, |b| - |a|;
    assert s[..|b|] == b && s[..|a|] == a;
    assert s[|a|..|a| + 6] == GATE_MARK && s[|b|..|b| + 6] == GATE_MARK;
    assert s[|b|] == s[|b|..|b| + 6][0] == '+';
    if n < 6 {
      InsideMark(s, |a|, n);
      assert false;
    }
    assert b[..|a| + 6] == s[..|a| + 6] == a + GATE_MARK;
  }

  lemma {:induction false} GateShows(a: string, gate: string)
    ensures NamesGate(a, CacheModelId(a, Some(gate)))
  {
    assert CacheModelId(a, Some(gate))[..|a| + 6] == a + GATE_MARK;
  }

  /** Gated and ungated runs never share entries, nor do two different gates or classifiers, unless a classifier's
      name is another's with a gate marked on. */
  lemma {:induction false} ModelIdIsInjective(a: string, gateA: Option<string>, b: string, gateB: Option<string>)
    requires !NamesGate(a, b) && !NamesGate(b, a)
    requires CacheModelId(a, gateA) == CacheModelId(b, gateB)
    ensures a == b && gateA == gateB
  {
    if gateA.Some? && gateB.Some? {
      if |a| < |b| { MarksAlign(a, gateA.value, b, gateB.value); }
      if |b| < |a| { MarksAlign(b, gateB.value, a, gateA.value); }
      var s := CacheModelId(a, gateA);
      assert s[..|a|] == a && s[..|b|] == b;
      assert s[|a| + 6..] == gateA.value && s[|b| + 6..] == gateB.value;
    } else if gateA.Some? {
      GateShows(a, gateA.value);
      assert false;
    } else if gateB.Some? {
      GateShows(b, gateB.value);
      assert false;
    }
  }

  ghost predicate IdsCollide(a: string, b: string) {
    exists gateA, gateB :: (a != b || gateA != gateB) && CacheModelId(a, gateA) == CacheModelId(b, gateB)
  }

  lemma {:induction false} GatedCollides(a: string, b: string)
    requires NamesGate(a, b)
    ensures IdsCollide(a, b) && IdsCollide(b, a)
  {
    var gate := b[|a| + 6..];
    assert a + GATE_MARK + gate == b;
    assert CacheModelId(a, Some(gate)) == CacheModelId(b, None);
    assert a != b;
  }

  /** Exactly then can two different choices of classifier and gate share an identity. */
  lemma {:induction false} IdsCollideIff(a: string, b: string)
    ensures IdsCollide(a, b) <==> NamesGate(a, b) || NamesGate(b, a)
  {
    if NamesGate(a, b) {
      GatedCollides(a, b);
    } else if NamesGate(b, a) {
      GatedCollides(b, a);
    } else if IdsCollide(a, b) {
      var gateA, gateB :| (a != b || gateA != gateB) && CacheModelId(a, gateA) == CacheModelId(b, gateB);
      ModelIdIsInjective(a, gateA, b, gateB);
      assert false;
    }
  }

  predicate Cacheable(c: Classification) {
    !c.downgrade.ApiError? && !c.downgrade.BudgetExhausted? && !c.downgrade.LlmDisabled?
  }

  datatype Shelf = Shelf(enabled: bool, entries: map<string, Classification>, hits: nat, misses: nat, writes: nat)

  function Found(s: Shelf, key: string): Option<Classification> {
    if s.enabled && key in s.entries then Some(s.entries[key]) else None
  }

  function Looked(s: Shelf, key: string): Shelf {
    if !s.enabled then s else if key in s.entries then s.(hits := s.hits + 1) else s.(misses := s.misses + 1)
  }

  function Stored(s: Shelf, key: string, c: Classification): Shelf {
    if s.enabled && Cacheable(c) then s.(entries := s.entries[key := c], writes := s.writes + 1) else s
  }

  class ClassificationCache {
    const enabled: bool
    var entries: map<string, Classification>
    var hits: nat
    var misses: nat
    var writes: nat

    function View(): Shelf
      reads this
    {
      Shelf(enabled, entries, hits, misses, writes)
    }

    constructor (enabled: bool, entries: map<string, Classification>)
      ensures View() == Shelf(enabled, entries, 0, 0, 0)
    {
      this.enabled, this.entries := enabled, entries;
      hits, misses, writes := 0, 0, 0;
    }

    method Get(key: string) returns (cached: Option<Classification>)
      modifies this
      ensures View() == Looked(old(View()), key) && cached == Found(old(View()), key)
    {
      if !enabled {
        return None;
      }
      if key in entries {
        hits := hits + 1;
        return Some(entries[key]);
      }
      misses := misses + 1;
      return None;
    }

    method Put(key: string, c: Classification)
      modifies this
      ensures View() == Stored(old(View()), key, c)
    {
      if !enabled || !Cacheable(c) {
        return;
      }
      entries := entries[key := c];
      writes := writes + 1;
    }
  }
}
