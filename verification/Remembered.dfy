/** Which answers the cache remembers, by their reasons, and for how long. */
module Remembered {
  import opened Models
  import opened Cache
  import opened Classifying
  import opened CacheLaws

  /** An answer that says nothing of the test: the call failed, the budget was spent, or no model was there. */
  predicate Passing(c: Classification) { c.downgrade in {ApiError, BudgetExhausted, LlmDisabled} }

  ghost predicate NonePassing(shelf: Option<Shelf>) {
    shelf.Some? ==> forall key :: key in shelf.value.entries ==> !Passing(shelf.value.entries[key])
  }

  /** One classification stores its answer exactly when that is no passing one, and the cache is on and had none. */
  lemma {:induction false} StoresIff(client: Client, config: ClassifyConfig, st: State, subject: Subject)
    requires st.shelf.Some?
    ensures var (after, c) := Classified(Some(client), config, st, subject);
      var key, before := KeyOf(config, subject), st.shelf.value;
      && after.shelf.Some?
      && after.shelf.value.entries ==
        if before.enabled && key !in before.entries && !Passing(c) then before.entries[key := c] else before.entries
  {
  }

  lemma {:induction false} StepKeepsNonePassing(client: Option<Client>, config: ClassifyConfig, st: State,
                                                subject: Subject, index: nat, limit: nat)
    requires NonePassing(st.shelf)
    ensures NonePassing(Next(client, config, st, subject, index, limit).0.shelf)
  {
    if client.Some? && index < limit && st.shelf.Some? { StoresIff(client.value, config, st, subject); }
  }

  /** After any run no entry is a passing answer. */
  lemma {:induction false} NoPassingEntries(client: Option<Client>, config: ClassifyConfig, st: State,
                                            subjects: seq<Subject>, limit: nat)
    requires NonePassing(st.shelf)
    ensures NonePassing(AnswerAll(client, config, st, subjects, limit).0.shelf)
    decreases |subjects|
  {
    if subjects != [] {
      var n := |subjects| - 1;
      NoPassingEntries(client, config, st, subjects[..n], limit);
      var before := AnswerAll(client, config, st, subjects[..n], limit).0;
      StepKeepsNonePassing(client, config, before, subjects[n], n, limit);
    }
  }

  lemma {:induction false} EntryServed(client: Client, config: ClassifyConfig, st: State, subject: Subject,
                                       c: Classification)
    requires st.shelf.Some? && st.shelf.value.enabled && KeyOf(config, subject) in st.shelf.value.entries
    requires st.shelf.value.entries[KeyOf(config, subject)] == c
    ensures var (after, again) := Classified(Some(client), config, st, subject);
      && again == c && after.stats.calls == st.stats.calls && after.stats.cacheHits == st.stats.cacheHits + 1
      && after.hitIds == st.hitIds + {subject.identityId}
  {
  }

  /** Any other answer is remembered: whatever else is asked in between, of whatever client, it is given again, without
      a call. */
  lemma {:induction false} ServedAgain(client: Client, config: ClassifyConfig, st: State, subject: Subject,
                                       later: Client, subjects: seq<Subject>, limit: nat)
    requires st.shelf.Some? && st.shelf.value.enabled
    requires !Passing(Classified(Some(client), config, st, subject).1)
    ensures var (after, c) := Classified(Some(client), config, st, subject);
      var before := AnswerAll(Some(later), config, after, subjects, limit).0;
      var (end, again) := Classified(Some(later), config, before, subject);
      again == c && end.stats.calls == before.stats.calls
  {
    var (after, c) := Classified(Some(client), config, st, subject);
    StoresIff(client, config, st, subject);
    StaysOnTop(later, config, after, subjects, limit, |subjects|);
    assert subjects[..|subjects|] == subjects;
    EntryServed(later, config, AnswerAll(Some(later), config, after, subjects, limit).0, subject, c);
  }

  /** A passing answer that was not in the cache leaves it as it was, so the model is asked again. */
  lemma {:induction false} AskedAgain(client: Client, config: ClassifyConfig, st: State, subject: Subject)
    requires st.shelf.Some? && KeyOf(config, subject) !in st.shelf.value.entries
    requires Passing(Classified(Some(client), config, st, subject).1)
    ensures Classified(Some(client), config, st, subject).0.shelf.value.entries == st.shelf.value.entries
  {
    StoresIff(client, config, st, subject);
  }
}
