/** What the quarantine table keeps, whatever is done to it. */
module RecordLaws {
  import opened Models
  import opened Quarantine
  import opened Records

  /** At most one open quarantine per identity. */
  ghost predicate OneOpen(rows: seq<Row>) {
    forall i, j :: 0 <= i < j < |rows| && rows[i].state.IsOpen() && rows[j].state.IsOpen()
      ==> rows[i].identityId != rows[j].identityId
  }

  /** A closed row says when and why; an expired one was overdue when it was closed. */
  predicate RowOk(r: Row) {
    match r.state
    case Recommended | Active => r.closedAt.None? && r.closeReason.None?
    case Expired => r.closedAt.Some? && r.expiresAt <= r.closedAt.value && r.closeReason == Some(TtlElapsed(r.ttlDays))
    case Released => r.closedAt.Some? && r.closeReason.Some? && r.closeReason.value.CleanExecutions?
  }

  ghost predicate RowsOk(rows: seq<Row>) {
    forall i :: 0 <= i < |rows| ==> RowOk(rows[i])
  }

  ghost predicate Sound(rows: seq<Row>) { OneOpen(rows) && RowsOk(rows) }

  /** A closed row never changes again; an open one is untouched or closed, keeping what it recorded. */
  predicate RowEvolves(a: Row, b: Row) {
    b == a || (a.state.IsOpen() && !b.state.IsOpen()
               && b.(state := a.state, closedAt := a.closedAt, closeReason := a.closeReason) == a)
  }

  /** Rows are never deleted or renumbered. */
  ghost predicate Evolves(a: seq<Row>, b: seq<Row>) {
    && |a| <= |b|
    && forall i :: 0 <= i < |a| ==> RowEvolves(a[i], b[i])
  }

  lemma EvolvesTransitive(a: seq<Row>, b: seq<Row>, c: seq<Row>)
    requires Evolves(a, b) && Evolves(b, c)
    ensures Evolves(a, c)
  {
    forall i | 0 <= i < |a| ensures RowEvolves(a[i], c[i]) {
      assert RowEvolves(a[i], b[i]) && RowEvolves(b[i], c[i]);
    }
  }

  /** Closing rows in place opens nothing, so uniqueness of open rows survives. */
  lemma ClosingKeeps(a: seq<Row>, b: seq<Row>)
    requires Sound(a) && |a| == |b| && Evolves(a, b)
    requires forall i :: 0 <= i < |b| ==> RowOk(b[i])
    ensures Sound(b)
  {
    forall i, j | 0 <= i < j < |b| && b[i].state.IsOpen() && b[j].state.IsOpen()
      ensures b[i].identityId != b[j].identityId
    {
      assert RowEvolves(a[i], b[i]) && RowEvolves(a[j], b[j]);
    }
  }

  lemma RecordOneKeeps(rows: seq<Row>, r: Recommendation, state: State, now: int)
    requires Sound(rows) && state.IsOpen()
    ensures Sound(RecordOne(rows, r, state, now)) && Evolves(rows, RecordOne(rows, r, state, now))
  {
  }

  lemma {:induction false} RecordAllKeeps(rows: seq<Row>, rs: seq<Recommendation>, now: int)
    requires Sound(rows)
    ensures Sound(RecordAll(rows, rs, now)) && Evolves(rows, RecordAll(rows, rs, now))
  {
    if rs != [] {
      var earlier := RecordAll(rows, rs[..|rs| - 1], now);
      RecordAllKeeps(rows, rs[..|rs| - 1], now);
      RecordOneKeeps(earlier, rs[|rs| - 1], Recommended, now);
      EvolvesTransitive(rows, earlier, RecordAll(rows, rs, now));
    }
  }

  lemma ExpireKeeps(rows: seq<Row>, now: int)
    requires Sound(rows)
    ensures Sound(ExpireAll(rows, now)) && Evolves(rows, ExpireAll(rows, now))
    ensures forall i :: 0 <= i < |rows| ==> !Overdue(ExpireAll(rows, now)[i], now)
  {
    ClosingKeeps(rows, ExpireAll(rows, now));
  }

  lemma CloseKeeps(rows: seq<Row>, id: nat, cleanRuns: nat, now: int)
    requires Sound(rows)
    ensures var after := CloseAt(rows, id, Released, CleanExecutions(cleanRuns), now);
      Sound(after) && Evolves(rows, after)
  {
    ClosingKeeps(rows, CloseAt(rows, id, Released, CleanExecutions(cleanRuns), now));
  }

  /** After recording, every recommended identity has an open row. */
  lemma {:induction false} RecordedIsOpen(rows: seq<Row>, rs: seq<Recommendation>, now: int, r: Recommendation)
    requires r in rs && r.recommended
    ensures HasOpen(RecordAll(rows, rs, now), r.identityId)
  {
    var last, rest := rs[|rs| - 1], rs[..|rs| - 1];
    var earlier := RecordAll(rows, rest, now);
    var after := RecordAll(rows, rs, now);
    if r == last {
      if !HasOpen(earlier, r.identityId) { assert after[|after| - 1].identityId == r.identityId; }
    } else {
      assert rs == rest + [last];
      RecordedIsOpen(rows, rest, now, r);
      var i :| 0 <= i < |earlier| && earlier[i].identityId == r.identityId && earlier[i].state.IsOpen();
      assert after[i] == earlier[i];
    }
  }

  /** Recording what is already open changes nothing. */
  lemma {:induction false} RecordNothing(rows: seq<Row>, rs: seq<Recommendation>, now: int)
    requires forall r :: r in rs ==> !r.recommended || HasOpen(rows, r.identityId)
    ensures RecordAll(rows, rs, now) == rows
  {
    if rs != [] {
      RecordNothing(rows, rs[..|rs| - 1], now);
      assert rs[|rs| - 1] in rs;
    }
  }

  /** A row that recording one of `rs` makes. */
  ghost predicate MadeFrom(row: Row, rs: seq<Recommendation>, now: int) {
    exists r :: r in rs && r.recommended && row == MakeRow(r, Recommended, now)
  }

  /** Recording appends: the rows that were there stay, and each new one comes from a recommendation. */
  lemma {:induction false} RecordAppends(rows: seq<Row>, rs: seq<Recommendation>, now: int)
    ensures |rows| <= |RecordAll(rows, rs, now)| && RecordAll(rows, rs, now)[..|rows|] == rows
    ensures forall i :: |rows| <= i < |RecordAll(rows, rs, now)| ==> MadeFrom(RecordAll(rows, rs, now)[i], rs, now)
  {
    if rs != [] {
      var last, rest := rs[|rs| - 1], rs[..|rs| - 1];
      RecordAppends(rows, rest, now);
      var earlier, after := RecordAll(rows, rest, now), RecordAll(rows, rs, now);
      forall i | |rows| <= i < |after| ensures MadeFrom(after[i], rs, now) {
        if i < |earlier| {
          assert MadeFrom(earlier[i], rest, now);
        } else {
          assert last in rs;
        }
      }
    }
  }
}
