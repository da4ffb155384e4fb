/** policy/records.py: the quarantine table and its lifecycle. */
module Records {
  import opened Models
  import opened Quarantine
  import Sorting

  datatype State = Recommended | Active | Expired | Released {
    predicate IsOpen() { Recommended? || Active? }
  }

  datatype Reason = TtlElapsed(days: nat) | CleanExecutions(count: nat)

  /** A row id is the row's position; rows are never deleted. */
  datatype Row = Row(
    identityId: nat, state: State, cause: CauseCode, flakeRate: real, observations: nat, ttlDays: nat,
    cleanRunsRequired: nat, createdAt: int, expiresAt: int, closedAt: Option<int>, closeReason: Option<Reason>)

  // ---- the writes --------------------------------------------------------

  predicate HasOpen(rows: seq<Row>, identityId: nat) {
    exists i :: 0 <= i < |rows| && rows[i].identityId == identityId && rows[i].state.IsOpen()
  }

  function OpenIdsIn(rows: seq<Row>): set<nat> {
    set r | r in rows && r.state.IsOpen() :: r.identityId
  }

  function MakeRow(r: Recommendation, state: State, now: int): Row {
    Row(r.identityId, state, r.cause, r.flakeRate, r.observations, r.ttlDays, r.cleanRunsRequired, now,
        if r.expiresAt.Some? then r.expiresAt.value else now, None, None)
  }

  /** Insert unless not recommended, or unless the partial unique index on open rows objects. */
  function RecordOne(rows: seq<Row>, r: Recommendation, state: State, now: int): seq<Row> {
    if !r.recommended || (state.IsOpen() && HasOpen(rows, r.identityId)) then rows
    else rows + [MakeRow(r, state, now)]
  }

  function RecordAll(rows: seq<Row>, rs: seq<Recommendation>, now: int): seq<Row> {
    if rs == [] then rows else RecordOne(RecordAll(rows, rs[..|rs| - 1], now), rs[|rs| - 1], Recommended, now)
  }

  function CloseAt(rows: seq<Row>, id: nat, state: State, reason: Reason, now: int): (r: seq<Row>)
    ensures |r| == |rows|
  {
    if id < |rows| && rows[id].state.IsOpen() then
      rows[id := rows[id].(state := state, closedAt := Some(now), closeReason := Some(reason))]
    else rows
  }

  predicate Overdue(r: Row, now: int) { r.state.IsOpen() && IsExpired(r.expiresAt, now) }

  function Expire(r: Row, now: int): Row {
    if Overdue(r, now) then r.(state := Expired, closedAt := Some(now), closeReason := Some(TtlElapsed(r.ttlDays)))
    else r
  }

  function ExpireAll(rows: seq<Row>, now: int): (r: seq<Row>)
    ensures |r| == |rows|
  {
    seq(|rows|, i requires 0 <= i < |rows| => Expire(rows[i], now))
  }

  // ---- the store ---------------------------------------------------------

  function OpenPositions(rows: seq<Row>, n: nat): seq<nat>
    requires n <= |rows|
  {
    if n == 0 then []
    else OpenPositions(rows, n - 1) + if rows[n - 1].state.IsOpen() then [n - 1] else []
  }

  predicate EarlierExpiry(rows: seq<Row>, a: nat, b: nat) {
    a < |rows| && b < |rows| &&
      (rows[a].expiresAt < rows[b].expiresAt || (rows[a].expiresAt == rows[b].expiresAt && a <= b))
  }

  /** The open rows, ORDER BY expires_at, id. */
  function Listing(rows: seq<Row>): seq<nat> {
    Sorting.SortBy(OpenPositions(rows, |rows|), (a, b) => EarlierExpiry(rows, a, b))
  }

  lemma {:induction false} OpenPositionsAre(rows: seq<Row>, n: nat)
    requires n <= |rows|
    ensures forall id: nat :: id in OpenPositions(rows, n) <==> id < n && rows[id].state.IsOpen()
    ensures Sorting.NoRepeats(OpenPositions(rows, n))
  {
    if n > 0 {
      OpenPositionsAre(rows, n - 1);
      if rows[n - 1].state.IsOpen() { Sorting.JoinWithoutRepeats(OpenPositions(rows, n - 1), [n - 1]); }
    }
  }

  ghost predicate ByExpiry(rows: seq<Row>, ids: seq<nat>) {
    forall i, j :: 0 <= i < j < |ids| ==> NoLaterExpiry(rows, ids[i], ids[j])
  }

  /** Row `a` expires before `b`, or together with it and is the older one. */
  predicate NoLaterExpiry(rows: seq<Row>, a: nat, b: nat) {
    && a < |rows| && b < |rows| && rows[a].expiresAt <= rows[b].expiresAt
    && (rows[a].expiresAt == rows[b].expiresAt ==> a <= b)
  }

  lemma {:induction false} SortsByExpiry(rows: seq<Row>, ids: seq<nat>, le: (nat, nat) -> bool)
    requires forall a, b :: le(a, b) == EarlierExpiry(rows, a, b)
    requires forall id :: id in ids ==> id < |rows|
    ensures ByExpiry(rows, Sorting.SortBy(ids, le))
  {
    assert forall id :: id in multiset(ids) ==> id in ids;
    Sorting.SortBySorts(ids, le);
    var sorted := Sorting.SortBy(ids, le);
    forall i, j | 0 <= i < j < |sorted| ensures NoLaterExpiry(rows, sorted[i], sorted[j]) {
      Sorting.SortedIndex(sorted, le, i, j);
    }
  }

  /** Every open row is listed exactly once, by expiry and then by age. */
  lemma {:induction false} ListingIs(rows: seq<Row>)
    ensures forall id: nat :: id in Listing(rows) <==> id < |rows| && rows[id].state.IsOpen()
    ensures Sorting.NoRepeats(Listing(rows))
    ensures ByExpiry(rows, Listing(rows))
  {
    var ids := OpenPositions(rows, |rows|);
    OpenPositionsAre(rows, |rows|);
    SortsByExpiry(rows, ids, (a: nat, b: nat) => EarlierExpiry(rows, a, b));
    Sorting.SortElements(ids, (a, b) => EarlierExpiry(rows, a, b));
    Sorting.SameElements(Listing(rows), ids);
    Sorting.ReorderWithoutRepeats(ids, Listing(rows));
  }

  class QuarantineStore {
    var rows: seq<Row>

    constructor ()
      ensures rows == []
    {
      rows := [];
    }

    method RecordRecommendation(r: Recommendation, state: State, now: int) returns (id: Option<nat>)
      modifies this
      ensures rows == RecordOne(old(rows), r, state, now)
      ensures id == if |rows| > |old(rows)| then Some(|old(rows)|) else None
    {
      if !r.recommended {
        return None;
      }
      if state.IsOpen() && HasOpen(rows, r.identityId) {
        return None;
      }
      id := Some(|rows|);
      rows := rows + [MakeRow(r, state, now)];
    }

    method Record(rs: seq<Recommendation>, now: int) returns (recorded: nat)
      modifies this
      ensures rows == RecordAll(old(rows), rs, now)
      ensures recorded == |rows| - |old(rows)|
    {
      recorded := 0;
      for k := 0 to |rs|
        invariant rows == RecordAll(old(rows), rs[..k], now)
        invariant recorded == |rows| - |old(rows)|
      {
        assert rs[..k + 1][..k] == rs[..k];
        var id := RecordRecommendation(rs[k], Recommended, now);
        if id.Some? {
          recorded := recorded + 1;
        }
      }
      assert rs[..|rs|] == rs;
    }

    method Close(id: nat, state: State, reason: Reason, now: int) returns (closed: bool)
      modifies this
      ensures rows == CloseAt(old(rows), id, state, reason, now)
      ensures closed <==> id < |old(rows)| && old(rows)[id].state.IsOpen()
    {
      closed := id < |rows| && rows[id].state.IsOpen();
      if closed {
        rows := rows[id := rows[id].(state := state, closedAt := Some(now), closeReason := Some(reason))];
      }
    }

    function OpenIds(): set<nat>
      reads this
    {
      OpenIdsIn(rows)
    }

    method ExpireOverdue(now: int) returns (expired: seq<nat>)
      modifies this
      ensures rows == ExpireAll(old(rows), now)
      ensures forall id: nat :: id in expired <==> id < |old(rows)| && Overdue(old(rows)[id], now)
    {
      var before, ids := rows, Listing(rows);
      ListingIs(rows);
      expired := [];
      for k := 0 to |ids|
        invariant |rows| == |before|
        invariant forall id: nat :: id in expired <==> id in ids[..k] && id < |before| && Overdue(before[id], now)
        invariant forall id: nat :: id < |rows| ==>
          rows[id] == if id in expired then Expire(before[id], now) else before[id]
      {
        assert ids[..k + 1] == ids[..k] + [ids[k]];
        assert ids[k] in ids;
        if Overdue(before[ids[k]], now) {
          assert ids[k] !in ids[..k];
          var _ := Close(ids[k], Expired, TtlElapsed(before[ids[k]].ttlDays), now);
          expired := expired + [ids[k]];
        }
      }
      assert ids[..|ids|] == ids;
    }

    method Release(id: nat, cleanRuns: nat, now: int) returns (released: bool)
      modifies this
      ensures rows == CloseAt(old(rows), id, Released, CleanExecutions(cleanRuns), now)
      ensures released <==> id < |old(rows)| && old(rows)[id].state.IsOpen()
    {
      released := Close(id, Released, CleanExecutions(cleanRuns), now);
    }
  }
}
