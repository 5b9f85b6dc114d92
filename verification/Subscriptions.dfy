/**
 Paddle subscription state and the entitlement derived from it (src/db/subscriptions.ts).
 Times are milliseconds. `updatedAt`, the wall clock of the write, is not part of a row.
 */
module Subscriptions {
  import opened Wrappers
  import opened Strings

  datatype Status = Active | Trialing | PastDue | Paused | Canceled

  datatype Details = Details(customerId: Option<string>, status: Status, priceId: string, quantity: int,
                             periodStart: Option<int>, periodEnd: Option<int>, canceledAt: Option<int>)

  // A Paddle event, and the stored row: the identity, the event's time and what Paddle reported.
  datatype Row = Row(orgId: string, id: string, occurredAt: int, details: Details)

  datatype Plan = PersonalPlan | TeamPlan

  datatype Entitlement = Entitlement(plan: Plan, status: Option<Status>, quantity: int, subscription: Option<Row>)

  // ------------------------------------------------------------------ upsert

  // Insert on a new id; on a conflict, update only for the same org and a strictly newer event.
  function Upsert(rows: map<string, Row>, e: Row): map<string, Row> {
    if e.id !in rows then rows[e.id := e]
    else if rows[e.id].orgId == e.orgId && rows[e.id].occurredAt < e.occurredAt
    then rows[e.id := rows[e.id].(occurredAt := e.occurredAt, details := e.details)]
    else rows
  }

  function SetQuantity(rows: map<string, Row>, id: string, quantity: int): map<string, Row>
    requires id in rows
  {
    rows[id := rows[id].(details := rows[id].details.(quantity := quantity))]
  }

  predicate HoldsQuantity(rows: map<string, Row>, orgId: string, id: string, expected: int) {
    id in rows && rows[id].orgId == orgId && rows[id].details.quantity == expected
  }

  class SubscriptionTable {
    var rows: map<string, Row>

    method ApplyPaddleSubscriptionEvent(input: Row) returns (row: Row)
      modifies this
      ensures rows == Upsert(old(rows), input)
      ensures input.id in rows && row == rows[input.id]
    {
      if input.id !in rows {
        rows := rows[input.id := input];
        return rows[input.id];
      }
      var stored := rows[input.id];
      if stored.orgId == input.orgId && stored.occurredAt < input.occurredAt {
        rows := rows[input.id := stored.(occurredAt := input.occurredAt, details := input.details)];
      }
      return rows[input.id];
    }

    method UpdateQuantity(orgId: string, id: string, quantity: int) returns (row: Option<Row>)
      modifies this
      ensures row.Some? <==> id in old(rows) && old(rows)[id].orgId == orgId
      ensures row.Some? ==> rows == SetQuantity(old(rows), id, quantity) && row.value == rows[id]
      ensures row.None? ==> rows == old(rows)
    {
      if id in rows && rows[id].orgId == orgId {
        rows := SetQuantity(rows, id, quantity);
        return Some(rows[id]);
      }
      return None;
    }

    method SetQuantityIf(orgId: string, id: string, expected: int, next: int) returns (won: bool)
      modifies this
      ensures won <==> id in old(rows) && old(rows)[id].orgId == orgId && old(rows)[id].details.quantity == expected
      ensures rows == if won then SetQuantity(old(rows), id, next) else old(rows)
    {
      won := HoldsQuantity(rows, orgId, id, expected);
      if won {
        rows := SetQuantity(rows, id, next);
      }
    }
  }

  // The table after n meter messages that observed the same quantity, and how many of them won.
  function Claims(rows: map<string, Row>, orgId: string, id: string, expected: int, next: int, n: nat)
    : (map<string, Row>, nat)
  {
    if n == 0 then (rows, 0)
    else
      var (before, wins) := Claims(rows, orgId, id, expected, next, n - 1);
      if HoldsQuantity(before, orgId, id, expected) then (SetQuantity(before, id, next), wins + 1) else (before, wins)
  }

  /**
   Of any number of redelivered meter messages exactly one claims the seat change, and it sticks. A
   message that changes nothing always wins.
   */
  lemma {:induction false} OneMessageClaims(rows: map<string, Row>, orgId: string, id: string, expected: int, next: int, n: nat)
    ensures var (rows', wins) := Claims(rows, orgId, id, expected, next, n);
            if n > 0 && HoldsQuantity(rows, orgId, id, expected)
            then wins == (if expected == next then n else 1) && rows' == SetQuantity(rows, id, next)
            else wins == 0 && rows' == rows
  {
    if n > 0 {
      OneMessageClaims(rows, orgId, id, expected, next, n - 1);
    }
  }

  // -------------------------------------------------------------- convergence

  function Deliver(rows: map<string, Row>, events: seq<Row>): map<string, Row> {
    if events == [] then rows else Upsert(Deliver(rows, events[..|events| - 1]), events[|events| - 1])
  }

  // Every event of the set, any number of times, in any order.
  ghost predicate IsDelivery(events: seq<Row>, all: set<Row>) {
    forall e :: e in events <==> e in all
  }

  ghost predicate Converges(all: set<Row>) {
    forall a, b | IsDelivery(a, all) && IsDelivery(b, all) :: Deliver(map[], a) == Deliver(map[], b)
  }

  // Events of one subscription name one org, and two of them share a time only below a later one.
  ghost predicate OneOrgOneLatest(all: set<Row>) {
    forall e, f | e in all && f in all && e.id == f.id ::
      && e.orgId == f.orgId
      && (e != f && e.occurredAt == f.occurredAt ==>
            exists g | g in all :: g.id == e.id && g.occurredAt > e.occurredAt)
  }

  // What a delivery that names one org per subscription leaves: for each id a delivered event of
  // the greatest time.
  ghost predicate HoldsLatest(rows: map<string, Row>, events: seq<Row>) {
    && (forall e | e in events :: e.id in rows && rows[e.id].occurredAt >= e.occurredAt)
    && (forall id | id in rows :: rows[id] in events && rows[id].id == id)
  }

  lemma {:induction false} DeliveryHoldsLatest(events: seq<Row>)
    requires forall e, f | e in events && f in events && e.id == f.id :: e.orgId == f.orgId
    ensures HoldsLatest(Deliver(map[], events), events)
  {
    if events != [] {
      var front, e := events[..|events| - 1], events[|events| - 1];
      assert events == front + [e];
      DeliveryHoldsLatest(front);
    }
  }

  lemma SameIds(all: set<Row>, a: seq<Row>, b: seq<Row>, id: string)
    requires IsDelivery(a, all) && IsDelivery(b, all)
    requires HoldsLatest(Deliver(map[], a), a) && HoldsLatest(Deliver(map[], b), b)
    ensures id in Deliver(map[], a) ==> id in Deliver(map[], b)
  {
    var s := Deliver(map[], a);
    if id in s {
      assert s[id] in all && s[id] in b;
    }
  }

  lemma SameRow(all: set<Row>, a: seq<Row>, b: seq<Row>, id: string)
    requires OneOrgOneLatest(all) && IsDelivery(a, all) && IsDelivery(b, all)
    requires HoldsLatest(Deliver(map[], a), a) && HoldsLatest(Deliver(map[], b), b)
    requires id in Deliver(map[], a) && id in Deliver(map[], b)
    ensures Deliver(map[], a)[id] == Deliver(map[], b)[id]
  {
    var e, f := Deliver(map[], a)[id], Deliver(map[], b)[id];
    assert e in all && f in all;
    assert e in b && f in a;
    forall g | g in all && g.id == id ensures g.occurredAt <= e.occurredAt {
      assert g in a;
    }
  }

  lemma OneLatestConverges(all: set<Row>, a: seq<Row>, b: seq<Row>)
    requires OneOrgOneLatest(all) && IsDelivery(a, all) && IsDelivery(b, all)
    ensures Deliver(map[], a) == Deliver(map[], b)
  {
    DeliveryHoldsLatest(a);
    DeliveryHoldsLatest(b);
    forall id ensures id in Deliver(map[], a) <==> id in Deliver(map[], b) {
      SameIds(all, a, b, id);
      SameIds(all, b, a, id);
    }
    forall id | id in Deliver(map[], a) ensures Deliver(map[], a)[id] == Deliver(map[], b)[id] {
      SameRow(all, a, b, id);
    }
  }

  lemma {:induction false} Listing(all: set<Row>) returns (events: seq<Row>)
    ensures IsDelivery(events, all)
  {
    if all == {} {
      events := [];
    } else {
      var e := Pick(all);
      var rest := Listing(all - {e});
      events := [e] + rest;
    }
  }

  // A delivery that begins with e keeps e's org, and keeps e itself unless a later event comes.
  lemma {:induction false} FirstEventWins(e: Row, rest: seq<Row>)
    ensures var rows := Deliver(map[], [e] + rest);
            && e.id in rows && rows[e.id].orgId == e.orgId && rows[e.id].occurredAt >= e.occurredAt
            && ((forall f | f in rest && f.id == e.id :: f.occurredAt <= e.occurredAt) ==> rows[e.id] == e)
  {
    var events := [e] + rest;
    if rest == [] {
      assert events[..|events| - 1] == [];
    } else {
      assert events[..|events| - 1] == [e] + rest[..|rest| - 1];
      FirstEventWins(e, rest[..|rest| - 1]);
    }
  }

  lemma ConvergenceNeedsOneLatest(all: set<Row>, e: Row, f: Row)
    requires Converges(all) && e in all && f in all && e.id == f.id
    ensures e.orgId == f.orgId
    ensures e != f && e.occurredAt == f.occurredAt ==> exists g | g in all :: g.id == e.id && g.occurredAt > e.occurredAt
  {
    var events := Listing(all);
    FirstEventWins(e, events);
    FirstEventWins(f, events);
    assert IsDelivery([e] + events, all) && IsDelivery([f] + events, all);
    assert Deliver(map[], [e] + events) == Deliver(map[], [f] + events);
  }

  /**
   Out-of-order convergence, exactly: every order of delivery with any duplicates ends in the same
   table if and only if the events of each subscription name one org and have one latest event.
   */
  lemma ConvergesExactly(all: set<Row>)
    ensures Converges(all) <==> OneOrgOneLatest(all)
  {
    if OneOrgOneLatest(all) {
      forall a, b | IsDelivery(a, all) && IsDelivery(b, all) ensures Deliver(map[], a) == Deliver(map[], b) {
        OneLatestConverges(all, a, b);
      }
    }
    if Converges(all) {
      forall e, f | e in all && f in all && e.id == f.id
        ensures e.orgId == f.orgId
        ensures e != f && e.occurredAt == f.occurredAt ==>
                  exists g | g in all :: g.id == e.id && g.occurredAt > e.occurredAt
      {
        ConvergenceNeedsOneLatest(all, e, f);
      }
    }
  }

  /** From any table, a stored row keeps its org and id and never goes back in time. */
  lemma {:induction false} RowsNeverMoveOrGoBack(rows: map<string, Row>, events: seq<Row>, id: string)
    requires id in rows
    ensures var rows' := Deliver(rows, events);
            id in rows' && rows'[id].orgId == rows[id].orgId && rows'[id].id == rows[id].id
            && rows'[id].occurredAt >= rows[id].occurredAt
            && (rows'[id].occurredAt == rows[id].occurredAt ==> rows'[id] == rows[id])
  {
    if events != [] {
      RowsNeverMoveOrGoBack(rows, events[..|events| - 1], id);
    }
  }

  // -------------------------------------------------------------- entitlement

  predicate IsEntitlingStatus(status: Status) {
    status == Active || status == Trialing || status == PastDue
  }

  function EntitlingRows(rows: seq<Row>): (r: seq<Row>)
    ensures forall x :: x in r <==> x in rows && IsEntitlingStatus(x.details.status)
  {
    if rows == [] then []
    else EntitlingRows(rows[..|rows| - 1])
         + if IsEntitlingStatus(rows[|rows| - 1].details.status) then [rows[|rows| - 1]] else []
  }

  // r replaces the best row so far: newer, or as new with a greater id.
  predicate Beats(r: Row, best: Row) {
    r.occurredAt > best.occurredAt || (r.occurredAt == best.occurredAt && Less(best.id, r.id))
  }

  function Newest(rows: seq<Row>): Row
    requires rows != []
  {
    if |rows| == 1 then rows[0]
    else
      var best := Newest(rows[..|rows| - 1]);
      if Beats(rows[|rows| - 1], best) then rows[|rows| - 1] else best
  }

  function ResolveEntitlement(rows: seq<Row>): Entitlement {
    var entitling := EntitlingRows(rows);
    if entitling == [] then Entitlement(PersonalPlan, None, 0, None)
    else
      var active := Newest(entitling);
      Entitlement(TeamPlan, Some(active.details.status), active.details.quantity, Some(active))
  }

  lemma BeatsIsTransitive(a: Row, b: Row, c: Row)
    requires Beats(a, b) && !Beats(c, b)
    ensures !Beats(c, a)
  {
    if Beats(c, a) && c.occurredAt == a.occurredAt == b.occurredAt {
      LessIsTransitive(b.id, a.id, c.id);
    }
  }

  lemma BeatsIsIrreflexive(a: Row)
    ensures !Beats(a, a)
  {
    LessIsIrreflexive(a.id);
  }

  lemma {:induction false} NewestIsUnbeaten(rows: seq<Row>)
    requires rows != []
    ensures Newest(rows) in rows
    ensures forall r | r in rows :: !Beats(r, Newest(rows))
  {
    var front, last := rows[..|rows| - 1], rows[|rows| - 1];
    assert rows == front + [last];
    BeatsIsIrreflexive(last);
    if |rows| > 1 {
      NewestIsUnbeaten(front);
      if Beats(last, Newest(front)) {
        forall r | r in front ensures !Beats(r, last) {
          BeatsIsTransitive(last, Newest(front), r);
        }
      }
    }
  }

  // The lexicographic maximum of (time, id) among the entitling rows.
  ghost predicate IsBest(all: set<Row>, r: Row) {
    && r in all && IsEntitlingStatus(r.details.status)
    && forall q | q in all && IsEntitlingStatus(q.details.status) :: !Beats(q, r)
  }

  ghost predicate DistinctIds(all: set<Row>) {
    forall a, b | a in all && b in all && a.id == b.id :: a == b
  }

  lemma BestIsUnique(all: set<Row>, a: Row, b: Row)
    requires DistinctIds(all) && IsBest(all, a) && IsBest(all, b)
    ensures a == b
  {
    LessIsTotal(a.id, b.id);
  }

  ghost predicate Lists(rows: seq<Row>, all: set<Row>) {
    forall r :: r in rows <==> r in all
  }

  /**
   The entitlement of a set of rows: Team exactly when some row is entitling, carried by the row
   with the lexicographically greatest (time, id), in whatever order the rows are read.
   */
  lemma EntitlementIsBest(rows: seq<Row>, all: set<Row>)
    requires Lists(rows, all)
    ensures ResolveEntitlement(rows).plan == TeamPlan <==> exists r | r in all :: IsEntitlingStatus(r.details.status)
    ensures ResolveEntitlement(rows).plan == PersonalPlan ==> ResolveEntitlement(rows) == Entitlement(PersonalPlan, None, 0, None)
    ensures ResolveEntitlement(rows).plan == TeamPlan ==>
              && var e := ResolveEntitlement(rows);
              && e.subscription.Some? && IsBest(all, e.subscription.value)
              && e.status == Some(e.subscription.value.details.status)
              && e.quantity == e.subscription.value.details.quantity
  {
    var entitling := EntitlingRows(rows);
    if entitling != [] {
      NewestIsUnbeaten(entitling);
      assert entitling[0] in entitling;
    }
  }

  /**
   The entitlement in full: Team exactly when some row is active, trialing or past due, carried by a row with
   one of these statuses such that no other of them is newer, or as new with a greater id.
   */
  lemma EntitlementExactly(rows: seq<Row>)
    ensures var e := ResolveEntitlement(rows);
            && (e.plan == TeamPlan <==> exists r | r in rows :: r.details.status in {Active, Trialing, PastDue})
            && (e.plan == PersonalPlan ==> e == Entitlement(PersonalPlan, None, 0, None))
            && (e.plan == TeamPlan ==>
                  && e.subscription.Some?
                  && var best := e.subscription.value;
                  && best in rows && best.details.status in {Active, Trialing, PastDue}
                  && e == Entitlement(TeamPlan, Some(best.details.status), best.details.quantity, Some(best))
                  && forall r | r in rows && r.details.status in {Active, Trialing, PastDue} ::
                       r.occurredAt <= best.occurredAt && (r.occurredAt == best.occurredAt ==> !Less(best.id, r.id)))
  {
    var all := set r | r in rows;
    EntitlementIsBest(rows, all);
    if r :| r in rows && r.details.status in {Active, Trialing, PastDue} {
      assert r in all && IsEntitlingStatus(r.details.status);
    }
    if ResolveEntitlement(rows).plan == TeamPlan {
      var best := ResolveEntitlement(rows).subscription.value;
      forall r | r in rows && r.details.status in {Active, Trialing, PastDue}
        ensures r.occurredAt <= best.occurredAt && (r.occurredAt == best.occurredAt ==> !Less(best.id, r.id))
      {
        assert r in all && IsEntitlingStatus(r.details.status) && !Beats(r, best);
      }
    }
  }

  lemma EntitlementIgnoresOrder(a: seq<Row>, b: seq<Row>, all: set<Row>)
    requires DistinctIds(all) && Lists(a, all) && Lists(b, all)
    ensures ResolveEntitlement(a) == ResolveEntitlement(b)
  {
    EntitlementIsBest(a, all);
    EntitlementIsBest(b, all);
    if ResolveEntitlement(a).plan == TeamPlan {
      BestIsUnique(all, ResolveEntitlement(a).subscription.value, ResolveEntitlement(b).subscription.value);
    }
  }

  /** The admin query orders entitling rows by time and id, both descending: its first row is ours. */
  lemma AdminQueryAgrees(rows: seq<Row>, all: set<Row>, ordered: seq<Row>)
    requires DistinctIds(all) && Lists(rows, all) && ordered != []
    requires forall r :: r in ordered <==> r in all && IsEntitlingStatus(r.details.status)
    requires forall i, j | 0 <= i < j < |ordered| :: !Beats(ordered[j], ordered[i])
    ensures ResolveEntitlement(rows).subscription == Some(ordered[0])
  {
    LessIsIrreflexive(ordered[0].id);
    assert ordered[0] in ordered;
    forall q | q in all && IsEntitlingStatus(q.details.status) ensures !Beats(q, ordered[0]) {
      assert q in ordered;
    }
    EntitlementIsBest(rows, all);
    BestIsUnique(all, ordered[0], ResolveEntitlement(rows).subscription.value);
  }

  function RowsOfOrg(rows: map<string, Row>, orgId: string): set<Row> {
    set id | id in rows && rows[id].orgId == orgId :: rows[id]
  }

  /** End to end: an org's entitlement does not depend on the order or repetition of its events. */
  lemma EntitlementConverges(all: set<Row>, a: seq<Row>, b: seq<Row>, orgId: string, x: seq<Row>, y: seq<Row>)
    requires OneOrgOneLatest(all) && IsDelivery(a, all) && IsDelivery(b, all)
    requires Lists(x, RowsOfOrg(Deliver(map[], a), orgId)) && Lists(y, RowsOfOrg(Deliver(map[], b), orgId))
    ensures ResolveEntitlement(x) == ResolveEntitlement(y)
  {
    OneLatestConverges(all, a, b);
    DeliveryHoldsLatest(a);
    EntitlementIgnoresOrder(x, y, RowsOfOrg(Deliver(map[], a), orgId));
  }

  // The event is the latest of its subscription.
  ghost predicate IsLatest(e: Row, all: set<Row>) {
    e in all && forall f | f in all && f.id == e.id :: f.occurredAt <= e.occurredAt
  }

  /**
   From events to access: whatever the order and repetition of its events, an org is on Team exactly when the
   latest event of one of its subscriptions is active, trialing or past due.
   */
  lemma TeamExactlyWhenLatestEntitles(all: set<Row>, a: seq<Row>, orgId: string, x: seq<Row>)
    requires OneOrgOneLatest(all) && IsDelivery(a, all) && Lists(x, RowsOfOrg(Deliver(map[], a), orgId))
    ensures ResolveEntitlement(x).plan == TeamPlan <==>
            exists e :: IsLatest(e, all) && e.orgId == orgId && e.details.status in {Active, Trialing, PastDue}
  {
    var rows := Deliver(map[], a);
    DeliveryHoldsLatest(a);
    EntitlementExactly(x);
    if r :| r in x && r.details.status in {Active, Trialing, PastDue} {
      assert r in RowsOfOrg(rows, orgId);
      var id :| id in rows && rows[id] == r;
      assert r in a;
      assert IsLatest(r, all);
    }
    if e :| IsLatest(e, all) && e.orgId == orgId && e.details.status in {Active, Trialing, PastDue} {
      assert e in a;
      LatestIsStored(all, a, e);
      assert e in RowsOfOrg(rows, orgId) && e in x;
    }
  }

  lemma LatestIsStored(all: set<Row>, a: seq<Row>, e: Row)
    requires OneOrgOneLatest(all) && IsDelivery(a, all) && IsLatest(e, all) && HoldsLatest(Deliver(map[], a), a)
    ensures e.id in Deliver(map[], a) && Deliver(map[], a)[e.id] == e
  {
    assert e in a;
    var f := Deliver(map[], a)[e.id];
    assert f in a;
  }

  // ------------------------------------------------- events that do not converge

  function Reported(orgId: string, status: Status): Row {
    Row(orgId, "sub", 1, Details(None, status, "price", 3, None, None, None))
  }

  lemma DeliverTwo(e: Row, f: Row)
    ensures Deliver(map[], [e, f]) == Upsert(Upsert(map[], e), f)
    ensures IsDelivery([e, f], {e, f}) && IsDelivery([f, e], {e, f})
  {
    assert [e, f][..1] == [e] && [e][..0] == [];
    assert Deliver(map[], [e]) == Upsert(map[], e);
  }

  lemma TwoOrders(e: Row, f: Row)
    requires e.id == f.id && (e.orgId != f.orgId || e.occurredAt == f.occurredAt)
    ensures Deliver(map[], [e, f]) == map[e.id := e] && Deliver(map[], [f, e]) == map[e.id := f]
    ensures e != f ==> !Converges({e, f})
  {
    DeliverTwo(e, f);
    DeliverTwo(f, e);
    assert {f, e} == {e, f};
    if e != f {
      assert Deliver(map[], [e, f])[e.id] != Deliver(map[], [f, e])[e.id];
    }
  }

  /**
   Two events of one subscription with one time do not converge, and not even the plan does: the order of
   delivery decides whether the org is on Team.
   */
  lemma EqualTimesDiverge() returns (e: Row, f: Row)
    ensures e.id == f.id && e.orgId == f.orgId && e.occurredAt == f.occurredAt && !Converges({e, f})
    ensures forall x | Lists(x, RowsOfOrg(Deliver(map[], [e, f]), e.orgId)) :: ResolveEntitlement(x).plan == TeamPlan
    ensures forall x | Lists(x, RowsOfOrg(Deliver(map[], [f, e]), e.orgId)) :: ResolveEntitlement(x).plan == PersonalPlan
  {
    e, f := Reported("acme", Active), Reported("acme", Canceled);
    TwoOrders(e, f);
    OnlyRow(e);
    OnlyRow(f);
  }

  /** Events that name two orgs do not converge either: the first one delivered claims the subscription. */
  lemma TwoOrgsDiverge() returns (e: Row, f: Row)
    ensures e.id == f.id && e.orgId != f.orgId && !Converges({e, f})
    ensures Deliver(map[], [e, f]) == map[e.id := e] && Deliver(map[], [f, e]) == map[e.id := f]
  {
    e, f := Reported("acme", Active), Reported("bolt", Active);
    assert "acme"[0] != "bolt"[0];
    TwoOrders(e, f);
  }

  lemma OnlyRow(r: Row)
    ensures forall x | Lists(x, RowsOfOrg(map[r.id := r], r.orgId)) ::
              ResolveEntitlement(x).plan == if IsEntitlingStatus(r.details.status) then TeamPlan else PersonalPlan
  {
    var rows := map[r.id := r];
    assert r.id in rows && rows[r.id] == r;
    assert RowsOfOrg(rows, r.orgId) == {r};
    forall x | Lists(x, RowsOfOrg(map[r.id := r], r.orgId))
      ensures ResolveEntitlement(x).plan == if IsEntitlingStatus(r.details.status) then TeamPlan else PersonalPlan
    {
      EntitlementIsBest(x, {r});
      assert r in {r};
    }
  }
}
