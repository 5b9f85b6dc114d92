/**
 Paddle events interleaved with the writes of metering, which set the quantity of a row
 (src/db/subscriptions.ts, src/metering/meter.ts). What an event reports converges whatever metering writes
 in between; the quantity depends on the order.
 */
module SubscriptionWrites {
  import opened Subscriptions
  import opened Wrappers

  datatype Write =
    | Event(e: Row)
    | SetIf(orgId: string, id: string, expected: int, next: int)
    | SetTo(orgId: string, id: string, quantity: int)

  // One write, as the methods of SubscriptionTable leave the table.
  function Apply(rows: map<string, Row>, w: Write): map<string, Row> {
    match w
    case Event(e) => Upsert(rows, e)
    case SetIf(orgId, id, expected, next) =>
      if HoldsQuantity(rows, orgId, id, expected) then SetQuantity(rows, id, next) else rows
    case SetTo(orgId, id, quantity) =>
      if id in rows && rows[id].orgId == orgId then SetQuantity(rows, id, quantity) else rows
  }

  function Run(rows: map<string, Row>, writes: seq<Write>): map<string, Row> {
    if writes == [] then rows else Apply(Run(rows, writes[..|writes|-1]), writes[|writes|-1])
  }

  function EventsOf(writes: seq<Write>): seq<Row> {
    if writes == [] then []
    else EventsOf(writes[..|writes|-1]) + if writes[|writes|-1].Event? then [writes[|writes|-1].e] else []
  }

  // A row without its quantity.
  function Blank(r: Row): Row {
    r.(details := r.details.(quantity := 0))
  }

  function Erase(rows: map<string, Row>): map<string, Row> {
    map id | id in rows :: Blank(rows[id])
  }

  function Blanks(events: seq<Row>): (r: seq<Row>)
    ensures |r| == |events|
  {
    seq(|events|, i requires 0 <= i < |events| => Blank(events[i]))
  }

  lemma EraseUpsert(rows: map<string, Row>, e: Row)
    ensures Erase(Upsert(rows, e)) == Upsert(Erase(rows), Blank(e))
  {
  }

  lemma EraseQuantity(rows: map<string, Row>, w: Write)
    requires !w.Event?
    ensures Erase(Apply(rows, w)) == Erase(rows)
  {
  }

  lemma {:induction false} EraseDeliver(rows: map<string, Row>, events: seq<Row>)
    ensures Erase(Deliver(rows, events)) == Deliver(Erase(rows), Blanks(events))
  {
    if events != [] {
      var front, e := events[..|events|-1], events[|events|-1];
      EraseDeliver(rows, front);
      EraseUpsert(Deliver(rows, front), e);
      assert Blanks(events)[..|events|-1] == Blanks(front);
    }
  }

  // Apart from quantities, a run leaves what its events alone leave.
  lemma {:induction false} EraseRun(rows: map<string, Row>, writes: seq<Write>)
    ensures Erase(Run(rows, writes)) == Erase(Deliver(rows, EventsOf(writes)))
  {
    if writes != [] {
      var front, w := writes[..|writes|-1], writes[|writes|-1];
      EraseRun(rows, front);
      if w.Event? {
        EraseUpsert(Run(rows, front), w.e);
        EraseUpsert(Deliver(rows, EventsOf(front)), w.e);
        assert EventsOf(writes)[..|EventsOf(front)|] == EventsOf(front);
      } else {
        EraseQuantity(Run(rows, front), w);
        assert EventsOf(front) + [] == EventsOf(front);
      }
    }
  }

  /**
   Whatever metering writes in between, two runs with the same events end in tables that agree on
   everything but quantities.
   */
  lemma ConvergesButForQuantities(all: set<Row>, a: seq<Write>, b: seq<Write>)
    requires OneOrgOneLatest(all) && IsDelivery(EventsOf(a), all) && IsDelivery(EventsOf(b), all)
    ensures Erase(Run(map[], a)) == Erase(Run(map[], b))
  {
    EraseRun(map[], a);
    EraseRun(map[], b);
    OneLatestConverges(all, EventsOf(a), EventsOf(b));
  }

  // ---------- The entitlement ----------

  ghost predicate StoredById(rows: map<string, Row>) {
    forall id | id in rows :: rows[id].id == id
  }

  lemma {:induction false} RunsStoreById(writes: seq<Write>)
    ensures StoredById(Run(map[], writes))
  {
    if writes != [] {
      RunsStoreById(writes[..|writes|-1]);
    }
  }

  lemma Twin(rows: map<string, Row>, rows': map<string, Row>, orgId: string, r: Row) returns (r': Row)
    requires StoredById(rows) && StoredById(rows') && Erase(rows) == Erase(rows')
    requires r in RowsOfOrg(rows, orgId)
    ensures r' in RowsOfOrg(rows', orgId) && Blank(r') == Blank(r)
  {
    var id :| id in rows && rows[id] == r;
    assert id in Erase(rows) && id in Erase(rows');
    assert Blank(rows'[id]) == Erase(rows')[id] == Erase(rows)[id] == Blank(rows[id]);
    r' := rows'[id];
  }

  // The entitling rows of one table have entitling twins in the other, so a best row has a best twin.
  lemma BestHasBestTwin(rows: map<string, Row>, rows': map<string, Row>, orgId: string, r: Row) returns (r': Row)
    requires StoredById(rows) && StoredById(rows') && Erase(rows) == Erase(rows')
    requires IsBest(RowsOfOrg(rows, orgId), r)
    ensures IsBest(RowsOfOrg(rows', orgId), r') && Blank(r') == Blank(r)
  {
    r' := Twin(rows, rows', orgId, r);
    SameBlankSameOrder(r, r');
    forall q' | q' in RowsOfOrg(rows', orgId) && IsEntitlingStatus(q'.details.status) ensures !Beats(q', r') {
      var q := Twin(rows', rows, orgId, q');
      SameBlankSameOrder(q, q');
      assert IsEntitlingStatus(q.details.status) && !Beats(q, r);
    }
  }

  lemma SameBlankSameOrder(r: Row, r': Row)
    requires Blank(r) == Blank(r')
    ensures r.id == r'.id && r.orgId == r'.orgId && r.occurredAt == r'.occurredAt && r.details.status == r'.details.status
  {
    assert Blank(r).details.status == r.details.status && Blank(r').details.status == r'.details.status;
  }

  /** Plan, status and subscription of an org converge whatever metering writes; only the quantity may differ. */
  lemma EntitlementConvergesButForQuantity(all: set<Row>, a: seq<Write>, b: seq<Write>, orgId: string, x: seq<Row>, y: seq<Row>)
    requires OneOrgOneLatest(all) && IsDelivery(EventsOf(a), all) && IsDelivery(EventsOf(b), all)
    requires Lists(x, RowsOfOrg(Run(map[], a), orgId)) && Lists(y, RowsOfOrg(Run(map[], b), orgId))
    ensures ResolveEntitlement(x).plan == ResolveEntitlement(y).plan
    ensures ResolveEntitlement(x).status == ResolveEntitlement(y).status
    ensures ResolveEntitlement(x).plan == TeamPlan ==>
              Blank(ResolveEntitlement(x).subscription.value) == Blank(ResolveEntitlement(y).subscription.value)
  {
    ConvergesButForQuantities(all, a, b);
    RunsStoreById(a);
    RunsStoreById(b);
    SameButForQuantity(Run(map[], a), Run(map[], b), orgId, x, y);
  }

  lemma SameButForQuantity(rows: map<string, Row>, rows': map<string, Row>, orgId: string, x: seq<Row>, y: seq<Row>)
    requires StoredById(rows) && StoredById(rows') && Erase(rows) == Erase(rows')
    requires Lists(x, RowsOfOrg(rows, orgId)) && Lists(y, RowsOfOrg(rows', orgId))
    ensures ResolveEntitlement(x).plan == ResolveEntitlement(y).plan
    ensures ResolveEntitlement(x).status == ResolveEntitlement(y).status
    ensures ResolveEntitlement(x).plan == TeamPlan ==>
              ResolveEntitlement(y).plan == TeamPlan &&
              Blank(ResolveEntitlement(x).subscription.value) == Blank(ResolveEntitlement(y).subscription.value)
  {
    EntitlementIsBest(x, RowsOfOrg(rows, orgId));
    EntitlementIsBest(y, RowsOfOrg(rows', orgId));
    if ResolveEntitlement(x).plan == TeamPlan {
      TeamTwin(rows, rows', orgId, x, y);
    } else if ResolveEntitlement(y).plan == TeamPlan {
      TeamTwin(rows', rows, orgId, y, x);
    }
  }

  lemma TeamTwin(rows: map<string, Row>, rows': map<string, Row>, orgId: string, x: seq<Row>, y: seq<Row>)
    requires StoredById(rows) && StoredById(rows') && Erase(rows) == Erase(rows')
    requires Lists(x, RowsOfOrg(rows, orgId)) && Lists(y, RowsOfOrg(rows', orgId))
    requires ResolveEntitlement(x).plan == TeamPlan
    ensures ResolveEntitlement(y).plan == TeamPlan && ResolveEntitlement(x).status == ResolveEntitlement(y).status
    ensures ResolveEntitlement(x).subscription.Some? && ResolveEntitlement(y).subscription.Some?
    ensures Blank(ResolveEntitlement(x).subscription.value) == Blank(ResolveEntitlement(y).subscription.value)
  {
    EntitlementIsBest(x, RowsOfOrg(rows, orgId));
    EntitlementIsBest(y, RowsOfOrg(rows', orgId));
    var r := ResolveEntitlement(x).subscription.value;
    var r' := BestHasBestTwin(rows, rows', orgId, r);
    OneRowPerId(rows', orgId);
    BestIsUnique(RowsOfOrg(rows', orgId), r', ResolveEntitlement(y).subscription.value);
    SameBlankSameOrder(r, r');
  }

  lemma OneRowPerId(rows: map<string, Row>, orgId: string)
    requires StoredById(rows)
    ensures DistinctIds(RowsOfOrg(rows, orgId))
  {
  }

  /** The quantity does depend on the order: the same event before and after a write of metering. */
  lemma QuantityDependsOnOrder() returns (e: Row, w: Write)
    ensures EventsOf([Event(e), w]) == EventsOf([w, Event(e)]) == [e]
    ensures e.id in Run(map[], [Event(e), w]) && e.id in Run(map[], [w, Event(e)])
    ensures Run(map[], [Event(e), w])[e.id].details.quantity != Run(map[], [w, Event(e)])[e.id].details.quantity
  {
    e := Row("acme", "sub", 1, Details(None, Active, "price", 3, None, None, None));
    w := SetIf("acme", "sub", 3, 4);
    TwoWrites(Event(e), w);
    TwoWrites(w, Event(e));
  }

  lemma TwoWrites(v: Write, w: Write)
    ensures Run(map[], [v, w]) == Apply(Apply(map[], v), w)
    ensures EventsOf([v, w]) == (if v.Event? then [v.e] else []) + (if w.Event? then [w.e] else [])
  {
    assert [v, w][..1] == [v] && [v][..0] == [];
    assert Run(map[], [v]) == Apply(map[], v);
    assert EventsOf([v]) == [] + if v.Event? then [v.e] else [];
  }

  // ---------- The quantity, exactly ----------

  // The event has an effect on the table.
  predicate Takes(rows: map<string, Row>, e: Row) {
    e.id in rows ==> rows[e.id].orgId == e.orgId && rows[e.id].occurredAt < e.occurredAt
  }

  // What one more write does to the metered quantity.
  function MeteredAfter(before: map<string, Row>, w: Write, id: string, earlier: Option<int>): Option<int> {
    match w
    case Event(e) => if e.id == id && Takes(before, e) then None else earlier
    case SetIf(orgId, row, expected, next) =>
      if row == id && HoldsQuantity(before, orgId, id, expected) then Some(next) else earlier
    case SetTo(orgId, row, quantity) =>
      if row == id && id in before && before[id].orgId == orgId then Some(quantity) else earlier
  }

  // What metering last set on a row, unless an event has taken effect on it since.
  function Metered(rows: map<string, Row>, writes: seq<Write>, id: string): Option<int> {
    if writes == [] then None
    else
      var front := writes[..|writes|-1];
      MeteredAfter(Run(rows, front), writes[|writes|-1], id, Metered(rows, front, id))
  }

  function WithQuantity(r: Row, quantity: int): Row {
    r.(details := r.details.(quantity := quantity))
  }

  // A row of one table is that of the other, with the given quantity when there is one.
  ghost predicate IsTwin(rows: map<string, Row>, latest: map<string, Row>, id: string, quantity: Option<int>) {
    && (id in rows <==> id in latest)
    && (id in rows ==> rows[id] == WithQuantity(latest[id], quantity.GetOr(latest[id].details.quantity)))
  }

  lemma UpsertTwin(rows: map<string, Row>, latest: map<string, Row>, e: Row, id: string, quantity: Option<int>)
    requires IsTwin(rows, latest, id, quantity)
    ensures IsTwin(Upsert(rows, e), Upsert(latest, e), id, if e.id == id && Takes(rows, e) then None else quantity)
  {
  }

  lemma SetTwin(rows: map<string, Row>, latest: map<string, Row>, row: string, next: int, id: string, quantity: Option<int>)
    requires IsTwin(rows, latest, id, quantity) && row in rows
    ensures IsTwin(SetQuantity(rows, row, next), latest, id, if row == id then Some(next) else quantity)
  {
  }

  lemma EventsAppend(rows: map<string, Row>, writes: seq<Write>, w: Write)
    ensures Deliver(rows, EventsOf(writes + [w]))
         == if w.Event? then Upsert(Deliver(rows, EventsOf(writes)), w.e) else Deliver(rows, EventsOf(writes))
    ensures Run(rows, writes + [w]) == Apply(Run(rows, writes), w)
  {
    var more := writes + [w];
    assert more[..|more|-1] == writes;
    if w.Event? {
      assert EventsOf(more) == EventsOf(writes) + [w.e];
      assert EventsOf(more)[..|EventsOf(writes)|] == EventsOf(writes);
    } else {
      assert EventsOf(more) == EventsOf(writes) + [] == EventsOf(writes);
    }
  }

  lemma ApplyTwin(rows: map<string, Row>, latest: map<string, Row>, w: Write, id: string, quantity: Option<int>)
    requires IsTwin(rows, latest, id, quantity)
    ensures IsTwin(Apply(rows, w), if w.Event? then Upsert(latest, w.e) else latest, id, MeteredAfter(rows, w, id, quantity))
  {
    match w
    case Event(e) => UpsertTwin(rows, latest, e, id, quantity);
    case SetIf(orgId, row, expected, next) =>
      if HoldsQuantity(rows, orgId, row, expected) {
        SetTwin(rows, latest, row, next, id, quantity);
      }
    case SetTo(orgId, row, next) =>
      if row in rows {
        SetTwin(rows, latest, row, next, id, quantity);
      }
  }

  /**
   The final quantity of every row is the one metering set since the last event that took effect on it, and
   otherwise the one the events alone leave; the rest of the row is what the events alone leave.
   */
  lemma {:induction false} QuantityIsMetered(rows: map<string, Row>, writes: seq<Write>, id: string)
    ensures IsTwin(Run(rows, writes), Deliver(rows, EventsOf(writes)), id, Metered(rows, writes, id))
  {
    if writes != [] {
      var front, w := writes[..|writes|-1], writes[|writes|-1];
      QuantityIsMetered(rows, front, id);
      ApplyTwin(Run(rows, front), Deliver(rows, EventsOf(front)), w, id, Metered(rows, front, id));
      EventsAppend(rows, front, w);
      assert front + [w] == writes;
    }
  }

  // What the run leaves as the quantity of a row.
  function FinalQuantity(rows: map<string, Row>, writes: seq<Write>, id: string): int
    requires id in Deliver(rows, EventsOf(writes))
  {
    Metered(rows, writes, id).GetOr(Deliver(rows, EventsOf(writes))[id].details.quantity)
  }

  // Two tables with the same latest rows agree exactly when they hold the same quantities.
  lemma TwinsAgree(x: map<string, Row>, y: map<string, Row>, latest: map<string, Row>, id: string, m: Option<int>, n: Option<int>)
    requires IsTwin(x, latest, id, m) && IsTwin(y, latest, id, n)
    ensures id in x <==> id in latest
    ensures id in y <==> id in latest
    ensures id in latest ==>
              (x[id] == y[id] <==> m.GetOr(latest[id].details.quantity) == n.GetOr(latest[id].details.quantity))
  {
    if id in latest {
      assert x[id].details.quantity == m.GetOr(latest[id].details.quantity);
      assert y[id].details.quantity == n.GetOr(latest[id].details.quantity);
    }
  }

  // Runs whose events alone leave one table agree exactly when they leave the same quantities.
  lemma SameQuantitiesSameTable(rows: map<string, Row>, a: seq<Write>, b: seq<Write>, latest: map<string, Row>)
    requires Deliver(rows, EventsOf(a)) == Deliver(rows, EventsOf(b)) == latest
    ensures Run(rows, a) == Run(rows, b)
       <==> forall id | id in latest :: FinalQuantity(rows, a, id) == FinalQuantity(rows, b, id)
  {
    var x, y := Run(rows, a), Run(rows, b);
    forall id
      ensures (id in x <==> id in latest) && (id in y <==> id in latest)
      ensures id in latest ==> (x[id] == y[id] <==> FinalQuantity(rows, a, id) == FinalQuantity(rows, b, id))
    {
      QuantityIsMetered(rows, a, id);
      QuantityIsMetered(rows, b, id);
      TwinsAgree(x, y, latest, id, Metered(rows, a, id), Metered(rows, b, id));
    }
  }

  /**
   Two runs with the same events, in any order and with any writes of metering in between, end in the same
   table exactly when they leave the same quantities.
   */
  lemma ConvergesExactlyInQuantities(all: set<Row>, a: seq<Write>, b: seq<Write>)
    requires OneOrgOneLatest(all) && IsDelivery(EventsOf(a), all) && IsDelivery(EventsOf(b), all)
    ensures Deliver(map[], EventsOf(a)) == Deliver(map[], EventsOf(b))
    ensures Run(map[], a) == Run(map[], b)
       <==> forall id | id in Deliver(map[], EventsOf(a)) :: FinalQuantity(map[], a, id) == FinalQuantity(map[], b, id)
  {
    OneLatestConverges(all, EventsOf(a), EventsOf(b));
    SameQuantitiesSameTable(map[], a, b, Deliver(map[], EventsOf(a)));
  }

  /**
   Metering leaves no trace exactly when no quantity that it set, and that no event replaced, differs from
   the one the events alone leave.
   */
  lemma SameAsEventsAloneExactly(rows: map<string, Row>, writes: seq<Write>)
    ensures Run(rows, writes) == Deliver(rows, EventsOf(writes))
       <==> forall id | id in Deliver(rows, EventsOf(writes)) ::
              FinalQuantity(rows, writes, id) == Deliver(rows, EventsOf(writes))[id].details.quantity
  {
    var run, latest := Run(rows, writes), Deliver(rows, EventsOf(writes));
    forall id
      ensures id in run <==> id in latest
      ensures id in latest ==> (run[id] == latest[id] <==> FinalQuantity(rows, writes, id) == latest[id].details.quantity)
    {
      QuantityIsMetered(rows, writes, id);
      TwinsAgree(run, latest, latest, id, Metered(rows, writes, id), None);
    }
  }

  // ---------- Claims ----------

  predicate Holds(rows: map<string, Row>, claim: Write)
    requires claim.SetIf?
  {
    HoldsQuantity(rows, claim.orgId, claim.id, claim.expected)
  }

  // How many copies of a claim win in a run, and how many writes restore the quantity it expects.
  function Wins(rows: map<string, Row>, writes: seq<Write>, claim: Write): nat
    requires claim.SetIf?
  {
    if writes == [] then 0
    else
      var front, w := writes[..|writes|-1], writes[|writes|-1];
      Wins(rows, front, claim) + if w == claim && Holds(Run(rows, front), claim) then 1 else 0
  }

  function Restores(rows: map<string, Row>, writes: seq<Write>, claim: Write): nat
    requires claim.SetIf?
  {
    if writes == [] then 0
    else
      var front := writes[..|writes|-1];
      Restores(rows, front, claim)
      + if !Holds(Run(rows, front), claim) && Holds(Run(rows, writes), claim) then 1 else 0
  }

  /**
   Redelivered claims of one change, interleaved with any events, rollbacks and other writes: at most one
   wins, plus one for each write in between that restored the quantity they expect.
   */
  lemma {:induction false} ClaimsAreBounded(rows: map<string, Row>, writes: seq<Write>, claim: Write)
    requires claim.SetIf? && claim.expected != claim.next
    ensures Wins(rows, writes, claim) + (if Holds(Run(rows, writes), claim) then 1 else 0)
         <= Restores(rows, writes, claim) + (if Holds(rows, claim) then 1 else 0)
  {
    if writes != [] {
      ClaimsAreBounded(rows, writes[..|writes|-1], claim);
    }
  }
}
