/**
 The durable outbox. Rows stand in device order. A claim leases rows from the head of the line,
 and acknowledgement, rejection and deferral are compare-and-set on owner and attempt fence,
 whole batch or nothing. Many push cycles may overlap: a crashed or cancelled one keeps its
 lease until it expires. Times are seconds; a row's place stands for its identity fields.
 */
module Outbox {
  import opened Basics

  datatype State =
    | Pending(nextAttempt: nat)
    | Sending(owner: string, expires: nat, fence: nat)
    | Acknowledged(revision: nat)
    | Rejected
    | Conflicted

  datatype Row = Row(attempts: nat, state: State)

  predicate Live(r: Row) {
    r.state.Pending? || r.state.Sending?
  }

  predicate Due(r: Row, now: nat) {
    (r.state.Pending? && r.state.nextAttempt <= now) || (r.state.Sending? && r.state.expires <= now)
  }

  datatype Item = Item(index: nat, fence: nat)

  function Indices(items: seq<Item>): (s: seq<nat>)
    ensures |s| == |items| && forall i :: 0 <= i < |items| ==> s[i] == items[i].index
  {
    seq(|items|, i requires 0 <= i < |items| => items[i].index)
  }

  // ----- Claim -----

  datatype Lease = Lease(owner: string, now: nat, expires: nat, limit: nat)

  /** Which rows fit one request together, and whose stored digest is that of its rebuilt mutation. */
  datatype Wire = Wire(fits: seq<nat> -> bool, sound: nat -> bool)

  /** Rows before `end` were considered in order and none was skipped; the others are untouched. */
  ghost predicate Considered(before: seq<Row>, after: seq<Row>, l: Lease, wire: Wire, items: seq<Item>,
                             end: nat) {
    |after| == |before| && end <= |before|
    && (forall i :: end <= i < |before| ==> after[i] == before[i])
    && (forall i :: 0 <= i < end && !Live(before[i]) ==> after[i] == before[i])
    && (forall i :: 0 <= i < end && Live(before[i]) ==> Due(before[i], l.now) && wire.sound(i))
    && (forall i :: 0 <= i < end && Live(before[i]) && i !in Indices(items) ==>
          !wire.fits([i]) && after[i] == before[i].(state := Rejected) && (items != [] ==> i < items[0].index))
  }

  ghost predicate LeasedItems(before: seq<Row>, after: seq<Row>, l: Lease, items: seq<Item>, end: nat) {
    |after| == |before| && end <= |before|
    && (forall j :: 0 <= j < |items| ==>
          items[j].index < end && Live(before[items[j].index])
          && items[j].fence == before[items[j].index].attempts + 1 <= MaxSafeInteger
          && after[items[j].index] == Row(items[j].fence, Sending(l.owner, l.expires, items[j].fence)))
    && forall j, k :: 0 <= j < k < |items| ==> items[j].index < items[k].index
  }

  /** At every point of the scan, what was leased so far fits one request. */
  ghost predicate FitsEach(wire: Wire, items: seq<Item>) {
    forall n :: 1 <= n <= |items| ==> wire.fits(Indices(items[..n]))
  }

  ghost predicate Scanned(before: seq<Row>, after: seq<Row>, l: Lease, wire: Wire, items: seq<Item>,
                          end: nat) {
    Considered(before, after, l, wire, items, end) && LeasedItems(before, after, l, items, end)
    && FitsEach(wire, items)
  }

  function LiveCount(rows: seq<Row>): nat {
    if rows == [] then 0 else LiveCount(rows[..|rows| - 1]) + if Live(rows[|rows| - 1]) then 1 else 0
  }

  /** Why a claim ends: the limit, the end of the line, a row that is not due, or a full request. */
  ghost predicate Ends(before: seq<Row>, l: Lease, wire: Wire, items: seq<Item>, end: nat) {
    end <= |before|
    && (end < |before| ==>
          LiveCount(before[..end]) == l.limit
          || (Live(before[end])
              && (!Due(before[end], l.now) || (items != [] && !wire.fits(Indices(items) + [end])))))
  }

  ghost predicate ClaimStep(before: seq<Row>, after: seq<Row>, l: Lease, wire: Wire, items: seq<Item>,
                            end: nat) {
    Scanned(before, after, l, wire, items, end) && Ends(before, l, wire, items, end)
    && LiveCount(before[..end]) <= l.limit
  }

  lemma LeaseOne(before: seq<Row>, after: seq<Row>, l: Lease, wire: Wire, items: seq<Item>, end: nat, fence: nat)
    requires Scanned(before, after, l, wire, items, end) && end < |before|
    requires Live(before[end]) && Due(before[end], l.now) && wire.sound(end)
    requires before[end].attempts + 1 == fence <= MaxSafeInteger && wire.fits(Indices(items) + [end])
    ensures Scanned(before, after[end := Row(fence, Sending(l.owner, l.expires, fence))], l, wire,
                    items + [Item(end, fence)], end + 1)
  {
    var more := items + [Item(end, fence)];
    var now := after[end := Row(fence, Sending(l.owner, l.expires, fence))];
    assert Indices(more) == Indices(items) + [end];
    FitsOneMore(wire, items, more);
    ConsideredOneMore(before, after, now, l, wire, items, more, end);
    assert LeasedItems(before, now, l, more, end + 1);
  }

  lemma ConsideredOneMore(before: seq<Row>, after: seq<Row>, now: seq<Row>, l: Lease, wire: Wire,
                          items: seq<Item>, more: seq<Item>, end: nat)
    requires Considered(before, after, l, wire, items, end) && end < |before|
    requires Due(before[end], l.now) && wire.sound(end)
    requires |now| == |after| && forall i :: 0 <= i < |after| && i != end ==> now[i] == after[i]
    requires items <= more && Indices(more) == Indices(items) + [end]
    ensures Considered(before, now, l, wire, more, end + 1)
  {
    assert forall i :: i in Indices(items) ==> i in Indices(more);
    assert end in Indices(more);
    assert items == [] ==> more[0].index == Indices(more)[0] == end;
  }

  lemma FitsOneMore(wire: Wire, items: seq<Item>, more: seq<Item>)
    requires FitsEach(wire, items) && |more| == |items| + 1 && more[..|items|] == items && wire.fits(Indices(more))
    ensures FitsEach(wire, more)
  {
    assert more[..|more|] == more && forall n :: 1 <= n <= |items| ==> more[..n] == items[..n];
  }

  lemma CloseOne(before: seq<Row>, after: seq<Row>, l: Lease, wire: Wire, end: nat)
    requires Scanned(before, after, l, wire, [], end) && end < |before|
    requires Live(before[end]) && Due(before[end], l.now) && wire.sound(end) && !wire.fits([end])
    ensures Scanned(before, after[end := before[end].(state := Rejected)], l, wire, [], end + 1)
  {}

  lemma PassOne(before: seq<Row>, after: seq<Row>, l: Lease, wire: Wire, items: seq<Item>, end: nat)
    requires Scanned(before, after, l, wire, items, end) && end < |before| && !Live(before[end])
    ensures Scanned(before, after, l, wire, items, end + 1)
  {}

  lemma LiveCountNext(rows: seq<Row>, end: nat)
    requires end < |rows|
    ensures LiveCount(rows[..end + 1]) == LiveCount(rows[..end]) + if Live(rows[end]) then 1 else 0
  {
    assert rows[..end + 1][..end] == rows[..end];
  }

  lemma {:induction false} NoneLive(rows: seq<Row>, end: nat)
    requires end <= |rows| && forall i :: 0 <= i < end ==> !Live(rows[i])
    ensures LiveCount(rows[..end]) == 0
  {
    if end > 0 {
      NoneLive(rows, end - 1);
      LiveCountNext(rows, end - 1);
    }
  }

  datatype Turn = Go | Stop | Fail

  /** Leases the next row, passes it over when finished, closes it when too large for any request. */
  method Consider(rows: seq<Row>, after: seq<Row>, l: Lease, wire: Wire, items: seq<Item>, end: nat)
    returns (turn: Turn, after': seq<Row>, items': seq<Item>)
    requires Scanned(rows, after, l, wire, items, end) && end < |rows|
    ensures turn.Go? ==> Scanned(rows, after', l, wire, items', end + 1)
    ensures !turn.Go? ==> after' == after && items' == items
    ensures turn.Stop? <==>
      Live(rows[end]) && (!Due(rows[end], l.now)
        || (wire.sound(end) && rows[end].attempts < MaxSafeInteger
            && items != [] && !wire.fits(Indices(items) + [end])))
    ensures turn.Fail? <==>
      Live(rows[end]) && Due(rows[end], l.now) && (!wire.sound(end) || rows[end].attempts >= MaxSafeInteger)
  {
    var row := rows[end];
    if !Live(row) {
      PassOne(rows, after, l, wire, items, end);
      return Go, after, items;
    }
    if !Due(row, l.now) {
      return Stop, after, items;
    }
    if !wire.sound(end) || row.attempts + 1 > MaxSafeInteger {
      return Fail, after, items;
    }
    if wire.fits(Indices(items) + [end]) {
      var fence := row.attempts + 1;
      LeaseOne(rows, after, l, wire, items, end, fence);
      return Go, after[end := Row(fence, Sending(l.owner, l.expires, fence))], items + [Item(end, fence)];
    }
    if items != [] {
      return Stop, after, items;
    }
    assert Indices(items) + [end] == [end];
    CloseOne(rows, after, l, wire, end);
    return Go, after[end := row.(state := Rejected)], [];
  }

  ghost predicate BadLease(l: Lease) {
    l.now >= l.expires || l.limit == 0 || l.limit > 256
  }

  /** The scan arrives at a row that is due and damaged, or has used up its fences. */
  ghost predicate FailsAt(rows: seq<Row>, mid: seq<Row>, l: Lease, wire: Wire, items: seq<Item>, k: nat) {
    Scanned(rows, mid, l, wire, items, k) && k < |rows| && LiveCount(rows[..k]) < l.limit
    && Live(rows[k]) && Due(rows[k], l.now) && (!wire.sound(k) || rows[k].attempts >= MaxSafeInteger)
  }

  /** Goes down the line; fails on bad times, a bad limit, a damaged row or a used-up fence. */
  method Scan(rows: seq<Row>, l: Lease, wire: Wire)
    returns (ok: bool, after: seq<Row>, items: seq<Item>, end: nat)
    ensures ok ==> !BadLease(l) && ClaimStep(rows, after, l, wire, items, end)
    ensures !ok ==> BadLease(l) || FailsAt(rows, after, l, wire, items, end)
  {
    after, items, end := rows, [], 0;
    if l.now >= l.expires || !(1 <= l.limit <= 256) {
      return false, after, items, end;
    }
    var count := 0;
    while end < |rows| && count < l.limit
      invariant Scanned(rows, after, l, wire, items, end)
      invariant count == LiveCount(rows[..end]) <= l.limit
    {
      var turn;
      LiveCountNext(rows, end);
      turn, after, items := Consider(rows, after, l, wire, items, end);
      if turn.Fail? {
        return false, after, items, end;
      }
      if turn.Stop? {
        break;
      }
      if Live(rows[end]) {
        count := count + 1;
      }
      end := end + 1;
    }
    ok := true;
  }

  /** A live row whose time has not come is left as it is. */
  lemma ClaimLeavesRowsNotDue(a: seq<Row>, b: seq<Row>, l: Lease, wire: Wire, items: seq<Item>, end: nat, i: nat)
    requires ClaimStep(a, b, l, wire, items, end) && i < |a|
    requires match a[i].state
             case Pending(nextAttempt) => l.now < nextAttempt
             case Sending(_, expires, _) => l.now < expires
             case _ => false
    ensures end <= i && b[i] == a[i] && i !in Indices(items)
  {
    assert Live(a[i]) && !Due(a[i], l.now);
  }

  /** The first live row, once its time has come, is leased, or closed when no request can hold it. */
  lemma ClaimServesHead(a: seq<Row>, b: seq<Row>, l: Lease, wire: Wire, items: seq<Item>, end: nat, i: nat)
    requires ClaimStep(a, b, l, wire, items, end) && 1 <= l.limit && i < |a|
    requires forall k :: 0 <= k < i ==> !a[k].state.Pending? && !a[k].state.Sending?
    requires match a[i].state
             case Pending(nextAttempt) => nextAttempt <= l.now
             case Sending(_, expires, _) => expires <= l.now
             case _ => false
    ensures if wire.fits([i])
            then items != [] && items[0] == Item(i, a[i].attempts + 1)
                 && b[i] == Row(a[i].attempts + 1, Sending(l.owner, l.expires, a[i].attempts + 1))
            else b[i] == Row(a[i].attempts, Rejected)
  {
    assert Live(a[i]) && Due(a[i], l.now);
    if end <= i {
      NoneLive(a, end);
    }
    if items != [] {
      assert Live(a[items[0].index]) && Indices(items[..1]) == [items[0].index];
      assert forall j :: 0 < j < |items| ==> items[0].index < items[j].index;
    }
    assert i < end;
    if i in Indices(items) {
      var j :| 0 <= j < |items| && Indices(items)[j] == i;
      assert items[j].index == i;
    }
    assert wire.fits([i]) ==> i in Indices(items);
  }

  // ----- Compare-and-set -----

  datatype Move = Acknowledge(revision: nat) | Close(conflicted: bool) | Retry(now: nat)
  datatype Order = Order(index: nat, fence: nat, move: Move)

  /** Seconds until the next attempt: doubled with each attempt, at most five minutes. */
  function Delay(attempts: nat): nat {
    var d := Pow2(if attempts < 9 then attempts else 9);
    if d < 300 then d else 300
  }

  /** The first delay is a second; each attempt doubles it, up to five minutes. */
  lemma DelayDoubles(attempts: nat)
    ensures Delay(0) == 1
    ensures Delay(attempts + 1) == if 2 * Delay(attempts) < 300 then 2 * Delay(attempts) else 300
  {
    assert Pow2(8) == 256 && Pow2(9) == 512;
    if attempts < 8 {
      PowersRise(attempts + 1, 8);
    }
  }

  lemma {:induction false} PowersRise(a: nat, b: nat)
    requires a <= b
    ensures Pow2(a) <= Pow2(b)
    decreases b
  {
    if a < b {
      PowersRise(a, b - 1);
    }
  }

  function Deadline(r: Row, now: nat): nat {
    now + Delay(r.attempts)
  }

  function Target(r: Row, m: Move): State {
    match m
    case Acknowledge(revision) => Acknowledged(revision)
    case Close(conflicted) => if conflicted then Conflicted else Rejected
    case Retry(now) => Pending(Deadline(r, now))
  }

  predicate Holds(r: Row, owner: string, fence: nat) {
    r.state.Sending? && r.state.owner == owner && r.state.fence == fence
  }

  /** The row after an order, or nothing if the order is stale. Acknowledging again is accepted. */
  function Moved(rows: seq<Row>, owner: string, o: Order): (r: seq<Row>)
    requires o.index < |rows|
    ensures |r| == |rows|
  {
    if Holds(rows[o.index], owner, o.fence)
    then rows[o.index := rows[o.index].(state := Target(rows[o.index], o.move))]
    else rows
  }

  predicate Accepts(rows: seq<Row>, owner: string, o: Order) {
    o.index < |rows|
    && (Holds(rows[o.index], owner, o.fence)
        || (o.move.Acknowledge? && rows[o.index].state == Acknowledged(o.move.revision)))
  }

  function MoveAll(rows: seq<Row>, owner: string, orders: seq<Order>): (r: Option<seq<Row>>)
    ensures r.Some? ==> |r.value| == |rows|
  {
    if orders == [] then Some(rows)
    else
      var o := orders[|orders| - 1];
      match MoveAll(rows, owner, orders[..|orders| - 1])
      case None => None
      case Some(before) => if Accepts(before, owner, o) then Some(Moved(before, owner, o)) else None
  }

  lemma MoveAllNext(rows: seq<Row>, owner: string, orders: seq<Order>, k: nat, after: seq<Row>)
    requires k < |orders| && Some(after) == MoveAll(rows, owner, orders[..k])
    ensures Accepts(after, owner, orders[k]) ==>
      MoveAll(rows, owner, orders[..k + 1]) == Some(Moved(after, owner, orders[k]))
    ensures !Accepts(after, owner, orders[k]) ==> MoveAll(rows, owner, orders).None?
  {
    assert orders[..k + 1][..k] == orders[..k];
    if !Accepts(after, owner, orders[k]) {
      MoveAllStuck(rows, owner, orders, k + 1);
    }
  }

  lemma {:induction false} MoveAllStuck(rows: seq<Row>, owner: string, orders: seq<Order>, k: nat)
    requires k <= |orders| && MoveAll(rows, owner, orders[..k]).None?
    ensures MoveAll(rows, owner, orders).None?
    decreases |orders|
  {
    if k == |orders| {
      assert orders[..k] == orders;
    } else {
      assert orders[..|orders| - 1][..k] == orders[..k];
      MoveAllStuck(rows, owner, orders[..|orders| - 1], k);
    }
  }

  /** A row changes only from leased by this owner under an ordered fence, and only to that order's target. */
  lemma {:induction false} MoveAllChanges(rows: seq<Row>, owner: string, orders: seq<Order>, i: nat)
    requires MoveAll(rows, owner, orders).Some? && i < |rows|
    ensures var after := MoveAll(rows, owner, orders).value;
      after[i] == rows[i]
      || exists k :: 0 <= k < |orders| && orders[k].index == i && Holds(rows[i], owner, orders[k].fence)
                     && after[i] == rows[i].(state := Target(rows[i], orders[k].move))
    decreases |orders|
  {
    if orders != [] {
      var before := orders[..|orders| - 1];
      MoveAllChanges(rows, owner, before, i);
      var mid := MoveAll(rows, owner, before).value;
      if mid[i] != rows[i] {
        var k :| 0 <= k < |before| && before[k].index == i && Holds(rows[i], owner, before[k].fence)
                 && mid[i] == rows[i].(state := Target(rows[i], before[k].move));
        assert orders[k] == before[k];
      }
    }
  }

  /** What an accepted order leaves in its row. */
  ghost predicate TookEffect(was: Row, now: Row, m: Move) {
    now.attempts == was.attempts
    && match m
       case Acknowledge(revision) => now.state == Acknowledged(revision)
       case Close(conflicted) => now.state == if conflicted then Conflicted else Rejected
       case Retry(time) => now.state == Pending(time + Delay(was.attempts))
  }

  /** Every order of an accepted batch takes effect; rows the batch does not name stay. */
  lemma {:induction false} OrdersTakeEffect(rows: seq<Row>, owner: string, orders: seq<Order>, k: nat)
    requires MoveAll(rows, owner, orders).Some? && k < |orders|
    ensures var after, i := MoveAll(rows, owner, orders).value, orders[k].index;
      i < |rows| && TookEffect(rows[i], after[i], orders[k].move)
    decreases |orders|
  {
    var before, o := orders[..|orders| - 1], orders[|orders| - 1];
    var mid := MoveAll(rows, owner, before).value;
    if k < |before| {
      OrdersTakeEffect(rows, owner, before, k);
    } else {
      MoveAllChanges(rows, owner, before, o.index);
    }
  }

  lemma {:induction false} UnnamedStay(rows: seq<Row>, owner: string, orders: seq<Order>, i: nat)
    requires MoveAll(rows, owner, orders).Some? && i < |rows|
    requires forall k :: 0 <= k < |orders| ==> orders[k].index != i
    ensures MoveAll(rows, owner, orders).value[i] == rows[i]
    decreases |orders|
  {
    if orders != [] {
      UnnamedStay(rows, owner, orders[..|orders| - 1], i);
    }
  }

  /** The row is leased to this owner under this fence, or already acknowledged as ordered. */
  ghost predicate Answers(r: Row, owner: string, o: Order) {
    (r.state.Sending? && r.state.owner == owner && r.state.fence == o.fence)
    || (o.move.Acknowledge? && r.state == Acknowledged(o.move.revision))
  }

  /** A batch over different rows is accepted exactly when every row answers its order. */
  lemma {:induction false} AcceptedTogether(rows: seq<Row>, owner: string, orders: seq<Order>)
    requires forall j, k :: 0 <= j < k < |orders| ==> orders[j].index != orders[k].index
    ensures MoveAll(rows, owner, orders).Some? <==>
      forall k :: 0 <= k < |orders| ==> orders[k].index < |rows| && Answers(rows[orders[k].index], owner, orders[k])
    decreases |orders|
  {
    if orders != [] {
      var before, o := orders[..|orders| - 1], orders[|orders| - 1];
      AcceptedTogether(rows, owner, before);
      assert forall k :: 0 <= k < |before| ==> before[k] == orders[k];
      if MoveAll(rows, owner, before).Some? && o.index < |rows| {
        UnnamedStay(rows, owner, before, o.index);
      }
    }
  }

  // ----- The store -----

  datatype Outcome = Changed | Unchanged | Deferred(deadline: nat) | Claimed(items: seq<Item>) | Failed

  class OutboxStore {
    var rows: seq<Row>

    constructor ()
      ensures rows == []
    {
      rows := [];
    }

    method Claim(l: Lease, wire: Wire, fence: bool) returns (o: Outcome)
      modifies this
      ensures o.Claimed? || (o.Failed? && rows == old(rows))
      ensures o.Claimed? ==>
        fence && !BadLease(l) && exists end :: ClaimStep(old(rows), rows, l, wire, o.items, end)
      ensures o.Failed? ==>
        !fence || BadLease(l) || exists mid, items, k :: FailsAt(old(rows), mid, l, wire, items, k)
    {
      var ok, after, items, end := Scan(rows, l, wire);
      if !ok || !fence {
        return Failed;
      }
      rows := after;
      return Claimed(items);
    }

    /** Acknowledges a whole batch; the effect is a change exactly when a row changed. */
    method Acknowledge(owner: string, orders: seq<Order>, fence: bool) returns (o: Outcome)
      requires forall k :: 0 <= k < |orders| ==> orders[k].move.Acknowledge?
      modifies this
      ensures o.Changed? || o.Unchanged? <==>
        1 <= |orders| <= 256 && fence && MoveAll(old(rows), owner, orders).Some?
      ensures o.Changed? || o.Unchanged? ==> Some(rows) == MoveAll(old(rows), owner, orders)
      ensures o.Changed? || o.Unchanged? || o.Failed?
      ensures o.Changed? <==> rows != old(rows)
      ensures o.Changed? || o.Unchanged? ==>
        forall k :: 0 <= k < |orders| ==>
          orders[k].index < |rows| && rows[orders[k].index].state == Acknowledged(orders[k].move.revision)
    {
      if |orders| == 0 || |orders| > 256 {
        return Failed;
      }
      var after, changed := rows, false;
      for k := 0 to |orders|
        invariant rows == old(rows) && Some(after) == MoveAll(rows, owner, orders[..k])
        invariant changed <==> after != rows
        invariant |after| == |rows|
        invariant forall i :: 0 <= i < |rows| ==>
          after[i] == rows[i] || (rows[i].state.Sending? && after[i].state.Acknowledged?)
      {
        var order := orders[k];
        MoveAllNext(rows, owner, orders, k, after);
        if !Accepts(after, owner, order) {
          return Failed;
        }
        if Holds(after[order.index], owner, order.fence) {
          changed := true;
          after := after[order.index := after[order.index].(state := Acknowledged(order.move.revision))];
          assert after[order.index] != rows[order.index];
        }
      }
      assert orders[..|orders|] == orders;
      if !fence {
        return Failed;
      }
      forall k | 0 <= k < |orders| ensures orders[k].index < |after|
        && after[orders[k].index].state == Acknowledged(orders[k].move.revision) {
        OrdersTakeEffect(rows, owner, orders, k);
      }
      rows := after;
      return if changed then Changed else Unchanged;
    }

    /** Closes a whole batch after a refusal. */
    method Close(owner: string, items: seq<Item>, conflicted: bool, fence: bool) returns (o: Outcome)
      modifies this
      ensures o.Changed? <==>
        1 <= |items| <= 256 && fence && MoveAll(old(rows), owner, Orders(items, Move.Close(conflicted))).Some?
      ensures o.Changed? ==> Some(rows) == MoveAll(old(rows), owner, Orders(items, Move.Close(conflicted)))
      ensures !o.Changed? ==> o.Failed? && rows == old(rows)
      ensures o.Changed? ==> Became(old(rows), rows, items, Move.Close(conflicted))
    {
      if |items| == 0 || |items| > 256 {
        return Failed;
      }
      var after := rows;
      ghost var orders := Orders(items, Move.Close(conflicted));
      for k := 0 to |items|
        invariant rows == old(rows) && Some(after) == MoveAll(rows, owner, orders[..k])
      {
        var item := items[k];
        MoveAllNext(rows, owner, orders, k, after);
        if item.index >= |after| || !Holds(after[item.index], owner, item.fence) {
          return Failed;
        }
        after := after[item.index := after[item.index].(state := if conflicted then Conflicted else Rejected)];
      }
      assert orders[..|orders|] == orders;
      if !fence {
        return Failed;
      }
      BatchBecomes(rows, owner, items, Move.Close(conflicted));
      rows := after;
      return Changed;
    }

    /** Returns a whole batch to pending and tells the earliest of the new deadlines. */
    method Defer(owner: string, items: seq<Item>, now: nat, fence: bool) returns (o: Outcome)
      modifies this
      ensures o.Deferred? <==>
        1 <= |items| <= 256 && fence && MoveAll(old(rows), owner, Orders(items, Retry(now))).Some?
      ensures o.Deferred? ==> Some(rows) == MoveAll(old(rows), owner, Orders(items, Retry(now)))
      ensures o.Deferred? ==> Earliest(old(rows), items, now, o.deadline)
      ensures !o.Deferred? ==> o.Failed? && rows == old(rows)
      ensures o.Deferred? ==> Became(old(rows), rows, items, Retry(now))
    {
      if |items| == 0 || |items| > 256 {
        return Failed;
      }
      var after := rows;
      ghost var orders := Orders(items, Retry(now));
      var earliest: nat := 0;
      for k := 0 to |items|
        invariant Some(after) == MoveAll(rows, owner, orders[..k])
        invariant |after| == |rows| && forall i :: 0 <= i < |rows| ==> Deadline(after[i], now) == Deadline(rows[i], now)
        invariant rows == old(rows)
        invariant k > 0 ==> Earliest(rows, items[..k], now, earliest)
      {
        var item := items[k];
        MoveAllNext(rows, owner, orders, k, after);
        if item.index >= |after| || !Holds(after[item.index], owner, item.fence) {
          return Failed;
        }
        var deadline := Deadline(after[item.index], now);
        after := after[item.index := after[item.index].(state := Pending(deadline))];
        EarliestNext(rows, items, now, k, earliest);
        if k == 0 || deadline < earliest {
          earliest := deadline;
        }
      }
      assert orders[..|orders|] == orders && items[..|items|] == items;
      if !fence {
        return Failed;
      }
      BatchBecomes(rows, owner, items, Retry(now));
      rows := after;
      return Deferred(earliest);
    }
  }

  /** Every row of the batch took the move and every other row stayed. */
  ghost predicate Became(was: seq<Row>, now: seq<Row>, items: seq<Item>, m: Move) {
    |now| == |was|
    && (forall k :: 0 <= k < |items| ==>
          items[k].index < |was| && TookEffect(was[items[k].index], now[items[k].index], m))
    && forall i :: 0 <= i < |was| && i !in Indices(items) ==> now[i] == was[i]
  }

  lemma BatchBecomes(rows: seq<Row>, owner: string, items: seq<Item>, m: Move)
    requires MoveAll(rows, owner, Orders(items, m)).Some?
    ensures Became(rows, MoveAll(rows, owner, Orders(items, m)).value, items, m)
  {
    var orders := Orders(items, m);
    var after := MoveAll(rows, owner, orders).value;
    forall k | 0 <= k < |items|
      ensures items[k].index < |rows| && TookEffect(rows[items[k].index], after[items[k].index], m)
    {
      OrdersTakeEffect(rows, owner, orders, k);
    }
    forall i | 0 <= i < |rows| && i !in Indices(items) ensures after[i] == rows[i] {
      assert forall k :: 0 <= k < |orders| ==> orders[k].index == Indices(items)[k];
      UnnamedStay(rows, owner, orders, i);
    }
  }

  lemma EarliestNext(rows: seq<Row>, items: seq<Item>, now: nat, k: nat, earliest: nat)
    requires k < |items| && items[k].index < |rows| && (k > 0 ==> Earliest(rows, items[..k], now, earliest))
    ensures var deadline := Deadline(rows[items[k].index], now);
      Earliest(rows, items[..k + 1], now, if k == 0 || deadline < earliest then deadline else earliest)
  {
    var more := items[..k + 1];
    assert more[k] == items[k] && forall i :: 0 <= i < k ==> more[i] == items[..k][i];
  }

  function Orders(items: seq<Item>, move: Move): (s: seq<Order>)
    ensures |s| == |items| && forall i :: 0 <= i < |items| ==> s[i] == Order(items[i].index, items[i].fence, move)
  {
    seq(|items|, i requires 0 <= i < |items| => Order(items[i].index, items[i].fence, move))
  }

  /** The deadline is the least of the items' deadlines. */
  ghost predicate Earliest(rows: seq<Row>, items: seq<Item>, now: nat, deadline: nat) {
    (forall k :: 0 <= k < |items| ==>
       items[k].index < |rows| && deadline <= Deadline(rows[items[k].index], now))
    && exists k :: 0 <= k < |items| && items[k].index < |rows| && deadline == Deadline(rows[items[k].index], now)
  }

  // ----- Overlapping push cycles -----

  /** The rows, and for each owner what its cycle still has to resolve, first things first. */
  datatype System = System(rows: seq<Row>, todo: map<string, seq<Item>>)

  datatype Event =
    | Append
    | Claims(lease: Lease, wire: Wire, items: seq<Item>, end: nat)
    | Settles(owner: string, moves: seq<Move>)
    | Defers(owner: string, items: seq<Item>, now: nat)
    | Abandons(owner: string)

  function Zip(items: seq<Item>, moves: seq<Move>): (s: seq<Order>)
    requires |moves| <= |items|
    ensures |s| == |moves|
    ensures forall i :: 0 <= i < |s| ==> s[i] == Order(items[i].index, items[i].fence, moves[i])
  {
    seq(|moves|, i requires 0 <= i < |moves| => Order(items[i].index, items[i].fence, moves[i]))
  }

  /**
   One step. An owner names one cycle. A cycle acknowledges or closes a first part of what it
   has left, and gives up for good when that, or its deferral, is refused.
   */
  ghost predicate Next(s: System, e: Event, t: System) {
    match e
    case Append => t == s.(rows := s.rows + [Row(0, Pending(0))])
    case Claims(l, wire, items, end) =>
      l.owner !in s.todo && ClaimStep(s.rows, t.rows, l, wire, items, end) && t.todo == s.todo[l.owner := items]
    case Settles(owner, moves) =>
      owner in s.todo && 1 <= |moves| <= |s.todo[owner]|
      && (forall k :: 0 <= k < |moves| ==> !moves[k].Retry?)
      && (match MoveAll(s.rows, owner, Zip(s.todo[owner], moves))
          case Some(rows) => t == System(rows, s.todo[owner := s.todo[owner][|moves|..]])
          case None => t == s.(todo := s.todo[owner := []]))
    case Defers(owner, items, now) =>
      owner in s.todo
      && t.todo == s.todo[owner := []]
      && (match MoveAll(s.rows, owner, Orders(items, Retry(now)))
          case Some(rows) => t.rows == rows
          case None => t.rows == s.rows)
    case Abandons(owner) => t == s.(todo := s.todo[owner := []])
  }

  /** Finished rows come first. */
  ghost predicate InOrder(rows: seq<Row>) {
    forall i, j :: 0 <= i < j < |rows| && !Live(rows[j]) ==> !Live(rows[i])
  }

  ghost predicate FencesCount(rows: seq<Row>) {
    forall i :: 0 <= i < |rows| && rows[i].state.Sending? ==> rows[i].state.fence == rows[i].attempts
  }

  /** A cycle's items are consecutive rows with only finished rows before them. */
  ghost predicate HeadOfLine(rows: seq<Row>, items: seq<Item>) {
    items != [] ==>
      FinishedTo(rows, items[0].index) && items[0].index + |items| <= |rows|
      && forall j :: 0 <= j < |items| ==> items[j].index == items[0].index + j
  }

  ghost predicate FinishedTo(rows: seq<Row>, k: nat) {
    k <= |rows| && forall i :: 0 <= i < k ==> !Live(rows[i])
  }

  ghost predicate Inv(s: System) {
    InOrder(s.rows) && FencesCount(s.rows) && forall o :: o in s.todo ==> HeadOfLine(s.rows, s.todo[o])
  }

  /** How rows may change in one step: attempts never fall, and finished rows are final. */
  ghost predicate Grows(a: seq<Row>, b: seq<Row>) {
    |a| <= |b|
    && forall i :: 0 <= i < |a| ==> a[i].attempts <= b[i].attempts && (!Live(a[i]) ==> b[i] == a[i])
  }

  lemma HeadOfLineGrows(a: seq<Row>, b: seq<Row>, items: seq<Item>)
    requires HeadOfLine(a, items) && Grows(a, b)
    ensures HeadOfLine(b, items)
  {}

  lemma ClaimGrows(a: seq<Row>, b: seq<Row>, l: Lease, wire: Wire, items: seq<Item>, end: nat)
    requires ClaimStep(a, b, l, wire, items, end) && FencesCount(a)
    ensures Grows(a, b) && FencesCount(b)
  {
    forall i | 0 <= i < |a|
      ensures a[i].attempts <= b[i].attempts && (!Live(a[i]) ==> b[i] == a[i])
      ensures b[i].state.Sending? ==> b[i].state.fence == b[i].attempts
    {
      if i < end && Live(a[i]) && i in Indices(items) {
        var j :| 0 <= j < |items| && Indices(items)[j] == i;
        assert items[j].index == i;
      }
    }
  }

  lemma ClaimTakesAll(a: seq<Row>, b: seq<Row>, l: Lease, wire: Wire, items: seq<Item>, end: nat, i: nat)
    requires ClaimStep(a, b, l, wire, items, end) && InOrder(a) && items != [] && items[0].index <= i < end
    ensures i in Indices(items) && b[i].state.Sending?
  {
    assert items[0].index < i ==> Live(a[items[0].index]) && Live(a[i]);
    assert i in Indices(items);
    var j :| 0 <= j < |items| && Indices(items)[j] == i;
    assert b[items[j].index].state.Sending?;
  }

  lemma {:induction false} Consecutive(items: seq<Item>, end: nat, j: nat)
    requires forall i, k :: 0 <= i < k < |items| ==> items[i].index < items[k].index
    requires j < |items| && items[j].index < end
    requires forall i :: items[0].index <= i < end ==> i in Indices(items)
    ensures items[j].index == items[0].index + j
  {
    if j > 0 {
      Consecutive(items, end, j - 1);
      var i := items[j - 1].index + 1;
      assert items[0].index <= i < end && i in Indices(items);
      var k :| 0 <= k < |items| && Indices(items)[k] == i;
      assert items[k].index == i;
    }
  }

  lemma ClaimAtHead(a: seq<Row>, b: seq<Row>, l: Lease, wire: Wire, items: seq<Item>, end: nat)
    requires ClaimStep(a, b, l, wire, items, end) && InOrder(a)
    ensures HeadOfLine(b, items)
  {
    if items != [] {
      forall i | items[0].index <= i < end ensures i in Indices(items) {
        ClaimTakesAll(a, b, l, wire, items, end, i);
      }
      forall j | 0 <= j < |items| ensures items[j].index == items[0].index + j < |b| {
        Consecutive(items, end, j);
      }
      assert items[|items| - 1].index < |b|;
      assert forall j :: 0 <= j < |items| ==> items[0].index <= Indices(items)[j];
      forall i | 0 <= i < items[0].index ensures !Live(b[i]) {
        assert i !in Indices(items);
      }
    }
  }

  lemma ClaimInOrder(a: seq<Row>, b: seq<Row>, l: Lease, wire: Wire, items: seq<Item>, end: nat)
    requires ClaimStep(a, b, l, wire, items, end) && InOrder(a)
    ensures InOrder(b)
  {
    ClaimAtHead(a, b, l, wire, items, end);
    forall i, j | 0 <= i < j < |b| && !Live(b[j]) ensures !Live(b[i]) {
      if Live(a[i]) {
        assert Live(a[j]);
        assert j < end;
        if items != [] && items[0].index <= j {
          ClaimTakesAll(a, b, l, wire, items, end, j);
        } else if items == [] {
          assert i !in Indices(items);
        }
      }
    }
  }

  lemma MoveAllGrows(rows: seq<Row>, owner: string, orders: seq<Order>)
    requires MoveAll(rows, owner, orders).Some? && FencesCount(rows)
    ensures Grows(rows, MoveAll(rows, owner, orders).value) && FencesCount(MoveAll(rows, owner, orders).value)
  {
    var after := MoveAll(rows, owner, orders).value;
    forall i | 0 <= i < |rows|
      ensures rows[i].attempts == after[i].attempts && (!Live(rows[i]) ==> after[i] == rows[i])
      ensures after[i].state.Sending? ==> after[i].state.fence == after[i].attempts
    {
      MoveAllChanges(rows, owner, orders, i);
    }
  }

  /** Every row named by an accepted acknowledgement or rejection is finished afterwards. */
  lemma {:induction false} SettledRowsFinish(rows: seq<Row>, owner: string, orders: seq<Order>, k: nat)
    requires MoveAll(rows, owner, orders).Some? && k < |orders|
    requires forall i :: 0 <= i < |orders| ==> !orders[i].move.Retry?
    ensures orders[k].index < |rows| && !Live(MoveAll(rows, owner, orders).value[orders[k].index])
    decreases |orders|
  {
    if k < |orders| - 1 {
      SettledRowsFinish(rows, owner, orders[..|orders| - 1], k);
    }
  }

  lemma SettleInOrder(rows: seq<Row>, owner: string, items: seq<Item>, moves: seq<Move>)
    requires InOrder(rows) && HeadOfLine(rows, items) && 1 <= |moves| <= |items|
    requires forall k :: 0 <= k < |moves| ==> !moves[k].Retry?
    requires MoveAll(rows, owner, Zip(items, moves)).Some?
    ensures InOrder(MoveAll(rows, owner, Zip(items, moves)).value)
    ensures HeadOfLine(MoveAll(rows, owner, Zip(items, moves)).value, items[|moves|..])
  {
    var orders := Zip(items, moves);
    var after := MoveAll(rows, owner, orders).value;
    forall i | 0 <= i < items[0].index + |moves| ensures !Live(after[i]) {
      if i < items[0].index {
        MoveAllChanges(rows, owner, orders, i);
      } else {
        var k := i - items[0].index;
        assert orders[k].index == items[k].index == i;
        SettledRowsFinish(rows, owner, orders, k);
      }
    }
    forall i, j | 0 <= i < j < |after| && !Live(after[j]) ensures !Live(after[i]) {
      MoveAllChanges(rows, owner, orders, i);
      MoveAllChanges(rows, owner, orders, j);
      if after[j] != rows[j] {
        var k :| 0 <= k < |orders| && orders[k].index == j;
        assert orders[k].index == items[k].index;
      }
    }
  }

  lemma DeferInOrder(rows: seq<Row>, owner: string, items: seq<Item>, now: nat)
    requires InOrder(rows) && MoveAll(rows, owner, Orders(items, Retry(now))).Some?
    ensures InOrder(MoveAll(rows, owner, Orders(items, Retry(now))).value)
  {
    var after := MoveAll(rows, owner, Orders(items, Retry(now))).value;
    forall i, j | 0 <= i < j < |after| && !Live(after[j]) ensures !Live(after[i]) {
      MoveAllChanges(rows, owner, Orders(items, Retry(now)), i);
      MoveAllChanges(rows, owner, Orders(items, Retry(now)), j);
    }
  }

  lemma NextGrows(s: System, e: Event, t: System)
    requires Inv(s) && Next(s, e, t)
    ensures Grows(s.rows, t.rows) && FencesCount(t.rows)
  {
    match e {
      case Append =>
      case Claims(l, wire, items, end) => ClaimGrows(s.rows, t.rows, l, wire, items, end);
      case Settles(owner, moves) =>
        if MoveAll(s.rows, owner, Zip(s.todo[owner], moves)).Some? {
          MoveAllGrows(s.rows, owner, Zip(s.todo[owner], moves));
        }
      case Defers(owner, items, now) =>
        if MoveAll(s.rows, owner, Orders(items, Retry(now))).Some? {
          MoveAllGrows(s.rows, owner, Orders(items, Retry(now)));
        }
      case Abandons(owner) =>
    }
  }

  lemma NextInOrder(s: System, e: Event, t: System)
    requires Inv(s) && Next(s, e, t)
    ensures InOrder(t.rows)
    ensures e.Claims? ==> HeadOfLine(t.rows, e.items)
    ensures e.Settles? ==> HeadOfLine(t.rows, t.todo[e.owner])
  {
    match e {
      case Append =>
      case Claims(l, wire, items, end) =>
        ClaimInOrder(s.rows, t.rows, l, wire, items, end);
        ClaimAtHead(s.rows, t.rows, l, wire, items, end);
      case Settles(owner, moves) =>
        if MoveAll(s.rows, owner, Zip(s.todo[owner], moves)).Some? {
          SettleInOrder(s.rows, owner, s.todo[owner], moves);
        }
      case Defers(owner, items, now) =>
        if MoveAll(s.rows, owner, Orders(items, Retry(now))).Some? {
          DeferInOrder(s.rows, owner, items, now);
        }
      case Abandons(owner) =>
    }
  }

  lemma NextKeeps(s: System, e: Event, t: System)
    requires Inv(s) && Next(s, e, t)
    ensures Inv(t)
  {
    NextGrows(s, e, t);
    NextInOrder(s, e, t);
    forall o | o in t.todo ensures HeadOfLine(t.rows, t.todo[o]) {
      if o in s.todo && t.todo[o] == s.todo[o] {
        HeadOfLineGrows(s.rows, t.rows, s.todo[o]);
      }
    }
  }

  ghost predicate Run(states: seq<System>, events: seq<Event>) {
    |states| == |events| + 1 && states[0] == System([], map[])
    && forall i :: 0 <= i < |events| ==> Next(states[i], events[i], states[i + 1])
  }

  /** In every run of overlapping cycles, mutations are finished in device order. */
  lemma {:induction false} RunInOrder(states: seq<System>, events: seq<Event>, i: nat)
    requires Run(states, events) && i < |states|
    ensures Inv(states[i]) && InOrder(states[i].rows)
  {
    if i > 0 {
      RunInOrder(states, events, i - 1);
      NextKeeps(states[i - 1], events[i - 1], states[i]);
    }
  }

  /** What is finished stays as it is, and attempts never fall. */
  lemma {:induction false} RunGrows(states: seq<System>, events: seq<Event>, i: nat, j: nat)
    requires Run(states, events) && i <= j < |states|
    ensures Grows(states[i].rows, states[j].rows)
    decreases j
  {
    if i < j {
      RunGrows(states, events, i, j - 1);
      RunInOrder(states, events, j - 1);
      NextGrows(states[j - 1], events[j - 1], states[j]);
    }
  }

  /** Once a row has been leased again or more, no order under the older fence ever takes effect. */
  lemma StaleFenceNeverCommits(states: seq<System>, events: seq<Event>, i: nat, j: nat, owner: string, o: Order)
    requires Run(states, events) && i <= j < |states|
    requires o.index < |states[i].rows| && o.fence < states[i].rows[o.index].attempts
    ensures o.index < |states[j].rows| && Moved(states[j].rows, owner, o) == states[j].rows
  {
    RunGrows(states, events, i, j);
    RunInOrder(states, events, j);
  }

  // ----- Leases last -----

  /** What a claim leased is held by its owner, and a second claim before it expires takes none of it. */
  lemma ClaimsDoNotOverlap(a: seq<Row>, b: seq<Row>, c: seq<Row>, l: Lease, wire: Wire, items: seq<Item>, end: nat,
                           l2: Lease, wire2: Wire, items2: seq<Item>, end2: nat, j: nat)
    requires ClaimStep(a, b, l, wire, items, end) && ClaimStep(b, c, l2, wire2, items2, end2)
    requires l2.now < l.expires && j < |items|
    ensures Holds(b[items[j].index], l.owner, items[j].fence) && Holds(c[items[j].index], l.owner, items[j].fence)
    ensures items[j].index !in Indices(items2)
  {
    ClaimLeavesRowsNotDue(b, c, l2, wire2, items2, end2, items[j].index);
  }

  /** Nothing but its owner touches a leased row before the lease runs out. */
  lemma NextKeepsLease(s: System, e: Event, t: System, i: nat)
    requires Inv(s) && Next(s, e, t) && i < |s.rows| && s.rows[i].state.Sending?
    requires e.Claims? ==> e.lease.now < s.rows[i].state.expires
    requires e.Settles? || e.Defers? ==> e.owner != s.rows[i].state.owner
    ensures i < |t.rows| && t.rows[i] == s.rows[i]
    ensures e.Claims? ==> i !in Indices(e.items)
  {
    match e {
      case Append =>
      case Claims(l, wire, items, end) => ClaimLeavesRowsNotDue(s.rows, t.rows, l, wire, items, end, i);
      case Settles(owner, moves) =>
        if MoveAll(s.rows, owner, Zip(s.todo[owner], moves)).Some? {
          MoveAllChanges(s.rows, owner, Zip(s.todo[owner], moves), i);
        }
      case Defers(owner, items, now) =>
        if MoveAll(s.rows, owner, Orders(items, Retry(now))).Some? {
          MoveAllChanges(s.rows, owner, Orders(items, Retry(now)), i);
        }
      case Abandons(owner) =>
    }
  }

  /** Everything left to a cycle is still leased to it, until that time. */
  ghost predicate StillHeld(s: System, owner: string, expires: nat) {
    owner in s.todo
    && forall j :: 0 <= j < |s.todo[owner]| ==>
         s.todo[owner][j].index < |s.rows|
         && s.rows[s.todo[owner][j].index].state == Sending(owner, expires, s.todo[owner][j].fence)
  }

  /** While a cycle holds what it has left, the store accepts any settlement of a first part of it. */
  lemma HeldIsAccepted(s: System, owner: string, expires: nat, moves: seq<Move>)
    requires Inv(s) && StillHeld(s, owner, expires) && |moves| <= |s.todo[owner]|
    ensures MoveAll(s.rows, owner, Zip(s.todo[owner], moves)).Some?
  {
    var items := s.todo[owner];
    var orders := Zip(items, moves);
    assert forall k :: 0 <= k < |orders| ==> orders[k].index == items[k].index;
    AcceptedTogether(s.rows, owner, orders);
  }

  lemma SettleKeepsRest(s: System, t: System, owner: string, expires: nat, moves: seq<Move>)
    requires Inv(s) && Next(s, Settles(owner, moves), t) && StillHeld(s, owner, expires)
    ensures StillHeld(t, owner, expires) && t.todo[owner] == s.todo[owner][|moves|..]
  {
    HeldIsAccepted(s, owner, expires, moves);
    var items, left := s.todo[owner], s.todo[owner][|moves|..];
    var orders := Zip(items, moves);
    forall j | 0 <= j < |left| ensures t.rows[left[j].index] == s.rows[left[j].index] {
      assert left[j] == items[|moves| + j];
      assert forall k :: 0 <= k < |orders| ==> orders[k].index == items[k].index;
      UnnamedStay(s.rows, owner, orders, left[j].index);
    }
  }

  lemma NextStillHeld(s: System, e: Event, t: System, owner: string, expires: nat)
    requires Inv(s) && Next(s, e, t) && StillHeld(s, owner, expires)
    requires e.Claims? ==> e.lease.now < expires
    ensures StillHeld(t, owner, expires)
    ensures e.Claims? ==> forall j :: 0 <= j < |s.todo[owner]| ==> s.todo[owner][j].index !in Indices(e.items)
  {
    if e.Settles? && e.owner == owner {
      SettleKeepsRest(s, t, owner, expires, e.moves);
    } else if e.Defers? && e.owner == owner {
    } else {
      forall j | 0 <= j < |s.todo[owner]|
        ensures var i := s.todo[owner][j].index;
          i < |t.rows| && t.rows[i] == s.rows[i] && (e.Claims? ==> i !in Indices(e.items))
      {
        NextKeepsLease(s, e, t, s.todo[owner][j].index);
      }
    }
  }

  /**
   In every run, until a claim expires no other cycle leases a row it has left, all of them
   stay leased to it, and the store accepts its settlements.
   */
  lemma {:induction false} LeaseLasts(states: seq<System>, events: seq<Event>, i: nat, j: nat)
    requires Run(states, events) && i < j < |states| && events[i].Claims?
    requires forall k :: i < k < j && events[k].Claims? ==> events[k].lease.now < events[i].lease.expires
    ensures StillHeld(states[j], events[i].lease.owner, events[i].lease.expires)
    decreases j
  {
    var l := events[i].lease;
    if j == i + 1 {
      assert Next(states[i], events[i], states[i + 1]);
    } else {
      LeaseLasts(states, events, i, j - 1);
      RunInOrder(states, events, j - 1);
      NextStillHeld(states[j - 1], events[j - 1], states[j], l.owner, l.expires);
    }
  }

  lemma SettlementsAccepted(states: seq<System>, events: seq<Event>, i: nat, j: nat, moves: seq<Move>)
    requires Run(states, events) && i < j < |states| && events[i].Claims?
    requires forall k :: i < k < j && events[k].Claims? ==> events[k].lease.now < events[i].lease.expires
    ensures var owner := events[i].lease.owner;
      owner in states[j].todo
      && (|moves| <= |states[j].todo[owner]| ==>
            MoveAll(states[j].rows, owner, Zip(states[j].todo[owner], moves)).Some?)
  {
    var l := events[i].lease;
    LeaseLasts(states, events, i, j);
    RunInOrder(states, events, j);
    if |moves| <= |states[j].todo[l.owner]| {
      HeldIsAccepted(states[j], l.owner, l.expires, moves);
    }
  }

  /** A claim made before an earlier one expires takes none of the rows that one has left. */
  lemma NoSecondLease(states: seq<System>, events: seq<Event>, i: nat, j: nat)
    requires Run(states, events) && i < j < |events| && events[i].Claims? && events[j].Claims?
    requires forall k :: i < k <= j && events[k].Claims? ==> events[k].lease.now < events[i].lease.expires
    ensures var owner := events[i].lease.owner;
      owner in states[j].todo
      && forall n :: 0 <= n < |states[j].todo[owner]| ==> states[j].todo[owner][n].index !in Indices(events[j].items)
  {
    var l := events[i].lease;
    LeaseLasts(states, events, i, j);
    RunInOrder(states, events, j);
    NextStillHeld(states[j], events[j], states[j + 1], l.owner, l.expires);
  }

  /** A cycle that was cut off keeps its rows too: they stay as leased until the lease expires. */
  lemma {:induction false} AbandonedLeaseLasts(states: seq<System>, events: seq<Event>, i: nat, j: nat, n: nat)
    requires Run(states, events) && i < j < |states| && events[i].Claims? && n < |events[i].items|
    requires forall k :: i < k < j && events[k].Claims? ==> events[k].lease.now < events[i].lease.expires
    requires forall k :: i < k < j && (events[k].Settles? || events[k].Defers?) ==>
      events[k].owner != events[i].lease.owner
    ensures var l, item := events[i].lease, events[i].items[n];
      item.index < |states[j].rows|
      && states[j].rows[item.index] == Row(item.fence, Sending(l.owner, l.expires, item.fence))
    decreases j
  {
    if j == i + 1 {
      assert Next(states[i], events[i], states[i + 1]);
    } else {
      AbandonedLeaseLasts(states, events, i, j - 1, n);
      RunInOrder(states, events, j - 1);
      NextKeepsLease(states[j - 1], events[j - 1], states[j], events[i].items[n].index);
    }
  }
}
