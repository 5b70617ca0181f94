/** 20261006090000: every settled sale is stamped with the terminal shift that was open when it settled. */
module ShiftBackfill {
  import opened Tables

  /** Times are whole seconds. An open shift has no closing time. */
  datatype Shift = Shift(id: Id, property: Id, terminal: Id, openedAt: int, closedAt: Option<int>)

  /** A QR guest order has no terminal. */
  datatype Order = Order(property: Id, terminal: Option<Id>)

  datatype Settlement = Settlement(id: Id, property: Id, order: Id, settledAt: int, amount: int, shift: Option<Id>)

  /** `ORDER BY opened_at, id`. */
  predicate Before(a: Shift, b: Shift) {
    a.openedAt < b.openedAt || (a.openedAt == b.openedAt && a.id < b.id)
  }

  ghost predicate Ordered(shifts: seq<Shift>) {
    forall i, j :: 0 <= i < j < |shifts| ==> Before(shifts[i], shifts[j])
  }

  ghost predicate UniqueIds(shifts: seq<Shift>) {
    forall i, j :: 0 <= i < j < |shifts| ==> shifts[i].id != shifts[j].id
  }

  /** The sale was settled at the shift's terminal, within the shift's closed interval. */
  predicate Covers(orders: map<Id, Order>, shift: Shift, s: Settlement) {
    && s.property == shift.property
    && s.order in orders && orders[s.order] == Order(shift.property, Some(shift.terminal))
    && shift.openedAt <= s.settledAt
    && (shift.closedAt.Some? ==> s.settledAt <= shift.closedAt.value)
  }

  /** What the backfill owes a sale: its old stamp, else the earliest shift that covers it, else none. */
  ghost predicate StampedRight(orders: map<Id, Order>, shifts: seq<Shift>, before: Settlement, now: Settlement) {
    && now == before.(shift := now.shift)
    && (before.shift.Some? ==> now.shift == before.shift)
    && (before.shift.None? && now.shift.None? ==> forall x :: x in shifts ==> !Covers(orders, x, before))
    && (before.shift.None? && now.shift.Some? ==>
          exists x :: x in shifts && x.id == now.shift.value && Covers(orders, x, before)
                      && forall y :: y in shifts && Covers(orders, y, before) ==> y == x || Before(x, y))
  }

  class Settlements {
    var rows: seq<Settlement>

    /** One `UPDATE`: the rows this shift covers that carry no stamp yet. */
    method Stamp(orders: map<Id, Order>, shift: Shift)
      modifies this
      ensures |rows| == |old(rows)|
      ensures forall i :: 0 <= i < |rows| ==>
        rows[i] == if old(rows)[i].shift.None? && Covers(orders, shift, old(rows)[i])
                   then old(rows)[i].(shift := Some(shift.id)) else old(rows)[i]
    {
      var was := rows;
      rows := seq(|was|, i requires 0 <= i < |was| =>
        if was[i].shift.None? && Covers(orders, shift, was[i]) then was[i].(shift := Some(shift.id)) else was[i]);
    }

    method Backfill(orders: map<Id, Order>, shifts: seq<Shift>)
      requires Ordered(shifts)
      modifies this
      ensures |rows| == |old(rows)|
      ensures forall i :: 0 <= i < |rows| ==> StampedRight(orders, shifts, old(rows)[i], rows[i])
    {
      hide Covers, Before;
      for n := 0 to |shifts|
        invariant |rows| == |old(rows)|
        invariant forall i :: 0 <= i < |rows| ==> StampedRight(orders, shifts[..n], old(rows)[i], rows[i])
      {
        label L:
        Stamp(orders, shifts[n]);
        forall i | 0 <= i < |rows| ensures StampedRight(orders, shifts[..n + 1], old(rows)[i], rows[i]) {
          StampOneMore(orders, shifts, n, old(rows)[i], old@L(rows)[i], rows[i]);
        }
      }
      assert shifts[..|shifts|] == shifts;
    }
  }

  lemma StampOneMore(
    orders: map<Id, Order>, shifts: seq<Shift>, n: nat, before: Settlement, now: Settlement, next: Settlement)
    requires Ordered(shifts) && n < |shifts| && StampedRight(orders, shifts[..n], before, now)
    requires next == if now.shift.None?
      && Covers(orders, shifts[n], now) then now.(shift := Some(shifts[n].id)) else now
    ensures StampedRight(orders, shifts[..n + 1], before, next)
  {
  }

  /** The specification leaves no choice: there is one earliest covering shift. */
  lemma StampDetermined(orders: map<Id, Order>, shifts: seq<Shift>, before: Settlement, a: Settlement, b: Settlement)
    requires StampedRight(orders, shifts, before, a) && StampedRight(orders, shifts, before, b)
    ensures a == b
  {
  }

  // ----- the cash-up totals -----

  function ShiftTotal(rows: seq<Settlement>, shift: Id): int {
    if rows == [] then 0
    else
      var last := rows[|rows| - 1];
      ShiftTotal(rows[..|rows| - 1], shift) + if last.shift == Some(shift) then last.amount else 0
  }

  function AllShiftTotals(rows: seq<Settlement>, shifts: seq<Shift>): int {
    if shifts == [] then 0
    else AllShiftTotals(rows, shifts[..|shifts| - 1]) + ShiftTotal(rows, shifts[|shifts| - 1].id)
  }

  ghost predicate Covered(orders: map<Id, Order>, shifts: seq<Shift>, s: Settlement) {
    exists x :: x in shifts && Covers(orders, x, s)
  }

  ghost function CoveredTotal(orders: map<Id, Order>, shifts: seq<Shift>, rows: seq<Settlement>): int {
    if rows == [] then 0
    else
      var last := rows[|rows| - 1];
      CoveredTotal(orders, shifts, rows[..|rows| - 1]) + if Covered(orders, shifts, last) then last.amount else 0
  }

  lemma {:induction false} OneShiftCounts(row: Settlement, shifts: seq<Shift>, rows: seq<Settlement>)
    requires UniqueIds(shifts) && rows != [] && rows[|rows| - 1] == row
    ensures AllShiftTotals(rows, shifts) == AllShiftTotals(rows[..|rows| - 1], shifts)
      + if exists x :: x in shifts && row.shift == Some(x.id) then row.amount else 0
  {
    if shifts != [] {
      var n := |shifts| - 1;
      OneShiftCounts(row, shifts[..n], rows);
      assert shifts == shifts[..n] + [shifts[n]];
      if row.shift == Some(shifts[n].id) {
        forall x | x in shifts[..n] ensures x.id != shifts[n].id {
          var i :| 0 <= i < n && shifts[i] == x;
        }
      }
    }
  }

  lemma {:induction false} NoRowsNoTotals(shifts: seq<Shift>)
    ensures AllShiftTotals([], shifts) == 0
  {
    if shifts != [] {
      NoRowsNoTotals(shifts[..|shifts| - 1]);
    }
  }

  /**
   * From unstamped rows, the totals of all shifts together count every
   * covered sale exactly once, whatever intervals overlap.
   */
  lemma {:induction false} TotalsCountOnce(
    orders: map<Id, Order>, shifts: seq<Shift>, before: seq<Settlement>, now: seq<Settlement>)
    requires UniqueIds(shifts) && |now| == |before|
    requires forall i :: 0 <= i < |before| ==> before[i].shift.None? && StampedRight(orders, shifts, before[i], now[i])
    ensures AllShiftTotals(now, shifts) == CoveredTotal(orders, shifts, before)
  {
    hide Covers;
    if before == [] {
      NoRowsNoTotals(shifts);
    } else {
      var n := |before| - 1;
      TotalsCountOnce(orders, shifts, before[..n], now[..n]);
      OneShiftCounts(now[n], shifts, now);
      assert StampedRight(orders, shifts, before[n], now[n]);
    }
  }

  // ----- the stamp, in columns -----

  /**
   * A sale without a stamp gets that of a shift exactly when the shift is of
   * its property, on its order's terminal, opened at or before the sale and
   * not closed before it, and no such shift opened earlier, or as early with
   * a lower id.
   */
  lemma StampedExactly(orders: map<Id, Order>, shifts: seq<Shift>, before: Settlement, now: Settlement, id: Id)
    requires StampedRight(orders, shifts, before, now) && before.shift.None?
    ensures now.shift == Some(id) <==> exists x ::
      && x in shifts && x.id == id && x.property == before.property
      && before.order in orders && orders[before.order].property == x.property
      && orders[before.order].terminal == Some(x.terminal)
      && x.openedAt <= before.settledAt && (x.closedAt == None || before.settledAt <= x.closedAt.value)
      && (forall y ::
            y in shifts && y.property == before.property && orders[before.order].terminal == Some(y.terminal)
            && y.openedAt <= before.settledAt && (y.closedAt == None || before.settledAt <= y.closedAt.value) ==>
            x.openedAt < y.openedAt || (x.openedAt == y.openedAt && x.id <= y.id))
  {
  }

  /** A sale of an order without a terminal, or of no order known, gets none. */
  lemma NoTerminalNoStamp(orders: map<Id, Order>, shifts: seq<Shift>, before: Settlement, now: Settlement)
    requires StampedRight(orders, shifts, before, now) && before.shift.None?
    requires before.order !in orders || orders[before.order].terminal == None
    ensures now == before
  {
  }

  /** In the second in which one shift of a terminal closes and the next opens, a sale goes to the earlier one. */
  lemma HandoverGoesToEarlier(
    orders: map<Id, Order>, shifts: seq<Shift>, before: Settlement, now: Settlement, early: Shift, late: Shift)
    requires StampedRight(orders, shifts, before, now) && before.shift.None?
    requires shifts == [early, late] && early.id != late.id && early.openedAt < late.openedAt
    requires early.property == before.property == late.property && early.terminal == late.terminal
    requires before.order in orders && orders[before.order] == Order(before.property, Some(early.terminal))
    requires early.closedAt == Some(before.settledAt) && late.openedAt == before.settledAt
    ensures now == before.(shift := Some(early.id))
  {
    assert early in shifts && late in shifts;
    assert Covers(orders, early, before);
  }
}
