/** 20261130090000: taxes that already ended under the date system are switched off. */
module TaxSwitch {
  import opened Tables
  import opened Grouping

  /** One effective-dated version of a tax; dates are day numbers, both ends inclusive. */
  datatype Tax = Tax(id: Id, tenant: Id, property: Id, code: string, from: int, to: Option<int>, enabled: bool)

  function TaxKey(t: Tax): (Id, Id, string) {
    (t.tenant, t.property, t.code)
  }

  predicate Effective(t: Tax, date: int) {
    t.from <= date && (t.to.Some? ==> date <= t.to.value)
  }

  /** Open, or not ended before the property's business date; with no business date only an open version counts. */
  predicate Live(t: Tax, dates: map<Id, Option<int>>) {
    t.to.None? || (t.property in dates && dates[t.property].Some? && t.to.value >= dates[t.property].value)
  }

  predicate AnyLive(versions: seq<Tax>, dates: map<Id, Option<int>>) {
    exists i :: 0 <= i < |versions| && Live(versions[i], dates)
  }

  function Versions(rows: seq<Tax>, t: Tax): seq<Tax> {
    WithKey(rows, TaxKey, TaxKey(t))
  }

  /** The row as the backfill leaves it: off exactly when no version of its code is live. */
  function Switched(rows: seq<Tax>, dates: map<Id, Option<int>>, t: Tax): Tax {
    if AnyLive(Versions(rows, t), dates) then t else t.(enabled := false)
  }

  ghost predicate UniqueIds(rows: seq<Tax>) {
    forall i, j :: 0 <= i < j < |rows| ==> rows[i].id != rows[j].id
  }

  /** The rows once the groups of these keys were gone through. */
  ghost predicate SwitchedFor(
    before: seq<Tax>, dates: map<Id, Option<int>>, keys: seq<(Id, Id, string)>, now: seq<Tax>)
  {
    && |now| == |before|
    && forall i :: 0 <= i < |before| ==>
         now[i] == if TaxKey(before[i]) in keys then Switched(before, dates, before[i]) else before[i]
  }

  function SwitchedOff(rows: seq<Tax>, ids: set<Id>): seq<Tax> {
    seq(|rows|, i requires 0 <= i < |rows| => if rows[i].id in ids then rows[i].(enabled := false) else rows[i])
  }

  /** One more group: all its versions are switched off, or none. */
  lemma SwitchStep(
    before: seq<Tax>, dates: map<Id, Option<int>>, keys: seq<(Id, Id, string)>, k: (Id, Id, string), now: seq<Tax>)
    requires UniqueIds(before) && SwitchedFor(before, dates, keys, now) && k !in keys
    ensures var versions := WithKey(before, TaxKey, k);
      SwitchedFor(before, dates, keys + [k],
                  if AnyLive(versions, dates) then now else SwitchedOff(now, set v | v in versions :: v.id))
  {
    hide AnyLive, WithKey, TaxKey;
    VersionIds(before, k);
    var versions := WithKey(before, TaxKey, k);
    var next := if AnyLive(versions, dates) then now else SwitchedOff(now, set v | v in versions :: v.id);
    forall i | 0 <= i < |before|
      ensures next[i] == if TaxKey(before[i]) in keys + [k] then Switched(before, dates, before[i]) else before[i]
    {
      assert now[i].id == before[i].id;
    }
  }

  lemma NoneSwitched(rows: seq<Tax>, dates: map<Id, Option<int>>)
    ensures SwitchedFor(rows, dates, [], rows)
  {
  }

  lemma AllSwitched(before: seq<Tax>, dates: map<Id, Option<int>>, now: seq<Tax>)
    requires SwitchedFor(before, dates, Keys(before, TaxKey), now)
    ensures |now| == |before|
    ensures forall i :: 0 <= i < |now| ==> now[i] == Switched(before, dates, before[i])
  {
    hide Keys, Switched;
    KeysMembers(before, TaxKey);
    forall i | 0 <= i < |before| ensures now[i] == Switched(before, dates, before[i]) {
      assert before[i] in before;
    }
  }

  class TaxTable {
    var rows: seq<Tax>

    /** `UPDATE taxes SET enabled = 0 WHERE id IN (...)`. */
    method SwitchOff(ids: set<Id>)
      modifies this
      ensures rows == SwitchedOff(old(rows), ids)
    {
      rows := SwitchedOff(rows, ids);
    }

    method Up(dates: map<Id, Option<int>>)
      requires UniqueIds(rows)
      modifies this
      ensures |rows| == |old(rows)|
      ensures forall i :: 0 <= i < |rows| ==> rows[i] == Switched(old(rows), dates, old(rows)[i])
      ensures forall i :: 0 <= i < |rows| && old(rows)[i].enabled ==>
        var t := old(rows)[i];
        !rows[i].enabled <==> forall v ::
          v in old(rows) && v.tenant == t.tenant && v.property == t.property && v.code == t.code ==>
          v.to.Some? && (t.property in dates && dates[t.property].Some? ==> v.to.value < dates[t.property].value)
    {
      hide AnyLive, WithKey, Keys, SwitchedFor, SwitchedOff;
      var groups := GroupBy(rows, TaxKey);
      ghost var before, keys := rows, Keys(rows, TaxKey);
      KeysMembers(before, TaxKey);
      NoneSwitched(before, dates);
      for g := 0 to |groups|
        invariant SwitchedFor(before, dates, keys[..g], rows)
      {
        var versions := groups[g];
        assert keys[..g + 1] == keys[..g] + [keys[g]];
        SwitchStep(before, dates, keys[..g], keys[g], rows);
        if !AnyLive(versions, dates) {
          SwitchOff(set v | v in versions :: v.id);
        }
      }
      assert keys[..|keys|] == keys;
      AllSwitched(before, dates, rows);
      forall i | 0 <= i < |rows| && before[i].enabled
        ensures var t := before[i];
          !rows[i].enabled <==> forall v ::
            v in before && v.tenant == t.tenant && v.property == t.property && v.code == t.code ==>
            v.to.Some? && (t.property in dates && dates[t.property].Some? ==> v.to.value < dates[t.property].value)
      {
        SwitchedOffExactly(before, dates, before[i]);
      }
    }

    /** Dropping the column while a tax is off would switch it back on. */
    method Down() returns (dropped: bool)
      ensures dropped <==> forall t :: t in rows ==> t.enabled
    {
      dropped := !exists i :: 0 <= i < |rows| && !rows[i].enabled;
      assert dropped ==> forall t :: t in rows ==> t.enabled;
    }
  }

  lemma VersionIds(rows: seq<Tax>, k: (Id, Id, string))
    requires UniqueIds(rows)
    ensures forall i :: 0 <= i < |rows| ==>
      (rows[i].id in (set v | v in WithKey(rows, TaxKey, k) :: v.id) <==> TaxKey(rows[i]) == k)
  {
    WithKeyMembers(rows, TaxKey, k);
    forall i | 0 <= i < |rows|
      ensures rows[i].id in (set v | v in WithKey(rows, TaxKey, k) :: v.id) <==> TaxKey(rows[i]) == k
    {
      assert rows[i] in rows;
      if v :| v in WithKey(rows, TaxKey, k) && v.id == rows[i].id {
        var j :| 0 <= j < |rows| && rows[j] == v;
        assert i == j;
      }
    }
  }

  /** All versions of a code get one and the same value, if they started with one. */
  lemma OneSwitchPerCode(rows: seq<Tax>, dates: map<Id, Option<int>>, t: Tax, u: Tax)
    requires t in rows && u in rows && TaxKey(t) == TaxKey(u) && t.enabled == u.enabled
    ensures Switched(rows, dates, t).enabled == Switched(rows, dates, u).enabled
  {
  }

  /** A version counts on a date, with and without the switch. */
  predicate Charged(rows: seq<Tax>, dates: map<Id, Option<int>>, t: Tax, date: int) {
    Switched(rows, dates, t).enabled && Effective(t, date)
  }

  /** From the business date on, no version switched off would have been charged. */
  lemma NoOutcomeChanges(rows: seq<Tax>, dates: map<Id, Option<int>>, t: Tax, date: int)
    requires t in rows && t.enabled
    requires t.property in dates && dates[t.property].Some? && date >= dates[t.property].value
    ensures Charged(rows, dates, t, date) <==> Effective(t, date)
  {
    if Effective(t, date) {
      WithKeyMembers(rows, TaxKey, TaxKey(t));
      assert t in Versions(rows, t);
      var i :| 0 <= i < |Versions(rows, t)| && Versions(rows, t)[i] == t;
      assert Live(t, dates);
    }
  }

  /**
   * At a property with no business date set, a version's outcome is kept on
   * every date exactly when its code has an open version, or it was never
   * effective at all.
   */
  lemma NoBusinessDateExactly(rows: seq<Tax>, dates: map<Id, Option<int>>, t: Tax)
    requires t in rows && t.enabled && (t.property in dates ==> dates[t.property].None?)
    ensures (forall date: int :: Charged(rows, dates, t, date) <==> Effective(t, date)) <==>
            (exists v :: v in rows && TaxKey(v) == TaxKey(t) && v.to.None?) || (t.to.Some? && t.to.value < t.from)
  {
    var versions := Versions(rows, t);
    WithKeyMembers(rows, TaxKey, TaxKey(t));
    if v :| v in rows && TaxKey(v) == TaxKey(t) && v.to.None? {
      assert v in versions;
      var i :| 0 <= i < |versions| && versions[i] == v;
      assert Live(v, dates);
    } else {
      assert forall i :: 0 <= i < |versions| ==> versions[i] in versions;
      assert !AnyLive(versions, dates);
      assert Effective(t, t.from) <==> t.from <= t.to.value;
      assert !Charged(rows, dates, t, t.from);
    }
  }

  /** For example, a tax of such a property that ends on a date to come is no longer charged on it. */
  lemma NoBusinessDate(date: int)
    ensures var t := Tax(1, 1, 1, "VAT", date, Some(date), true);
      Effective(t, date) && !Charged([t], map[1 := None], t, date)
  {
    var t := Tax(1, 1, 1, "VAT", date, Some(date), true);
    NoBusinessDateExactly([t], map[1 := None], t);
    WithKeyMembers([t], TaxKey, TaxKey(t));
    assert forall i :: 0 <= i < |Versions([t], t)| ==> Versions([t], t)[i] in Versions([t], t);
  }

  /**
   * The switch in columns: a tax on before is off afterwards exactly when
   * every version of its code at its property has an end date, and that date
   * is before the business date wherever one is set.
   */
  lemma SwitchedOffExactly(rows: seq<Tax>, dates: map<Id, Option<int>>, t: Tax)
    requires t in rows && t.enabled
    ensures !Switched(rows, dates, t).enabled <==>
      forall v :: v in rows && v.tenant == t.tenant && v.property == t.property && v.code == t.code ==>
        v.to.Some? && (t.property in dates && dates[t.property].Some? ==> v.to.value < dates[t.property].value)
  {
    var versions := Versions(rows, t);
    WithKeyMembers(rows, TaxKey, TaxKey(t));
    forall v
      ensures v in versions <==> v in rows && v.tenant == t.tenant && v.property == t.property && v.code == t.code
    {
    }
    if AnyLive(versions, dates) {
      var i :| 0 <= i < |versions| && Live(versions[i], dates);
      assert versions[i] in versions;
    } else {
      forall v | v in versions ensures !Live(v, dates) {
        var i :| 0 <= i < |versions| && versions[i] == v;
      }
    }
  }

  /** A tax that was off stays off, and nothing else of a row changes. */
  lemma OnlySwitched(rows: seq<Tax>, dates: map<Id, Option<int>>, t: Tax)
    ensures Switched(rows, dates, t) == t.(enabled := Switched(rows, dates, t).enabled)
    ensures !t.enabled ==> !Switched(rows, dates, t).enabled
  {
    hide AnyLive;
  }
}
