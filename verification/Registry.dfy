/** The relay's persistent ownership table, `usernames`, and its accessors. */
module Registry {
  import opened Prelude
  import opened IsoTime

  datatype Row = Row(installId: string, registeredAt: string, lastSeenAt: string)

  type Table = map<string, Row>

  predicate LowerAlnum(c: char) { 'a' <= c <= 'z' || '0' <= c <= '9' }

  /** The username pattern: 3 to 32 lower-case letters, digits and hyphens, no hyphen at
      either end. */
  predicate IsValidUsername(u: string) {
    && 3 <= |u| <= 32
    && LowerAlnum(u[0]) && LowerAlnum(u[|u| - 1])
    && forall i :: 0 <= i < |u| ==> LowerAlnum(u[i]) || u[i] == '-'
  }

  predicate MayRegister(t: Table, u: string, installId: string) {
    IsValidUsername(u) && (u in t ==> t[u].installId == installId)
  }

  function AfterRegister(t: Table, u: string, installId: string, now: string): Table {
    if !MayRegister(t, u, installId) then t
    else if u in t then t[u := t[u].(lastSeenAt := now)]
    else t[u := Row(installId, now, now)]
  }

  function AfterSeen(t: Table, u: string, now: string): Table {
    if u in t then t[u := t[u].(lastSeenAt := now)] else t
  }

  function AfterReclaim(t: Table, cutoff: string): Table {
    map u | u in t && !StringLess(t[u].lastSeenAt, cutoff) :: t[u]
  }

  /** `before` owns no name that `after` gives to somebody else, and none is lost. */
  predicate OwnersKept(before: Table, after: Table) {
    forall u :: u in before ==> u in after && after[u].installId == before[u].installId
  }

  class UsernameRegistry {
    var rows: Table

    constructor ()
      ensures rows == map[]
    {
      rows := map[];
    }

    method CanRegister(u: string, installId: string) returns (ok: bool)
      ensures ok == MayRegister(rows, u, installId)
    {
      if !IsValidUsername(u) { return false; }
      if u !in rows { return true; }
      return rows[u].installId == installId;
    }

    method Register(u: string, installId: string, now: string) returns (ok: bool)
      modifies this
      ensures ok == MayRegister(old(rows), u, installId)
      ensures rows == AfterRegister(old(rows), u, installId, now)
      ensures OwnersKept(old(rows), rows)
      ensures ok ==> u in rows && rows[u].installId == installId && rows[u].lastSeenAt == now
    {
      if !IsValidUsername(u) { return false; }
      if u in rows {
        if rows[u].installId != installId { return false; }
        rows := rows[u := rows[u].(lastSeenAt := now)];
        return true;
      }
      rows := rows[u := Row(installId, now, now)];
      return true;
    }

    method UpdateLastSeen(u: string, now: string)
      modifies this
      ensures rows == AfterSeen(old(rows), u, now)
      ensures OwnersKept(old(rows), rows)
    {
      if u in rows {
        rows := rows[u := rows[u].(lastSeenAt := now)];
      }
    }

    /** A registered name is open to one installation at most, a free valid one to all. */
    method IsRegistered(u: string) returns (yes: bool)
      ensures yes == (u in rows)
      ensures yes ==> forall a, b :: MayRegister(rows, u, a) && MayRegister(rows, u, b) ==> a == b
      ensures !yes && IsValidUsername(u) ==> forall a :: MayRegister(rows, u, a)
    {
      return u in rows;
    }

    /** `DELETE ... WHERE last_seen_at < cutoff`, returning the number of deleted rows. */
    method ReclaimInactive(cutoff: string) returns (changes: nat)
      modifies this
      ensures rows == AfterReclaim(old(rows), cutoff)
      ensures changes == |old(rows)| - |rows|
    {
      var kept := AfterReclaim(rows, cutoff);
      ReclaimShrinks(rows, cutoff);
      changes := |rows| - |kept|;
      rows := kept;
    }

    method Delete(u: string) returns (deleted: bool)
      modifies this
      ensures deleted == (u in old(rows)) && rows == old(rows) - {u}
    {
      deleted := u in rows;
      rows := rows - {u};
    }
  }

  lemma ReclaimShrinks(t: Table, cutoff: string)
    ensures |AfterReclaim(t, cutoff)| <= |t|
  {
    SubsetCardinality(AfterReclaim(t, cutoff).Keys, t.Keys);
    assert |AfterReclaim(t, cutoff)| == |AfterReclaim(t, cutoff).Keys| && |t| == |t.Keys|;
  }

  lemma {:induction false} SubsetCardinality<T>(a: set<T>, b: set<T>)
    requires a <= b
    ensures |a| <= |b|
  {
    if a != {} {
      var x :| x in a;
      SubsetCardinality(a - {x}, b - {x});
    }
  }

  /** First come, first served: after a registration its installation may register again and no
      other may; a refused registration changes nothing. */
  lemma AskThenRegister(t: Table, u: string, installId: string, other: string, now: string)
    ensures MayRegister(t, u, installId) ==> MayRegister(AfterRegister(t, u, installId, now), u, installId)
    ensures MayRegister(t, u, installId) && other != installId ==> !MayRegister(AfterRegister(t, u, installId, now), u, other)
    ensures !MayRegister(t, u, installId) ==> AfterRegister(t, u, installId, now) == t
  {
  }

  /** What a registration stores: a new row for a free name, and for a name of the installation
      its row with the time seen; no other row changes. */
  lemma RegistrationStores(t: Table, u: string, installId: string, now: string)
    requires MayRegister(t, u, installId)
    ensures var t' := AfterRegister(t, u, installId, now);
      && t'.Keys == t.Keys + {u}
      && t'[u] == Row(installId, if u in t then t[u].registeredAt else now, now)
      && forall v :: v in t && v != u ==> t'[v] == t[v]
  {
  }

  /** Being seen renews a registered name against reclaiming: it survives every cutoff that is
      not past the new stamp, with its owner and registration time; other names do not benefit. */
  lemma SeenNamesAreKept(t: Table, u: string, now: string, cutoff: string)
    requires u in t && !StringLess(now, cutoff)
    ensures var kept := AfterReclaim(AfterSeen(t, u, now), cutoff);
      && u in kept && kept[u] == Row(t[u].installId, t[u].registeredAt, now)
      && forall v :: v != u ==> (v in kept <==> v in AfterReclaim(t, cutoff)) && (v in kept ==> kept[v] == t[v])
  {
  }

  predicate PrintableYear(at: Utc) { Valid(at) && 0 <= at.year <= 9999 }

  /** Reclaiming removes a row exactly when it was last seen before the cutoff instant, for
      timestamps in years 0 to 9999, keeps every other row as it was and adds none. */
  lemma ReclaimByTime(t: Table, u: string, seen: Utc, cutoff: Utc)
    requires u in t && PrintableYear(seen) && PrintableYear(cutoff)
    requires t[u].lastSeenAt == Iso(seen)
    ensures u in AfterReclaim(t, Iso(cutoff)) <==> TimeValue(cutoff) <= TimeValue(seen)
    ensures u in AfterReclaim(t, Iso(cutoff)) ==> AfterReclaim(t, Iso(cutoff))[u] == t[u]
    ensures AfterReclaim(t, Iso(cutoff)).Keys <= t.Keys
  {
    IsoOrder(seen, cutoff);
  }
}
