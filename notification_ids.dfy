/**
 * The notification-id registry: a map from phone number to notification id,
 * filled from a counter that starts at 0 and only goes up, plus the set of
 * phone numbers that currently have an active notification.
 *
 * The pure part (IdTable, Assign, AssignAll, LookupId) is the specification of
 * the id map; the class IdManager holds the same state in mutable fields, as the
 * static HashMap and the static counter do.
 */
module NotificationIds {

  /** The id returned by the non-creating lookup when a number has none. */
  const NotFound: int := -1

  /** The id map together with the next id to hand out. */
  datatype IdTable = IdTable(ids: map<string, int>, nextId: int)

  /**
   * The invariant of the id map: every stored id lies in [0, nextId), distinct
   * numbers hold distinct ids, and every id below nextId has been handed out.
   */
  ghost predicate WellFormed(t: IdTable)
  {
    && 0 <= t.nextId
    && (forall p :: p in t.ids ==> 0 <= t.ids[p] < t.nextId)
    && (forall p, q :: p in t.ids && q in t.ids && p != q ==> t.ids[p] != t.ids[q])
    && (forall i :: 0 <= i < t.nextId ==> i in t.ids.Values)
  }

  /** The table before any id has been handed out. */
  function EmptyTable(): (t: IdTable)
    ensures WellFormed(t)
    ensures t.ids == map[] && t.nextId == 0
  {
    IdTable(map[], 0)
  }

  /**
   * getId(phoneNumber): the stored id if there is one; otherwise nextId is
   * recorded for the number and the counter is post-incremented.
   */
  function Assign(t: IdTable, p: string): (r: (IdTable, int))
  {
    if p in t.ids then (t, t.ids[p])
    else (IdTable(t.ids[p := t.nextId], t.nextId + 1), t.nextId)
  }

  /** The non-creating lookup getId(phoneNumber, false). */
  function LookupId(ids: map<string, int>, p: string): int
  {
    if p in ids then ids[p] else NotFound
  }

  /** A run of getId calls, one per number of ps, in order. */
  function AssignAll(t: IdTable, ps: seq<string>): IdTable
    decreases |ps|
  {
    if ps == [] then t else AssignAll(Assign(t, ps[0]).0, ps[1..])
  }

  /**
   * getId keeps the invariant, returns a non-negative id and leaves that id
   * recorded for the number; every other number keeps its entry.
   */
  lemma AssignKeepsWellFormed(t: IdTable, p: string)
    requires WellFormed(t)
    ensures var (t', id) := Assign(t, p);
      && WellFormed(t')
      && 0 <= id < t'.nextId
      && p in t'.ids && t'.ids[p] == id
      && (forall q :: q != p ==> (q in t'.ids <==> q in t.ids))
      && (forall q :: q != p && q in t.ids ==> t'.ids[q] == t.ids[q])
  {
    var (t', id) := Assign(t, p);
    if p !in t.ids {
      forall i | 0 <= i < t'.nextId
        ensures i in t'.ids.Values
      {
        if i == t.nextId {
          assert t'.ids[p] == i;
        } else {
          assert i in t.ids.Values;
          var q :| q in t.ids && t.ids[q] == i;
          assert q != p && t'.ids[q] == i;
        }
      }
    }
  }

  /** A number that has no id yet receives one that no other number holds. */
  lemma AssignFreshIsUnused(t: IdTable, p: string)
    requires WellFormed(t)
    requires p !in t.ids
    ensures Assign(t, p).1 !in t.ids.Values
    ensures Assign(t, p).0.nextId == t.nextId + 1
  {
  }

  /** Calling getId a second time for the same number changes nothing and returns the same id. */
  lemma AssignIdempotent(t: IdTable, p: string)
    ensures var (t', id) := Assign(t, p);
      Assign(t', p) == (t', id)
  {
  }

  /** The sentinel is never a valid id, so the non-creating lookup is unambiguous. */
  lemma LookupSentinel(t: IdTable, p: string)
    requires WellFormed(t)
    ensures LookupId(t.ids, p) == NotFound <==> p !in t.ids
    ensures p in t.ids ==> LookupId(t.ids, p) == Assign(t, p).1
  {
  }

  /** Over any run of getId calls the invariant holds and no recorded id ever changes. */
  lemma {:induction false} AssignAllStable(t: IdTable, ps: seq<string>)
    requires WellFormed(t)
    ensures var t' := AssignAll(t, ps);
      && WellFormed(t')
      && t.nextId <= t'.nextId
      && (forall q :: q in t'.ids <==> q in t.ids || q in ps)
      && (forall q :: q in t.ids ==> t'.ids[q] == t.ids[q])
    decreases |ps|
  {
    if ps != [] {
      var t1 := Assign(t, ps[0]).0;
      AssignKeepsWellFormed(t, ps[0]);
      AssignAllStable(t1, ps[1..]);
      assert forall q :: q in ps <==> q == ps[0] || q in ps[1..];
    }
  }

  /**
   * The registry: the id map and counter of the static-variable implementation
   * and the active-number set of the richer interface, in one object.
   */
  class IdManager {
    var ids: map<string, int>
    var nextId: int
    var active: set<string>

    ghost predicate Valid()
      reads this
    {
      WellFormed(IdTable(ids, nextId))
    }

    constructor ()
      ensures Valid()
      ensures ids == map[] && nextId == 0 && active == {}
    {
      ids := map[];
      nextId := 0;
      active := {};
    }

    /** getId(phoneNumber): the existing id, or a new one from the counter. */
    method GetId(phoneNumber: string) returns (id: int)
      requires Valid()
      modifies this
      ensures Valid()
      ensures (IdTable(ids, nextId), id) == Assign(IdTable(old(ids), old(nextId)), phoneNumber)
      ensures 0 <= id && phoneNumber in ids && ids[phoneNumber] == id
      ensures phoneNumber in old(ids) ==>
        id == old(ids[phoneNumber]) && ids == old(ids) && nextId == old(nextId)
      ensures phoneNumber !in old(ids) ==>
        id == old(nextId) && nextId == old(nextId) + 1 && ids == old(ids)[phoneNumber := id]
      ensures phoneNumber !in old(ids) ==> id !in old(ids).Values
      ensures active == old(active)
    {
      AssignKeepsWellFormed(IdTable(ids, nextId), phoneNumber);
      if phoneNumber !in ids {
        AssignFreshIsUnused(IdTable(ids, nextId), phoneNumber);
      }
      if phoneNumber in ids {
        return ids[phoneNumber];
      }
      ids := ids[phoneNumber := nextId];
      id := nextId;
      nextId := nextId + 1;
    }

    /**
     * getId(phoneNumber, createIfNotFound): with creation it is getId(phoneNumber);
     * without, it returns the stored id or NotFound and changes nothing.
     */
    method GetIdMaybeCreate(phoneNumber: string, createIfNotFound: bool) returns (id: int)
      requires Valid()
      modifies this
      ensures Valid()
      ensures createIfNotFound ==>
        (IdTable(ids, nextId), id) == Assign(IdTable(old(ids), old(nextId)), phoneNumber)
      ensures !createIfNotFound ==>
        id == LookupId(old(ids), phoneNumber) && ids == old(ids) && nextId == old(nextId)
      ensures !createIfNotFound ==> (id == NotFound <==> phoneNumber !in old(ids))
      ensures active == old(active)
    {
      if createIfNotFound {
        id := GetId(phoneNumber);
      } else {
        id := LookupId(ids, phoneNumber);
      }
    }

    /** getActiveNotificationPhoneNumbers(): the active set, read without change. */
    method GetActiveNotificationPhoneNumbers() returns (numbers: set<string>)
      ensures numbers == active
    {
      numbers := active;
    }

    /** addNotificationPhoneNumber(phoneNumber): the number joins the active set. */
    method AddNotificationPhoneNumber(phoneNumber: string)
      modifies this`active
      ensures active == old(active) + {phoneNumber}
    {
      active := active + {phoneNumber};
    }

    /** removeNotificationPhoneNumber(phoneNumber): the number leaves the active set. */
    method RemoveNotificationPhoneNumber(phoneNumber: string)
      modifies this`active
      ensures active == old(active) - {phoneNumber}
    {
      active := active - {phoneNumber};
    }
  }
}
