/**
 * The local visit store (`useVisitorStorage`): an ordered list of visitor records held in
 * memory and mirrored, after every mutation, into one persistent slot. Timestamps are
 * integer milliseconds supplied by the caller.
 */
module VisitorStorage {
  import opened Wrappers
  import Seqs

  /** Milliseconds since the epoch (the source stores ISO-8601 strings of such instants). */
  type Timestamp = int

  /** One locally stored visit; `checkOutTime == None` means the visit is still active. */
  datatype LocalVisitor = LocalVisitor(
    id: string,
    fullName: string,
    personToMeet: Option<string>,
    reasonForVisit: Option<string>,
    otherReason: Option<string>,
    phoneNumber: Option<string>,
    photo: Option<string>,
    checkInTime: Timestamp,
    checkOutTime: Option<Timestamp>
  )

  /** The persistent slot: absent, or holding the (serialized) list. */
  type Slot = Option<seq<LocalVisitor>>

  /** The hook's state: the in-memory list and the persistent slot. */
  datatype Store = Store(visitors: seq<LocalVisitor>, slot: Slot)

  /** The slot mirrors the in-memory list. */
  predicate Persisted(s: Store) {
    s.slot == Some(s.visitors)
  }

  /** Initial state: the list is read from the slot, and an absent slot means no visitors. */
  function Load(slot: Slot): (s: Store)
    ensures s.slot == slot
    ensures slot.None? ==> s.visitors == []
    ensures slot.Some? ==> Persisted(s)
  {
    Store(slot.GetOr([]), slot)
  }

  /** The record `addVisitor` creates: only id, name and the check-in instant are filled in. */
  function NewVisitor(id: string, fullName: string, now: Timestamp): LocalVisitor {
    LocalVisitor(id, fullName, None, None, None, None, None, now, None)
  }

  /** `addVisitor`: append an active record (no uniqueness check on `id`) and persist. */
  function AddVisitor(s: Store, id: string, fullName: string, now: Timestamp): (r: Store)
    ensures |r.visitors| == |s.visitors| + 1
    ensures r.visitors[..|s.visitors|] == s.visitors
    ensures var v := r.visitors[|s.visitors|];
      && v.id == id && v.fullName == fullName && v.checkInTime == now && v.checkOutTime.None?
      && v.personToMeet.None? && v.reasonForVisit.None? && v.otherReason.None?
      && v.phoneNumber.None? && v.photo.None?
    ensures Persisted(r)
  {
    var updated := s.visitors + [NewVisitor(id, fullName, now)];
    Store(updated, Some(updated))
  }

  /** The `map` inside `checkOutVisitor`: every record with `id` gets check-out time `now`. */
  function StampCheckOut(vs: seq<LocalVisitor>, id: string, now: Timestamp): (r: seq<LocalVisitor>)
    ensures |r| == |vs|
    ensures forall i :: 0 <= i < |vs| && vs[i].id != id ==> r[i] == vs[i]
    ensures forall i :: 0 <= i < |vs| && vs[i].id == id ==> r[i] == vs[i].(checkOutTime := Some(now))
  {
    if |vs| == 0 then []
    else
      var head := if vs[0].id == id then vs[0].(checkOutTime := Some(now)) else vs[0];
      [head] + StampCheckOut(vs[1..], id, now)
  }

  /** Position of the first record carrying `id`. */
  function FirstWithId(vs: seq<LocalVisitor>, id: string): (r: Option<nat>)
    ensures r.Some? ==> r.value < |vs| && vs[r.value].id == id
    ensures r.Some? ==> forall j :: 0 <= j < r.value ==> vs[j].id != id
    ensures r.None? <==> forall j :: 0 <= j < |vs| ==> vs[j].id != id
  {
    Seqs.FindFirst(vs, (v: LocalVisitor) => v.id == id)
  }

  /** What `checkOutVisitor` hands back: the new store and the record it found, if any. */
  datatype CheckOutResult = CheckOutResult(store: Store, closed: Option<LocalVisitor>)

  /**
   * `checkOutVisitor`: stamp every record with `id` (already closed ones included), persist,
   * and return the first record with `id` from the updated list, or nothing.
   */
  function CheckOutVisitor(s: Store, id: string, now: Timestamp): (r: CheckOutResult)
    ensures |r.store.visitors| == |s.visitors|
    ensures forall i :: 0 <= i < |s.visitors| && s.visitors[i].id != id ==>
      r.store.visitors[i] == s.visitors[i]
    ensures forall i :: 0 <= i < |s.visitors| && s.visitors[i].id == id ==>
      r.store.visitors[i] == s.visitors[i].(checkOutTime := Some(now))
    ensures Persisted(r.store)
    ensures r.closed.None? <==> forall i :: 0 <= i < |s.visitors| ==> s.visitors[i].id != id
    ensures r.closed.None? ==> r.store.visitors == s.visitors
    ensures r.closed.Some? ==>
      (FirstWithId(s.visitors, id).Some? &&
       r.closed.value == s.visitors[FirstWithId(s.visitors, id).value].(checkOutTime := Some(now)))
  {
    var updated := StampCheckOut(s.visitors, id, now);
    assert forall i :: 0 <= i < |updated| ==> updated[i].id == s.visitors[i].id;
    var found := match FirstWithId(updated, id)
      case None =>
        assert updated == s.visitors;
        None
      case Some(k) =>
        assert FirstWithId(s.visitors, id) == Some(k);
        Some(updated[k]);
    CheckOutResult(Store(updated, Some(updated)), found)
  }

  // ---------------------------------------------------------------------------
  // Properties relating several calls
  // ---------------------------------------------------------------------------

  /** Reloading from the slot after a mutation restores exactly the in-memory list. */
  lemma ReloadAfterMutation(s: Store, id: string, name: string, now: Timestamp)
    ensures Load(AddVisitor(s, id, name, now).slot) == AddVisitor(s, id, name, now)
    ensures Load(CheckOutVisitor(s, id, now).store.slot) == CheckOutVisitor(s, id, now).store
  {
  }

  /** `addVisitor` does not reject a repeated id: afterwards two positions carry it. */
  lemma AddVisitorAcceptsDuplicateId(s: Store, i: nat, name: string, now: Timestamp)
    requires i < |s.visitors|
    ensures var r := AddVisitor(s, s.visitors[i].id, name, now);
      r.visitors[i].id == r.visitors[|s.visitors|].id && i != |s.visitors|
  {
    var r := AddVisitor(s, s.visitors[i].id, name, now);
    assert r.visitors[i] == r.visitors[..|s.visitors|][i];
  }

  /**
   * `checkOutVisitor` does not refuse a visit that is already closed: a second call with the same id succeeds
   * again and overwrites the earlier check-out time.
   */
  lemma CheckOutTwiceRestamps(s: Store, i: nat, t1: Timestamp, t2: Timestamp)
    requires i < |s.visitors|
    ensures var id := s.visitors[i].id;
      var first := CheckOutVisitor(s, id, t1);
      var second := CheckOutVisitor(first.store, id, t2);
      && first.closed.Some? && first.closed.value.checkOutTime == Some(t1)
      && second.closed.Some? && second.closed.value.checkOutTime == Some(t2)
  {
  }
}
