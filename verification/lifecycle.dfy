/**
 * Properties of the whole visit lifecycle, across the store, the check-out search and the
 * screen router: a visitor just checked in can be found, and a visitor just checked out cannot.
 */
module Lifecycle {
  import opened Wrappers
  import opened Text
  import opened VisitorStorage
  import opened CheckOutForm
  import App

  /** A freshly added visitor is found by searching for their full name (unless it is blank). */
  lemma CheckedInVisitorIsFound(s: Store, id: string, name: string, now: Timestamp, st: CheckOutState)
    requires st.searchTerm == name && !IsBlank(name)
    ensures var r := HandleSearch(st, AddVisitor(s, id, name, now).visitors);
      r.foundVisitor.Some? && !r.notFound
  {
    var vs := AddVisitor(s, id, name, now).visitors;
    var v := vs[|s.visitors|];
    IncludesSelf(ToLower(name));
    assert Matches(v, name);
  }

  /** Once `checkOutVisitor(id)` has run, no search returns a record with that id. */
  lemma CheckedOutVisitorNotFound(s: Store, id: string, now: Timestamp, st: CheckOutState)
    requires !IsBlank(st.searchTerm)
    ensures var r := HandleSearch(st, CheckOutVisitor(s, id, now).store.visitors);
      r.foundVisitor.Some? ==> r.foundVisitor.value.id != id
  {
    var after := CheckOutVisitor(s, id, now).store.visitors;
    assert forall i :: 0 <= i < |after| && after[i].id == id ==> !IsActive(after[i]);
  }

  /**
   * The kiosk walk-through: "Asha Rao" checks in on an empty kiosk, a search for "asha" finds
   * her, the check-out closes her visit and shows its confirmation, and the same search then
   * reports not-found.
   */
  lemma AshaRaoWalkThrough(t0: Timestamp, t1: Timestamp)
    ensures var s1 := App.Run(App.Init(None), [App.StartCheckIn, App.CheckInSucceeded("v1", "Asha Rao", t0, []), App.Return, App.StartCheckOut]);
      && s1.screen == App.CheckOutScreen
      && |ActiveVisitors(s1.store.visitors)| == 1
      && var found := HandleSearch(CheckOutState("asha", None, false, false), s1.store.visitors);
      && found.foundVisitor.Some? && found.foundVisitor.value.id == "v1"
      && var s2 := App.Step(s1, App.CheckOutRequested(found.foundVisitor.value.id, t1, s1.store.visitors));
      && s2.confirm == Some(App.ConfirmationData(App.CheckOutDone, "Asha Rao"))
      && HandleSearch(CheckOutState("asha", None, false, false), s2.store.visitors).notFound
  {
    var v := NewVisitor("v1", "Asha Rao", t0);
    var s1 := AshaRaoCheckedIn(t0);
    AshaMatchesSearch(v);
    var s2 := App.Step(s1, App.CheckOutRequested("v1", t1, s1.store.visitors));
    var closed := v.(checkOutTime := Some(t1));
    assert s2.store.visitors == [closed];
    ActiveVisitorsOrder([], [closed], closed);
    assert ActiveVisitors(s2.store.visitors) == [];
  }

  /** The first half of the walk-through: check-in, confirmation, back to welcome, on to check-out. */
  lemma AshaRaoCheckedIn(t0: Timestamp) returns (s1: App.AppState)
    ensures s1 == App.Run(App.Init(None), [App.StartCheckIn, App.CheckInSucceeded("v1", "Asha Rao", t0, []), App.Return, App.StartCheckOut])
    ensures s1.screen == App.CheckOutScreen
    ensures s1.store.visitors == [NewVisitor("v1", "Asha Rao", t0)]
  {
    var events := [App.StartCheckIn, App.CheckInSucceeded("v1", "Asha Rao", t0, []), App.Return, App.StartCheckOut];
    var s0 := App.Init(None);
    var sa := App.Step(s0, events[0]);
    var sb := App.Step(sa, events[1]);
    var sc := App.Step(sb, events[2]);
    s1 := App.Step(sc, events[3]);
    var e1, e2, e3 := events[1..], events[2..], events[3..];
    assert e1[0] == events[1] && e1[1..] == e2;
    assert e2[0] == events[2] && e2[1..] == e3;
    assert e3[0] == events[3] && e3[1..] == [];
    assert App.Run(sc, e3) == s1;
    assert App.Run(s0, events) == App.Run(sa, e1) == App.Run(sb, e2) == App.Run(sc, e3);
    assert sb.store.visitors == [] + [NewVisitor("v1", "Asha Rao", t0)];
  }

  /** "asha" is a non-blank term that matches the record of "Asha Rao". */
  lemma AshaMatchesSearch(v: LocalVisitor)
    requires v.fullName == "Asha Rao"
    ensures Matches(v, "asha") && !IsBlank("asha")
  {
    assert ToLower("Asha Rao") == "asha rao";
    assert ToLower("asha") == "asha";
    assert IsPrefix("asha", "asha rao"[0..]);
    assert !IsJsWhitespace("asha"[0]);
  }
}
