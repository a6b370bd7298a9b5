/**
 * The top-level screen router: which screen is shown, the payload of the confirmation
 * screen, and the local visit store the check-in and check-out handlers update.
 */
module App {
  import opened Wrappers
  import opened VisitorStorage

  datatype Screen = Welcome | CheckInScreen | CheckOutScreen | ConfirmationScreen

  /** The `type` of a confirmation: which flow just finished. */
  datatype ConfirmKind = CheckInDone | CheckOutDone

  datatype ConfirmationData = ConfirmationData(kind: ConfirmKind, visitorName: string)

  datatype AppState = AppState(screen: Screen, confirm: Option<ConfirmationData>, store: Store)

  /** Start-up: the welcome screen, no confirmation, and the store loaded from its slot. */
  function Init(slot: Slot): (s: AppState)
    ensures s.screen == Welcome && s.confirm.None?
    ensures s.store.visitors == slot.GetOr([])
  {
    AppState(Welcome, None, Load(slot))
  }

  /**
   * `handleCheckInSuccess`: record the visitor locally, then show the check-in confirmation.
   * The handler is the one the form captured when the submit started, so `addVisitor` appends
   * to `basis`, the list as it was then, and writes that result back in full; a check-out made
   * while the insert was pending is undone. The local id is a parameter here (see README).
   */
  function HandleCheckInSuccess(s: AppState, basis: seq<LocalVisitor>, id: string, visitorName: string, now: Timestamp): (r: AppState)
    ensures r.screen == ConfirmationScreen
    ensures r.confirm == Some(ConfirmationData(CheckInDone, visitorName))
    ensures Persisted(r.store)
    ensures |r.store.visitors| == |basis| + 1 && r.store.visitors[..|basis|] == basis
    ensures r.store.visitors[|basis|].id == id && r.store.visitors[|basis|].fullName == visitorName
    ensures var v := r.store.visitors[|basis|];
      && v.checkInTime == now && v.checkOutTime.None?
      && v.personToMeet.None? && v.reasonForVisit.None? && v.otherReason.None?
      && v.phoneNumber.None? && v.photo.None?
  {
    AppState(ConfirmationScreen, Some(ConfirmationData(CheckInDone, visitorName)),
      AddVisitor(s.store.(visitors := basis), id, visitorName, now))
  }

  /**
   * `handleCheckOut`: close the visit locally; move to the check-out confirmation only when
   * the store returned a record, otherwise stay where we are. As for check-in, `checkOutVisitor`
   * works on `basis`, the list captured when the click started, and writes its result back.
   */
  function HandleCheckOut(s: AppState, basis: seq<LocalVisitor>, visitorId: string, now: Timestamp): (r: AppState)
    ensures r.store == CheckOutVisitor(Store(basis, s.store.slot), visitorId, now).store
    ensures Persisted(r.store)
    ensures (exists i :: 0 <= i < |basis| && basis[i].id == visitorId) ==>
      && r.screen == ConfirmationScreen
      && r.confirm.Some? && r.confirm.value.kind == CheckOutDone
      && r.confirm.value.visitorName == basis[FirstWithId(basis, visitorId).value].fullName
    ensures (forall i :: 0 <= i < |basis| ==> basis[i].id != visitorId) ==>
      r.screen == s.screen && r.confirm == s.confirm && r.store.visitors == basis
  {
    var res := CheckOutVisitor(Store(basis, s.store.slot), visitorId, now);
    match res.closed
    case Some(v) => AppState(ConfirmationScreen, Some(ConfirmationData(CheckOutDone, v.fullName)), res.store)
    case None => s.(store := res.store)
  }

  /**
   * A check-in reply built on the list from before a check-out undoes that check-out. The
   * submit starts on the check-in screen while `x` is open; meanwhile the user goes back, checks
   * `x` out and returns home; the reply then writes back the list it captured, with `x` open.
   */
  lemma StaleCheckInReplyReopens(x: LocalVisitor, id: string, name: string, t1: Timestamp, t2: Timestamp)
    returns (s: AppState)
    requires x.checkOutTime.None?
    ensures s == Run(Init(Some([x])), [StartCheckIn, Back, StartCheckOut, CheckOutRequested(x.id, t1, [x]), Return])
    ensures s.store.visitors == [x.(checkOutTime := Some(t1))]
    ensures var r := Step(s, CheckInSucceeded(id, name, t2, [x]));
      r.store.visitors[0] == x && r.store.slot.value[0] == x
  {
    var events := [StartCheckIn, Back, StartCheckOut, CheckOutRequested(x.id, t1, [x]), Return];
    var s0 := Init(Some([x]));
    var s1 := Step(s0, events[0]);
    var s2 := Step(s1, events[1]);
    var s3 := Step(s2, events[2]);
    var s4 := Step(s3, events[3]);
    s := Step(s4, events[4]);
    RunAppend(s0, events[..1], events[1..]);
    RunAppend(s1, events[1..2], events[2..]);
    RunAppend(s2, events[2..3], events[3..]);
    RunAppend(s3, events[3..4], events[4..]);
    assert events[..1] == [events[0]] && events[1..2] == [events[1]];
    assert events[2..3] == [events[2]] && events[3..4] == [events[3]];
    assert events[1..][1..] == events[2..] && events[2..][1..] == events[3..] && events[3..][1..] == events[4..];
    assert events[4..] == [events[4]];
    assert FirstWithId([x], x.id) == Some(0);
    var r := Step(s, CheckInSucceeded(id, name, t2, [x]));
    assert r.store.visitors[0] == r.store.visitors[..1][0];
  }


  /** The confirmation view is rendered only on the confirmation screen with a payload present. */
  predicate ShowsConfirmation(s: AppState) {
    s.screen == ConfirmationScreen && s.confirm.Some?
  }

  /** The confirmation screen's `onReturn`: back to welcome, payload cleared. */
  function ReturnHome(s: AppState): (r: AppState)
    ensures r.screen == Welcome && r.confirm.None? && r.store == s.store
  {
    s.(screen := Welcome, confirm := None)
  }

  /**
   * The events the router reacts to. Navigation events come from the controls of the screen
   * currently rendered. The check-in and check-out replies come from a form's handler once its
   * awaited remote call has answered, which can be after the user has pressed Back; `basis` is
   * the visitor list the handler captured when the submit or click started.
   */
  datatype Event =
    | StartCheckIn
    | StartCheckOut
    | Back
    | CheckInSucceeded(id: string, visitorName: string, at: Timestamp, basis: seq<LocalVisitor>)
    | CheckOutRequested(visitorId: string, at: Timestamp, basis: seq<LocalVisitor>)
    | Return

  /** Whether `e` can reach the router in state `s`: a navigation event needs its control on screen, a reply always arrives. */
  predicate Enabled(s: AppState, e: Event)
    ensures e.CheckInSucceeded? || e.CheckOutRequested? ==> Enabled(s, e)
    ensures e.Return? ==> (Enabled(s, e) <==> ShowsConfirmation(s))
    ensures e.StartCheckIn? || e.StartCheckOut? ==> (Enabled(s, e) <==> s.screen == Welcome)
    ensures e.Back? ==> (Enabled(s, e) <==> s.screen in {CheckInScreen, CheckOutScreen})
  {
    match e
    case StartCheckIn => s.screen == Welcome
    case StartCheckOut => s.screen == Welcome
    case Back => s.screen == CheckInScreen || s.screen == CheckOutScreen
    case CheckInSucceeded(_, _, _, _) => true
    case CheckOutRequested(_, _, _) => true
    case Return => ShowsConfirmation(s)
  }

  /** One transition of the router; a navigation event no rendered screen can fire changes nothing. */
  function Step(s: AppState, e: Event): (r: AppState)
    ensures !Enabled(s, e) ==> r == s
    ensures e.CheckInSucceeded? ==> r == HandleCheckInSuccess(s, e.basis, e.id, e.visitorName, e.at)
    ensures e.CheckOutRequested? ==> r == HandleCheckOut(s, e.basis, e.visitorId, e.at)
    ensures Enabled(s, e) && e.Back? ==> r == s.(screen := Welcome)
    ensures Enabled(s, e) && e.StartCheckIn? ==> r == s.(screen := CheckInScreen)
    ensures Enabled(s, e) && e.StartCheckOut? ==> r == s.(screen := CheckOutScreen)
    ensures Enabled(s, e) && e.Return? ==> r == ReturnHome(s)
  {
    if !Enabled(s, e) then s
    else match e
      case StartCheckIn => s.(screen := CheckInScreen)
      case StartCheckOut => s.(screen := CheckOutScreen)
      case Back => s.(screen := Welcome)
      case CheckInSucceeded(id, name, at, basis) => HandleCheckInSuccess(s, basis, id, name, at)
      case CheckOutRequested(id, at, basis) => HandleCheckOut(s, basis, id, at)
      case Return => ReturnHome(s)
  }

  /** The state after the router has handled `events` in order. */
  function Run(s: AppState, events: seq<Event>): (r: AppState)
    ensures events == [] ==> r == s
    ensures |events| == 1 ==> r == Step(s, events[0])
    decreases |events|
  {
    if |events| == 0 then s else Run(Step(s, events[0]), events[1..])
  }

  /** Running two event sequences one after the other is running their concatenation. */
  lemma {:induction false} RunAppend(s: AppState, a: seq<Event>, b: seq<Event>)
    ensures Run(s, a + b) == Run(Run(s, a), b)
    decreases |a|
  {
    if |a| > 0 {
      assert (a + b)[0] == a[0];
      assert (a + b)[1..] == a[1..] + b;
      RunAppend(Step(s, a[0]), a[1..], b);
    } else {
      assert a + b == b;
    }
  }

  /** A confirmation payload is present exactly while the confirmation screen is up. */
  predicate Coherent(s: AppState) {
    s.screen == ConfirmationScreen <==> s.confirm.Some?
  }

  lemma StepKeepsCoherent(s: AppState, e: Event)
    requires Coherent(s)
    ensures Coherent(Step(s, e))
  {
  }

  /**
   * In every state reachable from start-up the payload and the screen agree, so the
   * confirmation view is shown whenever the confirmation screen is selected.
   */
  lemma {:induction false} ReachableStatesCoherent(slot: Slot, events: seq<Event>)
    ensures Coherent(Run(Init(slot), events))
    ensures ShowsConfirmation(Run(Init(slot), events)) <==> Run(Init(slot), events).screen == ConfirmationScreen
  {
    RunKeepsCoherent(Init(slot), events);
  }

  lemma {:induction false} RunKeepsCoherent(s: AppState, events: seq<Event>)
    requires Coherent(s)
    ensures Coherent(Run(s, events))
    decreases |events|
  {
    if |events| > 0 {
      StepKeepsCoherent(s, events[0]);
      RunKeepsCoherent(Step(s, events[0]), events[1..]);
    }
  }
}
