/**
 * The check-out screen's logic: the active-visitor list, the first-match search, the
 * purpose and duration shown for a visitor, and the two-phase "Complete Check-Out" click
 * (remote update first, local close always).
 */
module CheckOutForm {
  import opened Wrappers
  import opened Text
  import Seqs
  import opened VisitorStorage

  /** A visit is active while it has no check-out time. */
  predicate IsActive(v: LocalVisitor) {
    v.checkOutTime.None?
  }

  /** `activeVisitors`: the records without a check-out time, in list order. */
  function ActiveVisitors(vs: seq<LocalVisitor>): (r: seq<LocalVisitor>)
    ensures forall i :: 0 <= i < |r| ==> IsActive(r[i]) && r[i] in vs
    ensures forall i :: 0 <= i < |vs| && IsActive(vs[i]) ==> vs[i] in r
  {
    Seqs.Filter(vs, IsActive)
  }

  /** `activeVisitors` keeps list order: it distributes over concatenation and keeps a record exactly when it is active. */
  lemma ActiveVisitorsOrder(a: seq<LocalVisitor>, b: seq<LocalVisitor>, v: LocalVisitor)
    ensures ActiveVisitors(a + b) == ActiveVisitors(a) + ActiveVisitors(b)
    ensures ActiveVisitors([v]) == if IsActive(v) then [v] else []
  {
    Seqs.FilterAppend(a, b, IsActive);
    Seqs.FilterSingleton(v, IsActive);
  }

  /**
   * The search rule: the lower-cased name contains the lower-cased term, or the visitor has a
   * non-empty phone number that contains the (untrimmed, unlowered) term.
   */
  predicate Matches(v: LocalVisitor, term: string)
    ensures Matches(v, term) <==>
      || Occurs(ToLower(term), ToLower(v.fullName))
      || (v.phoneNumber.Some? && |v.phoneNumber.value| > 0 && Occurs(term, v.phoneNumber.value))
  {
    || Includes(ToLower(v.fullName), ToLower(term))
    || (v.phoneNumber.Some? && v.phoneNumber.value != "" && Includes(v.phoneNumber.value, term))
  }

  /** Position, among the active visitors, of the first one matching `term`. */
  function FirstMatch(active: seq<LocalVisitor>, term: string): (r: Option<nat>)
    ensures r.Some? ==> r.value < |active| && Matches(active[r.value], term)
    ensures r.Some? ==> forall j :: 0 <= j < r.value ==> !Matches(active[j], term)
    ensures r.None? <==> forall j :: 0 <= j < |active| ==> !Matches(active[j], term)
  {
    Seqs.FindFirst(active, (v: LocalVisitor) => Matches(v, term))
  }

  /** The form's state. */
  datatype CheckOutState = CheckOutState(
    searchTerm: string,
    foundVisitor: Option<LocalVisitor>,
    notFound: bool,
    checkingOut: bool
  )

  /** Never both a found visitor and the not-found notice at once. */
  predicate Consistent(st: CheckOutState) {
    !(st.foundVisitor.Some? && st.notFound)
  }

  /** Typing into the search box: the term changes and any previous outcome is cleared. */
  function TypeSearchTerm(st: CheckOutState, term: string): (r: CheckOutState)
    ensures r.searchTerm == term && r.foundVisitor.None? && !r.notFound
    ensures r.checkingOut == st.checkingOut
    ensures Consistent(r)
  {
    st.(searchTerm := term, foundVisitor := None, notFound := false)
  }

  /** Clicking a visitor in the active list selects it directly, with its name as the term. */
  function PickVisitor(st: CheckOutState, v: LocalVisitor): (r: CheckOutState)
    ensures r.searchTerm == v.fullName && r.foundVisitor == Some(v) && !r.notFound
    ensures r.checkingOut == st.checkingOut
    ensures Consistent(r)
  {
    st.(searchTerm := v.fullName, foundVisitor := Some(v), notFound := false)
  }

  /**
   * `handleSearch`: a blank term changes nothing; otherwise exactly one of
   * found-visitor / not-found is set, from the first active record that matches.
   */
  function HandleSearch(st: CheckOutState, visitors: seq<LocalVisitor>): (r: CheckOutState)
    ensures IsBlank(st.searchTerm) ==> r == st
    ensures r.searchTerm == st.searchTerm && r.checkingOut == st.checkingOut
    ensures !IsBlank(st.searchTerm) ==> r.foundVisitor.Some? != r.notFound
    ensures Consistent(st) ==> Consistent(r)
    ensures !IsBlank(st.searchTerm) ==>
      (r.notFound <==> forall i :: 0 <= i < |visitors| && IsActive(visitors[i]) ==> !Matches(visitors[i], st.searchTerm))
    ensures !IsBlank(st.searchTerm) && r.foundVisitor.Some? ==>
      var v := r.foundVisitor.value;
      v in visitors && IsActive(v) && Matches(v, st.searchTerm)
    ensures !IsBlank(st.searchTerm) && r.foundVisitor.Some? ==>
      var first := FirstMatch(ActiveVisitors(visitors), st.searchTerm);
      first.Some? && r.foundVisitor.value == ActiveVisitors(visitors)[first.value]
  {
    if Trim(st.searchTerm) == "" then
      TrimEmptyIffBlank(st.searchTerm);
      st
    else
      TrimEmptyIffBlank(st.searchTerm);
      var active := ActiveVisitors(visitors);
      match FirstMatch(active, st.searchTerm)
      case Some(k) =>
        FirstMatchIsActiveRecord(visitors, st.searchTerm, k);
        st.(foundVisitor := Some(active[k]), notFound := false)
      case None =>
        NoMatchAmongActive(visitors, st.searchTerm);
        st.(foundVisitor := None, notFound := true)
  }

  /** The match `handleSearch` reports is an active record of the list, and no earlier active record matches. */
  lemma FirstMatchIsActiveRecord(visitors: seq<LocalVisitor>, term: string, k: nat)
    requires FirstMatch(ActiveVisitors(visitors), term) == Some(k)
    ensures var active := ActiveVisitors(visitors);
      && k < |active|
      && active[k] in visitors && IsActive(active[k]) && Matches(active[k], term)
      && forall j :: 0 <= j < k ==> !Matches(active[j], term)
  {
  }

  /** When no active record matches at the front of the search, no active record of the list matches at all. */
  lemma NoMatchAmongActive(visitors: seq<LocalVisitor>, term: string)
    requires FirstMatch(ActiveVisitors(visitors), term).None?
    ensures forall i :: 0 <= i < |visitors| && IsActive(visitors[i]) ==> !Matches(visitors[i], term)
  {
    var active := ActiveVisitors(visitors);
    assert forall i :: 0 <= i < |visitors| && IsActive(visitors[i]) ==> visitors[i] in active;
  }

  // ---------------------------------------------------------------------------
  // "Complete Check-Out": remote update first, local close always
  // ---------------------------------------------------------------------------

  /** The remote `update({checked_out_at}).eq('id', ...)` request. */
  datatype RemoteUpdate = RemoteUpdate(id: string, checkedOutAt: Timestamp)

  /** How the awaited remote update ended: success, an error reply, or a thrown exception. */
  datatype UpdateOutcome = UpdateOk | UpdateError(message: string) | UpdateThrew(message: string)

  /** First half of `handleCheckOutClick`, up to the awaited remote call. */
  datatype ClickStart = Ignored | Started(state: CheckOutState, request: RemoteUpdate)

  function BeginCheckOut(st: CheckOutState, now: Timestamp): (r: ClickStart)
    ensures r.Ignored? <==> st.foundVisitor.None? || st.checkingOut
    ensures r.Started? ==> r.state.checkingOut && r.state.(checkingOut := false) == st
    ensures r.Started? ==> r.request == RemoteUpdate(st.foundVisitor.value.id, now)
  {
    if st.foundVisitor.None? || st.checkingOut then Ignored
    else Started(st.(checkingOut := true), RemoteUpdate(st.foundVisitor.value.id, now))
  }

  /** Second half: whatever the remote outcome, clear the flag and close the visit locally. */
  datatype ClickEnd = ClickEnd(state: CheckOutState, checkOutId: string)

  function FinishCheckOut(st: CheckOutState, request: RemoteUpdate, outcome: UpdateOutcome): (r: ClickEnd)
    ensures !r.state.checkingOut && r.state.(checkingOut := st.checkingOut) == st
    ensures r.checkOutId == request.id
  {
    ClickEnd(st.(checkingOut := false), request.id)
  }

  /** The outside calls one click makes, in order. */
  datatype Call = UpdateRemote(request: RemoteUpdate) | NotifyCheckOut(id: string)

  datatype ClickTrace = ClickTrace(state: CheckOutState, calls: seq<Call>)

  /** `handleCheckOutClick` run to completion with the remote call ending in `outcome`. */
  function HandleCheckOutClick(st: CheckOutState, now: Timestamp, outcome: UpdateOutcome): (r: ClickTrace)
    ensures st.foundVisitor.None? || st.checkingOut ==> r == ClickTrace(st, [])
    ensures st.foundVisitor.Some? && !st.checkingOut ==>
      && r.state == st
      && |r.calls| == 2
      && r.calls[0] == UpdateRemote(RemoteUpdate(st.foundVisitor.value.id, now))
      && r.calls[1] == NotifyCheckOut(st.foundVisitor.value.id)
  {
    match BeginCheckOut(st, now)
    case Ignored => ClickTrace(st, [])
    case Started(pending, request) =>
      var end := FinishCheckOut(pending, request, outcome);
      ClickTrace(end.state, [UpdateRemote(request), NotifyCheckOut(end.checkOutId)])
  }

  /** A remote failure (error reply or exception) changes nothing about what the click does. */
  lemma CheckOutIgnoresRemoteOutcome(st: CheckOutState, now: Timestamp, o1: UpdateOutcome, o2: UpdateOutcome)
    ensures HandleCheckOutClick(st, now, o1) == HandleCheckOutClick(st, now, o2)
  {
  }

  /** While the remote update is in flight, a second click is ignored. */
  lemma SecondClickWhileInFlightIgnored(st: CheckOutState, now: Timestamp, later: Timestamp)
    requires BeginCheckOut(st, now).Started?
    ensures BeginCheckOut(BeginCheckOut(st, now).state, later).Ignored?
  {
  }

  // ---------------------------------------------------------------------------
  // Derived display values
  // ---------------------------------------------------------------------------

  const EmDash := "\U{2014}"

  /**
   * `formatPurpose`: `other` shows the free-text reason (or "Other" when there is none);
   * any other non-empty reason is humanised by turning its first '-' into a space and
   * capitalising each word; no reason shows an em dash.
   */
  function FormatPurpose(v: LocalVisitor): (r: string)
    ensures v.reasonForVisit == Some("other") ==>
      (v.otherReason.Some? ==> r == v.otherReason.value) && (v.otherReason.None? ==> r == "Other")
    ensures (v.reasonForVisit.None? || v.reasonForVisit == Some("")) ==> r == EmDash
    ensures v.reasonForVisit.Some? && v.reasonForVisit.value !in {"", "other"} ==>
      var reason := v.reasonForVisit.value;
      && |r| == |reason|
      && ToLower(r) == ToLower(ReplaceFirst(reason, '-', ' '))
      && (forall i :: 0 <= i < |reason| && reason[i] == '-' && '-' !in reason[..i] ==> r[i] == ' ')
      && (forall i :: 0 <= i < |r| && StartsWord(r, i, false) ==> !IsLowerAscii(r[i]))
      && var x := ReplaceFirst(reason, '-', ' ');
         forall i :: 0 <= i < |r| ==> r[i] == if StartsWord(x, i, false) then ToUpperChar(x[i]) else x[i]
  {
    match v.reasonForVisit
    case Some(reason) =>
      if reason == "other" then v.otherReason.GetOr("Other")
      else if reason != "" then
        var r := CapitaliseWords(ReplaceFirst(reason, '-', ' '));
        CapitaliseWordsKeepsLetters(ReplaceFirst(reason, '-', ' '));
        forall i | 0 <= i < |r| && StartsWord(r, i, false)
          ensures !IsLowerAscii(r[i])
        {
          CapitaliseWordsNoLowerWordStart(ReplaceFirst(reason, '-', ' '), i);
        }
        r
      else EmDash
    case None => EmDash
  }

  /** Whole hours and remaining minutes, as `getVisitDuration` computes them. */
  datatype Duration = Duration(hours: int, minutes: int)

  const MsPerHour := 3600000
  const MsPerMinute := 60000

  /** The quotient rounded toward zero, as JavaScript's `%` pairs its remainder with. */
  function TruncQuot(a: int, b: int): int
    requires b > 0
  {
    if a >= 0 then a / b else -((-a) / b)
  }

  /**
   * JavaScript's `%`: what is left of `a` once the quotient rounded toward zero is taken out,
   * so the remainder takes the sign of the dividend.
   */
  function JsRem(a: int, b: int): (r: int)
    requires b > 0
    ensures a == TruncQuot(a, b) * b + r
    ensures -b < r < b
    ensures a >= 0 ==> r >= 0
    ensures a <= 0 ==> r <= 0
  {
    if a >= 0 then a % b else -((-a) % b)
  }

  /**
   * `getVisitDuration`: `Math.floor(ms / 3600000)` hours and
   * `Math.floor((ms % 3600000) / 60000)` minutes of the time elapsed since check-in.
   * For a positive divisor Dafny's `/` is the floor, as `Math.floor` of the quotient is.
   */
  function VisitDuration(checkInTime: Timestamp, now: Timestamp): (d: Duration)
    ensures -60 <= d.minutes < 60
    ensures now >= checkInTime ==> d.hours >= 0 && 0 <= d.minutes
    ensures now >= checkInTime ==> d.hours * 60 + d.minutes == (now - checkInTime) / MsPerMinute
    ensures now < checkInTime ==> d.hours < 0 && d.minutes <= 0
  {
    var ms := now - checkInTime;
    Duration(ms / MsPerHour, JsRem(ms, MsPerHour) / MsPerMinute)
  }

  /** The `${h}h ${m}m` text; reading it back recovers both numbers. */
  function FormatDuration(d: Duration): (r: string)
    ensures ParseDuration(r) == Some(d)
  {
    var h := IntToString(d.hours);
    var m := IntToString(d.minutes);
    IntToStringRoundTrip(d.hours);
    IntToStringRoundTrip(d.minutes);
    ParseJoined(h, m);
    h + "h " + m + "m"
  }

  /** A numeral without an `h`, then `h `, then a numeral, then `m` parses into the two values. */
  lemma ParseJoined(h: string, m: string)
    requires SignedValue(h).Some? && SignedValue(m).Some?
    requires forall j :: 0 <= j < |h| ==> h[j] != 'h'
    ensures ParseDuration(h + "h " + m + "m") == Some(Duration(SignedValue(h).value, SignedValue(m).value))
  {
    var r := h + "h " + m + "m";
    var k := |h|;
    assert forall j :: 0 <= j < k ==> !IsHourMark(r[j]) by {
      forall j | 0 <= j < k ensures !IsHourMark(r[j]) {
        assert r[j] == h[j];
      }
    }
    assert IsHourMark(r[k]);
    assert Seqs.FindFirst(r, IsHourMark) == Some(k);
    assert r[k + 1] == ' ' && r[|r| - 1] == 'm';
    assert r[..k] == h;
    assert r[k + 2..|r| - 1] == m;
  }

  /**
   * The only text that reads back as `d` is the one `FormatDuration` prints: together with
   * `FormatDuration`'s round trip, the printed text is fixed character by character.
   */
  lemma DurationTextIsCanonical(r: string, d: Duration)
    requires ParseDuration(r) == Some(d)
    ensures r == FormatDuration(d)
  {
  }

  /** A text with `h ` at `k` and a final `m` is the two numerals around them. */
  lemma SplitAroundHourMark(r: string, k: nat)
    requires k + 2 < |r| && r[k] == 'h' && r[k + 1] == ' ' && r[|r| - 1] == 'm'
    ensures r == r[..k] + "h " + r[k + 2..|r| - 1] + "m"
  {
    assert r == r[..k] + r[k..k + 2] + r[k + 2..|r| - 1] + r[|r| - 1..];
    assert r[k..k + 2] == "h ";
    assert r[|r| - 1..] == "m";
  }

  predicate IsHourMark(c: char) { c == 'h' }

  /**
   * Reads a duration text back: a numeral, `h `, a numeral, `m`. Only the text printed for a
   * duration is accepted, numerals spelled as `String` spells them.
   */
  function ParseDuration(s: string): (r: Option<Duration>)
    ensures r.Some? ==> s == IntToString(r.value.hours) + "h " + IntToString(r.value.minutes) + "m"
  {
    match Seqs.FindFirst(s, IsHourMark)
    case None => None
    case Some(k) =>
      if k + 2 < |s| && s[k + 1] == ' ' && s[|s| - 1] == 'm' then
        match (SignedValue(s[..k]), SignedValue(s[k + 2..|s| - 1]))
        case (Some(h), Some(m)) =>
          SplitAroundHourMark(s, k);
          Some(Duration(h, m))
        case _ => None
      else None
  }

  /** A visit checked in ninety minutes ago reads "1h 30m". */
  lemma NinetyMinutesReadsOneHourThirty(checkInTime: Timestamp)
    ensures VisitDuration(checkInTime, checkInTime + 90 * MsPerMinute) == Duration(1, 30)
    ensures FormatDuration(VisitDuration(checkInTime, checkInTime + 90 * MsPerMinute)) == "1h 30m"
  {
    var d := VisitDuration(checkInTime, checkInTime + 90 * MsPerMinute);
    assert JsRem(5400000, MsPerHour) == 1800000;
    assert d == Duration(1, 30);
    assert NatToString(3) == "3";
    assert IntToString(1) == "1" && IntToString(30) == "30";
    assert FormatDuration(d) == "1" + "h " + "30" + "m";
  }
}
