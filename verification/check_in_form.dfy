/**
 * The check-in form's logic: single-field edits, the required-field checks of `handleSubmit`,
 * the row sent to the remote `visitors` table, and what happens with the insert's reply.
 * The insert itself is a parameter: the reply the remote table gave.
 */
module CheckInForm {
  import opened Wrappers
  import opened VisitorStorage

  /** The four text inputs of the form. */
  datatype FormData = FormData(fullName: string, reasonForVisit: string, otherReason: string, personToMeet: string)

  datatype Field = FullName | ReasonForVisit | OtherReason | PersonToMeet

  function FieldValue(f: FormData, field: Field): string {
    match field
    case FullName => f.fullName
    case ReasonForVisit => f.reasonForVisit
    case OtherReason => f.otherReason
    case PersonToMeet => f.personToMeet
  }

  /** `handleInputChange(field, value)`: that field takes the value, the others keep theirs. */
  function HandleInputChange(f: FormData, field: Field, value: string): (r: FormData)
    ensures FieldValue(r, field) == value
    ensures forall other :: other != field ==> FieldValue(r, other) == FieldValue(f, other)
  {
    match field
    case FullName => f.(fullName := value)
    case ReasonForVisit => f.(reasonForVisit := value)
    case OtherReason => f.(otherReason := value)
    case PersonToMeet => f.(personToMeet := value)
  }

  /**
   * The guards of `handleSubmit`. They test JavaScript truthiness, i.e. non-emptiness:
   * a name made of spaces passes.
   */
  predicate Valid(f: FormData)
    ensures Valid(f) <==> forall k :: 0 <= k < |RequiredFields(f)| ==> FieldValue(f, RequiredFields(f)[k]) != ""
  {
    var req := RequiredFields(f);
    assert req[0] == FullName && req[1] == ReasonForVisit && req[2] == PersonToMeet;
    assert f.reasonForVisit == "other" <==> |req| == 4;
    assert |req| == 4 ==> req[3] == OtherReason;
    && f.fullName != ""
    && f.reasonForVisit != ""
    && f.personToMeet != ""
    && (f.reasonForVisit == "other" ==> f.otherReason != "")
  }

  /** The inputs that must be filled in: the extra reason only once "other" is chosen. */
  function RequiredFields(f: FormData): seq<Field> {
    [FullName, ReasonForVisit, PersonToMeet] + (if f.reasonForVisit == "other" then [OtherReason] else [])
  }

  /** The row inserted into the remote `visitors` table. */
  datatype InsertRow = InsertRow(
    fullName: string,
    reasonForVisit: string,
    personToMeet: string,
    photoBase64: Option<string>,
    checkedInAt: Timestamp
  )

  /** The insert row: `other` is replaced by the free-text reason, and an empty photo becomes null. */
  function BuildRow(f: FormData, photo: string, now: Timestamp): (row: InsertRow)
    ensures row.fullName == f.fullName && row.personToMeet == f.personToMeet && row.checkedInAt == now
    ensures f.reasonForVisit == "other" ==> row.reasonForVisit == f.otherReason
    ensures f.reasonForVisit != "other" ==> row.reasonForVisit == f.reasonForVisit
    ensures row.photoBase64.None? <==> photo == ""
    ensures row.photoBase64.Some? ==> row.photoBase64.value == photo
    ensures Valid(f) ==> row.fullName != "" && row.reasonForVisit != "" && row.personToMeet != ""
  {
    InsertRow(
      f.fullName,
      if f.reasonForVisit == "other" then f.otherReason else f.reasonForVisit,
      f.personToMeet,
      if photo == "" then None else Some(photo),
      now)
  }

  /** The error object of the reply; its `message` may be missing. */
  datatype DbError = DbError(message: Option<string>)

  /** The reply to `insert(...).select('id').single()`: an error, and/or the id that came back. */
  datatype InsertReply = InsertReply(error: Option<DbError>, returnedId: Option<string>)

  /** `!(error || !data || !data.id)`: no error and a non-empty id. */
  predicate InsertSucceeded(reply: InsertReply)
    ensures reply.error.Some? ==> !InsertSucceeded(reply)
    ensures reply.returnedId == None || reply.returnedId == Some("") ==> !InsertSucceeded(reply)
    ensures reply.error.None? && reply.returnedId.Some? && |reply.returnedId.value| > 0 ==> InsertSucceeded(reply)
  {
    reply.error.None? && reply.returnedId.Some? && reply.returnedId.value != ""
  }

  const DefaultSubmitError := "Could not save to Supabase. Please try again."

  /** `error?.message ?? default`. */
  function ErrorText(reply: InsertReply): (r: string)
    ensures reply.error.Some? && reply.error.value.message.Some? ==> r == reply.error.value.message.value
    ensures reply.error.None? || reply.error.value.message.None? ==> r == DefaultSubmitError
  {
    match reply.error
    case Some(DbError(Some(message))) => message
    case _ => DefaultSubmitError
  }

  /** The component's state around a submission. */
  datatype CheckInState = CheckInState(form: FormData, photo: string, submitting: bool, submitError: string)

  /** What the parent's `onSubmit` receives. */
  datatype Submitted = Submitted(id: string, fullName: string)

  /** First half of `handleSubmit`, up to the awaited insert. */
  datatype SubmitStart = Rejected(state: CheckInState) | Inserting(state: CheckInState, row: InsertRow)

  function BeginSubmit(st: CheckInState, now: Timestamp): (r: SubmitStart)
    ensures r.state.submitError == "" && r.state.form == st.form && r.state.photo == st.photo
    ensures r.Rejected? <==> !Valid(st.form)
    ensures r.Rejected? ==> r.state.submitting == st.submitting
    ensures r.Inserting? ==> r.state.submitting && r.row == BuildRow(st.form, st.photo, now)
  {
    var cleared := st.(submitError := "");
    if !Valid(st.form) then Rejected(cleared)
    else Inserting(cleared.(submitting := true), BuildRow(st.form, st.photo, now))
  }

  /** Second half: the insert has answered. */
  datatype SubmitEnd = SubmitEnd(state: CheckInState, notified: Option<Submitted>)

  /**
   * The name reported to the parent is the one read before the `await`, carried by the row
   * that was inserted, even if the input has been edited while the insert was pending.
   */
  function CompleteSubmit(st: CheckInState, row: InsertRow, reply: InsertReply): (r: SubmitEnd)
    ensures !r.state.submitting && r.state.form == st.form && r.state.photo == st.photo
    ensures r.notified.Some? <==> InsertSucceeded(reply)
    ensures r.notified.Some? ==>
      r.notified.value == Submitted(reply.returnedId.value, row.fullName) && r.state.submitError == st.submitError
    ensures r.notified.None? ==> r.state.submitError == ErrorText(reply)
  {
    var done := st.(submitting := false);
    if !InsertSucceeded(reply) then SubmitEnd(done.(submitError := ErrorText(reply)), None)
    else SubmitEnd(done, Some(Submitted(reply.returnedId.value, row.fullName)))
  }

  /** One submission run to completion: the row inserted (if any) and the `onSubmit` call (if any). */
  datatype SubmitTrace = SubmitTrace(state: CheckInState, inserted: Option<InsertRow>, notified: Option<Submitted>)

  /** `handleSubmit` with the insert answering `reply`. */
  function HandleSubmit(st: CheckInState, now: Timestamp, reply: InsertReply): (r: SubmitTrace)
    ensures r.state.form == st.form && r.state.photo == st.photo
    ensures !Valid(st.form) ==>
      r.inserted.None? && r.notified.None? && r.state == st.(submitError := "")
    ensures Valid(st.form) ==> r.inserted == Some(BuildRow(st.form, st.photo, now)) && !r.state.submitting
    ensures r.notified.Some? <==> Valid(st.form) && InsertSucceeded(reply)
    ensures r.notified.Some? ==>
      r.notified.value.id == reply.returnedId.value && r.notified.value.fullName == st.form.fullName
    ensures Valid(st.form) && InsertSucceeded(reply) ==> r.state.submitError == ""
    ensures Valid(st.form) && !InsertSucceeded(reply) ==> r.state.submitError == ErrorText(reply)
  {
    match BeginSubmit(st, now)
    case Rejected(s) => SubmitTrace(s, None, None)
    case Inserting(s, row) =>
      var end := CompleteSubmit(s, row, reply);
      SubmitTrace(end.state, Some(row), end.notified)
  }

  /**
   * Editing the name while the insert is pending does not change what the parent is told:
   * it receives the name that was inserted.
   */
  lemma EditDuringInsertKeepsSubmittedName(st: CheckInState, now: Timestamp, edit: string, reply: InsertReply)
    requires Valid(st.form)
    ensures var start := BeginSubmit(st, now);
      var edited := start.state.(form := HandleInputChange(start.state.form, FullName, edit));
      var end := CompleteSubmit(edited, start.row, reply);
      end.notified.Some? ==> end.notified.value.fullName == st.form.fullName && end.state.form.fullName == edit
  {
  }

  /** Every row that reaches the remote table carries a name, a host and a non-empty reason. */
  lemma InsertedRowsAreComplete(st: CheckInState, now: Timestamp, reply: InsertReply)
    requires HandleSubmit(st, now, reply).inserted.Some?
    ensures var row := HandleSubmit(st, now, reply).inserted.value;
      row.fullName != "" && row.personToMeet != "" && row.reasonForVisit != ""
  {
  }

  /** Choosing `other` without typing a reason never reaches the insert. */
  lemma OtherWithoutReasonRejected(st: CheckInState, now: Timestamp, reply: InsertReply)
    requires st.form.reasonForVisit == "other" && st.form.otherReason == ""
    ensures HandleSubmit(st, now, reply).inserted.None?
    ensures HandleSubmit(st, now, reply).notified.None?
  {
  }
}
