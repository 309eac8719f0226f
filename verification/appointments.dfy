/** Appointment records and the write endpoints of the appointment service
    (appointment-service/main.py): create with the double-booking check,
    partial update, delete. The database table is a sequence in storage
    order; new ids come from the caller (the table's auto-increment key). */
module Appointments {
  import opened Basics
  import opened TimeOfDay

  const Cancelled := "CANCELLED"
  const Scheduled := "SCHEDULED"
  const DefaultVetId := 1
  const DefaultDuration := 30

  /** A row of the `appointments` table (creation and update stamps left out). */
  datatype Appointment = Appointment(
    id: int,
    petId: int,
    vetId: int,
    date: string,
    time: string,
    endTime: Option<string>,
    appointmentType: string,
    status: string,
    notes: Option<string>,
    petName: Option<string>,
    ownerName: Option<string>)

  /** The body of `POST /api/appointments`; `None` marks an absent field
      whose declared default applies. */
  datatype AppointmentCreate = AppointmentCreate(
    petId: int,
    vetId: Option<int>,
    date: string,
    time: string,
    endTime: Option<string>,
    appointmentType: string,
    notes: Option<string>,
    status: Option<string>,
    petName: Option<string>,
    ownerName: Option<string>)

  /** One field of a `PUT` body: left out, sent as `null`, or sent with a value. */
  datatype Patch<T> = Unset | Null | Given(value: T)

  datatype AppointmentUpdate = AppointmentUpdate(
    petId: Patch<int>,
    vetId: Patch<int>,
    date: Patch<string>,
    time: Patch<string>,
    endTime: Patch<string>,
    appointmentType: Patch<string>,
    status: Patch<string>,
    notes: Patch<string>,
    petName: Patch<string>,
    ownerName: Patch<string>)

  /** HTTP 404, HTTP 409, and the exception an unreadable start time raises
      when the end time has to be computed. */
  datatype Failure = NotFound | Conflict | InvalidTime

  datatype Result<T> = Ok(value: T) | Err(failure: Failure)

  type Table = seq<Appointment>

  /** `a` holds the slot: same vet, date and start time, not cancelled. */
  predicate Occupies(a: Appointment, vetId: int, date: string, time: string) {
    a.vetId == vetId && a.date == date && a.time == time && a.status != Cancelled
  }

  predicate SlotTaken(db: Table, vetId: int, date: string, time: string) {
    exists i | 0 <= i < |db| :: Occupies(db[i], vetId, date, time)
  }

  /** No two live appointments hold the same vet, date and start time. */
  ghost predicate NoDoubleBooking(db: Table) {
    forall i, j :: 0 <= i < j < |db| && db[i].status != Cancelled && db[j].status != Cancelled ==>
      !(db[i].vetId == db[j].vetId && db[i].date == db[j].date && db[i].time == db[j].time)
  }

  ghost predicate UniqueIds(db: Table) {
    forall i, j :: 0 <= i < j < |db| ==> db[i].id != db[j].id
  }

  predicate Falsy(s: Option<string>) {
    s.None? || s.value == ""
  }

  // ---------------------------------------------------------------------
  // Create
  // ---------------------------------------------------------------------

  /** `create_appointment`: 409 when a live appointment already holds the
      vet's slot (only an identical start time counts; overlapping intervals
      do not). Otherwise the row is appended with its end time defaulting
      to start + 30 minutes and its status to `SCHEDULED`. */
  function CreateAppointment(db: Table, req: AppointmentCreate, newId: int): (r: Result<(Table, Appointment)>)
    requires forall i | 0 <= i < |db| :: db[i].id != newId
    ensures var vet := req.vetId.GetOr(DefaultVetId);
            r == Err(Conflict) <==> SlotTaken(db, vet, req.date, req.time)
    ensures r == Err(InvalidTime) <==>
              !SlotTaken(db, req.vetId.GetOr(DefaultVetId), req.date, req.time)
              && Falsy(req.endTime) && ParseTime(req.time).None?
    ensures r.Err? ==> r.failure != NotFound
    ensures r.Ok? ==>
              var (db', a) := r.value;
              && db' == db + [a]
              && a.id == newId && a.petId == req.petId && a.vetId == req.vetId.GetOr(DefaultVetId)
              && a.date == req.date && a.time == req.time
              && a.appointmentType == req.appointmentType
              && a.notes == req.notes && a.petName == req.petName && a.ownerName == req.ownerName
              && (!Falsy(req.endTime) ==> a.endTime == req.endTime)
              && (Falsy(req.endTime) ==>
                    a.endTime == CalculateEndTime(req.time, DefaultDuration) && a.endTime.Some? &&
                    IsCanonical(a.endTime.value) &&
                    ParseTime(a.endTime.value) == Some((ParseTime(req.time).value + DefaultDuration) % MinutesPerDay))
              && (Falsy(req.status) ==> a.status == Scheduled)
              && (!Falsy(req.status) ==> a.status == req.status.value)
  {
    var vet := req.vetId.GetOr(DefaultVetId);
    if SlotTaken(db, vet, req.date, req.time) then Err(Conflict)
    else
      var end :=
        if !Falsy(req.endTime) then req.endTime else CalculateEndTime(req.time, DefaultDuration);
      if end.None? then Err(InvalidTime)
      else
        var status := if Falsy(req.status) then Scheduled else req.status.value;
        var a := Appointment(newId, req.petId, vet, req.date, req.time, end, req.appointmentType,
                             status, req.notes, req.petName, req.ownerName);
        Ok((db + [a], a))
  }

  /** A successful create never double-books: the table stays free of two
      live appointments in one slot, and ids stay unique. */
  lemma CreateKeepsSlotsExclusive(db: Table, req: AppointmentCreate, newId: int)
    requires forall i | 0 <= i < |db| :: db[i].id != newId
    requires NoDoubleBooking(db) && UniqueIds(db)
    ensures CreateAppointment(db, req, newId).Ok? ==>
              NoDoubleBooking(CreateAppointment(db, req, newId).value.0) &&
              UniqueIds(CreateAppointment(db, req, newId).value.0)
  {
    var r := CreateAppointment(db, req, newId);
    if r.Ok? {
      var db' := r.value.0;
      var a := r.value.1;
      assert db' == db + [a];
      forall i, j | 0 <= i < j < |db'| && db'[i].status != Cancelled && db'[j].status != Cancelled
        ensures !(db'[i].vetId == db'[j].vetId && db'[i].date == db'[j].date && db'[i].time == db'[j].time)
      {
        if j == |db| {
          assert db'[i] == db[i];
          assert !Occupies(db[i], a.vetId, a.date, a.time);
        }
      }
    }
  }

  // ---------------------------------------------------------------------
  // Update
  // ---------------------------------------------------------------------

  /** A non-nullable column: overwritten only by a non-null value. */
  function Overwrite<T>(current: T, p: Patch<T>): T {
    if p.Given? then p.value else current
  }

  /** A non-nullable request field stored in a nullable column (`end_time`). */
  function OverwriteOptional<T>(current: Option<T>, p: Patch<T>): Option<T> {
    if p.Given? then Some(p.value) else current
  }

  /** A nullable column: overwritten whenever the field is sent, `null`
      included. */
  function Assign<T>(current: Option<T>, p: Patch<T>): Option<T> {
    match p
    case Unset => current
    case Null => None
    case Given(v) => Some(v)
  }

  /** The field-by-field merge of `update_appointment`. */
  function Merge(a: Appointment, u: AppointmentUpdate): Appointment {
    Appointment(
      a.id,
      Overwrite(a.petId, u.petId),
      Overwrite(a.vetId, u.vetId),
      Overwrite(a.date, u.date),
      Overwrite(a.time, u.time),
      OverwriteOptional(a.endTime, u.endTime),
      Overwrite(a.appointmentType, u.appointmentType),
      Overwrite(a.status, u.status),
      Assign(a.notes, u.notes),
      Assign(a.petName, u.petName),
      Assign(a.ownerName, u.ownerName))
  }

  const EmptyUpdate := AppointmentUpdate(Unset, Unset, Unset, Unset, Unset, Unset, Unset, Unset, Unset, Unset)

  /** Sending the same update twice has the effect of sending it once, and
      an empty update changes nothing. */
  lemma MergeIdempotent(a: Appointment, u: AppointmentUpdate)
    ensures Merge(Merge(a, u), u) == Merge(a, u)
    ensures Merge(a, EmptyUpdate) == a
  {
  }

  /** Null versus absent: a `null` leaves the seven non-nullable fields as
      they were but clears notes, pet name and owner name. */
  lemma NullClearsOnlyNullable(a: Appointment)
    ensures var m := Merge(a, AppointmentUpdate(Null, Null, Null, Null, Null, Null, Null, Null, Null, Null));
            && m.petId == a.petId && m.vetId == a.vetId && m.date == a.date && m.time == a.time
            && m.endTime == a.endTime && m.appointmentType == a.appointmentType && m.status == a.status
            && m.notes.None? && m.petName.None? && m.ownerName.None?
  {
  }

  /** The position of the first row with this id. */
  function FindById(db: Table, id: int): (r: Option<nat>)
    ensures r.None? <==> forall i | 0 <= i < |db| :: db[i].id != id
    ensures r.Some? ==> r.value < |db| && db[r.value].id == id
    ensures r.Some? ==> forall i | 0 <= i < r.value :: db[i].id != id
  {
    if |db| == 0 then None
    else if db[0].id == id then Some(0)
    else match FindById(db[1..], id)
      case None => None
      case Some(k) => Some(k + 1)
  }

  /** `update_appointment`: 404 for an unknown id; otherwise that row is
      merged with the request and every other row is left alone. No
      double-booking check is made. */
  function UpdateAppointment(db: Table, id: int, u: AppointmentUpdate): (r: Result<Table>)
    ensures r.Err? <==> forall i | 0 <= i < |db| :: db[i].id != id
    ensures r.Err? ==> r.failure == NotFound
    ensures r.Ok? ==>
              var db' := r.value;
              && |db'| == |db|
              && exists k | 0 <= k < |db| :: db[k].id == id && db'[k] == Merge(db[k], u) &&
                   forall i | 0 <= i < |db| && i != k :: db'[i] == db[i]
    ensures r.Ok? ==> forall i | 0 <= i < |db| :: r.value[i].id == db[i].id
  {
    match FindById(db, id)
    case None => Err(NotFound)
    case Some(k) => Ok(db[k := Merge(db[k], u)])
  }

  /** `delete_appointment`: 404 for an unknown id; otherwise that row goes
      and the others keep their order. */
  function DeleteAppointment(db: Table, id: int): (r: Result<Table>)
    ensures r.Err? <==> forall i | 0 <= i < |db| :: db[i].id != id
    ensures r.Err? ==> r.failure == NotFound
    ensures r.Ok? ==> exists k | 0 <= k < |db| :: db[k].id == id && r.value == db[..k] + db[k + 1..]
    ensures UniqueIds(db) && r.Ok? ==> forall i | 0 <= i < |r.value| :: r.value[i].id != id
  {
    match FindById(db, id)
    case None => Err(NotFound)
    case Some(k) =>
      var rest := db[..k] + db[k + 1..];
      assert forall i | 0 <= i < |rest| :: rest[i] == (if i < k then db[i] else db[i + 1]);
      Ok(rest)
  }
}
