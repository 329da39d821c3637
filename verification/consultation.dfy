/** The consultation system: the directory of patients and doctors, the doctors'
    availability, the booking step and the appointment ledger, as one immutable state
    with a pure function per operation. */
module Consultation {
  import opened Wrappers
  import opened Dicts
  import Seqs
  import Text
  import Calendar
  import opened Records

  /** The whole system. Each table is keyed by the id its counter handed out. */
  datatype System = System(
    users: Dict<nat, User>,
    doctors: Dict<nat, Doctor>,
    appointments: Dict<nat, Appointment>,
    nextUserId: nat,
    nextDoctorId: nat,
    nextAppointmentId: nat)

  /** What an operation leaves behind and what it returns. */
  datatype Step<R> = Step(after: System, value: R)

  /** The invariant every reachable state keeps: each table is numbered by its own counter in
      insertion order, every entity records its own key as its id, every slot list is sorted
      without repeats, and every appointment names a registered patient and doctor. */
  ghost predicate Valid(s: System) {
    && UsersOk(s.users, s.nextUserId)
    && DoctorsOk(s.doctors, s.nextDoctorId)
    && LedgerOk(s.appointments, s.nextAppointmentId, Keys(s.users), Keys(s.doctors))
  }

  ghost predicate UsersOk(users: Dict<nat, User>, next: nat) {
    && NumberedBelow(users, next)
    && forall i :: 0 <= i < |users| ==> users[i].value.id == users[i].key
  }

  ghost predicate DoctorsOk(doctors: Dict<nat, Doctor>, next: nat) {
    && NumberedBelow(doctors, next)
    && forall i :: 0 <= i < |doctors| ==> doctors[i].value.id == doctors[i].key && SlotsSorted(doctors[i].value)
  }

  ghost predicate LedgerOk(appointments: Dict<nat, Appointment>, next: nat, userIds: seq<nat>, doctorIds: seq<nat>) {
    && NumberedBelow(appointments, next)
    && forall i :: 0 <= i < |appointments| ==>
         && appointments[i].value.id == appointments[i].key
         && appointments[i].value.patientId in userIds
         && appointments[i].value.doctorId in doctorIds
  }

  /** A freshly constructed system: empty tables, every counter at 1. */
  function Init(): (s: System)
    ensures Valid(s)
    ensures Keys(s.users) == [] && Keys(s.doctors) == [] && Keys(s.appointments) == []
    ensures s.nextUserId == 1 && s.nextDoctorId == 1 && s.nextAppointmentId == 1
  {
    System([], [], [], 1, 1, 1)
  }

  /** The open slots of a doctor on a date; an unknown doctor or date has none. */
  function OpenSlots(s: System, doctorId: nat, date: string): seq<string> {
    match Get(s.doctors, doctorId)
    case None => []
    case Some(d) => SlotsOn(d, date)
  }

  /** `register_user`: the new patient is stored under the current counter value, which no
      patient held before, and the counter moves on; nothing else changes. */
  function RegisterUser(s: System, name: string, dob: string, gender: string, contactNumber: string, email: string): (r: Step<User>)
    ensures r.value == User(s.nextUserId, name, dob, gender, contactNumber, email, [])
    ensures Get(r.after.users, s.nextUserId) == Some(r.value)
    ensures forall id :: id != s.nextUserId ==> Get(r.after.users, id) == Get(s.users, id)
    ensures r.after == s.(users := r.after.users, nextUserId := s.nextUserId + 1)
    ensures Valid(s) ==> s.nextUserId !in Keys(s.users)
  {
    var u := User(s.nextUserId, name, dob, gender, contactNumber, email, []);
    Step(s.(users := Put(s.users, s.nextUserId, u), nextUserId := s.nextUserId + 1), u)
  }

  /** `register_doctor`: as `RegisterUser`, in the doctors' own id space; the new doctor has
      no availability yet. */
  function RegisterDoctor(s: System, name: string, specialization: string, contactNumber: string, email: string): (r: Step<Doctor>)
    ensures r.value == Doctor(s.nextDoctorId, name, specialization, contactNumber, email, map[])
    ensures Get(r.after.doctors, s.nextDoctorId) == Some(r.value)
    ensures forall id :: id != s.nextDoctorId ==> Get(r.after.doctors, id) == Get(s.doctors, id)
    ensures r.after == s.(doctors := r.after.doctors, nextDoctorId := s.nextDoctorId + 1)
    ensures Valid(s) ==> s.nextDoctorId !in Keys(s.doctors)
  {
    var d := Doctor(s.nextDoctorId, name, specialization, contactNumber, email, map[]);
    Step(s.(doctors := Put(s.doctors, s.nextDoctorId, d), nextDoctorId := s.nextDoctorId + 1), d)
  }

  /** `add_doctor_availability`: an unknown doctor or a malformed date leaves the state as it
      was; otherwise that doctor's list for the date becomes the sorted, duplicate-free union of
      its old slots and the new ones, and no other doctor, date or table changes. */
  function AddDoctorAvailability(s: System, doctorId: nat, date: string, slots: seq<string>): (r: System)
    ensures doctorId !in Keys(s.doctors) || !Calendar.ValidDate(date) ==> r == s
    ensures doctorId in Keys(s.doctors) && Calendar.ValidDate(date) ==>
      && r == s.(doctors := r.doctors)
      && Get(r.doctors, doctorId) == Some(AddAvailability(Get(s.doctors, doctorId).value, date, slots))
  {
    match Get(s.doctors, doctorId)
    case None => s
    case Some(doctor) =>
      if Calendar.ValidDate(date) then
        s.(doctors := Put(s.doctors, doctorId, AddAvailability(doctor, date, slots)))
      else s
  }

  /** The two filters of `view_available_doctors`. An absent or empty date string imposes no
      date filter, as Python's `if date:` does. */
  predicate Offers(d: Doctor, specialization: Option<string>, date: Option<string>) {
    && (specialization.None? || Text.SameIgnoringCase(d.specialization, specialization.value))
    && (date.None? || date.value == "" || SlotsOn(d, date.value) != [])
  }

  /** `view_available_doctors`: exactly the registered doctors whose specialization matches
      case-insensitively (when one is asked for) and who have an open slot on the date (when a
      date is given), in registration order (see `AvailableDoctorsInOrder`). */
  function ViewAvailableDoctors(s: System, specialization: Option<string>, date: Option<string>): (r: seq<Doctor>)
    ensures forall d :: d in r <==>
      && d in Values(s.doctors)
      && (specialization.None? || Text.Lower(d.specialization) == Text.Lower(specialization.value))
      && (date.None? || date.value == "" || (date.value in d.availability && |d.availability[date.value]| > 0))
  {
    Seqs.Filter(Values(s.doctors), (d: Doctor) => Offers(d, specialization, date))
  }

  /** The time slot named by a timestamp string is open for the doctor. */
  predicate SlotOpen(s: System, doctorId: nat, stamp: string) {
    match Calendar.ParseTimestamp(stamp)
    case None => false
    case Some((date, time)) => time in OpenSlots(s, doctorId, date)
  }

  /** `book_appointment`: fails, returning `None` and leaving the state as it was, when the
      patient or the doctor is unknown, the timestamp is malformed, or the slot is not open.
      Otherwise it returns a new appointment numbered by the appointment counter, stores it,
      consumes exactly that slot of that doctor, and moves the counter on; nothing else
      changes. */
  function BookAppointment(s: System, userId: nat, doctorId: nat, stamp: string, issue: string): (r: Step<Option<Appointment>>)
    ensures userId !in Keys(s.users) ==> r == Step(s, None)
    ensures doctorId !in Keys(s.doctors) ==> r == Step(s, None)
    ensures Calendar.ParseTimestamp(stamp).None? ==> r == Step(s, None)
    ensures !SlotOpen(s, doctorId, stamp) ==> r == Step(s, None)
    ensures userId in Keys(s.users) && doctorId in Keys(s.doctors) && SlotOpen(s, doctorId, stamp) ==>
      && r.value.Some?
      && var a := r.value.value;
      && Calendar.ParseTimestamp(stamp) == Some((a.date, a.time))
      && a == Appointment(s.nextAppointmentId, userId, doctorId, a.date, a.time, issue, None, None)
      && r.after == s.(appointments := r.after.appointments, doctors := r.after.doctors,
                       nextAppointmentId := s.nextAppointmentId + 1)
  {
    if userId !in Keys(s.users) then Step(s, None)
    else
      match Get(s.doctors, doctorId)
      case None => Step(s, None)
      case Some(doctor) =>
        match Calendar.ParseTimestamp(stamp)
        case None => Step(s, None)
        case Some((date, time)) =>
          if date in doctor.availability && time in doctor.availability[date] then
            var a := Appointment(s.nextAppointmentId, userId, doctorId, date, time, issue, None, None);
            var s' := s.(appointments := Put(s.appointments, a.id, a),
                         doctors := Put(s.doctors, doctorId, TakeSlot(doctor, date, time)),
                         nextAppointmentId := s.nextAppointmentId + 1);
            Step(s', Some(a))
          else Step(s, None)
  }

  /** `view_user_appointments`: exactly the appointments of that patient, none for an unknown
      patient, in creation order (see `UserAppointmentsInOrder`). */
  function ViewUserAppointments(s: System, userId: nat): (r: seq<Appointment>)
    ensures forall a :: a in r <==>
      userId in Keys(s.users) && a in Values(s.appointments) && a.patientId == userId
  {
    if userId !in Keys(s.users) then []
    else Seqs.Filter(Values(s.appointments), (a: Appointment) => a.patientId == userId)
  }

  /** `view_doctor_appointments`: exactly the appointments with that doctor, none for an unknown
      doctor, in creation order (see `DoctorAppointmentsInOrder`). */
  function ViewDoctorAppointments(s: System, doctorId: nat): (r: seq<Appointment>)
    ensures forall a :: a in r <==>
      doctorId in Keys(s.doctors) && a in Values(s.appointments) && a.doctorId == doctorId
  {
    if doctorId !in Keys(s.doctors) then []
    else Seqs.Filter(Values(s.appointments), (a: Appointment) => a.doctorId == doctorId)
  }

  /** `add_consultation_notes`: nothing happens for an unknown appointment; otherwise only that
      appointment's notes change. */
  function AddConsultationNotes(s: System, appointmentId: nat, notes: string): (r: System)
    ensures appointmentId !in Keys(s.appointments) ==> r == s
    ensures appointmentId in Keys(s.appointments) ==>
      && r == s.(appointments := r.appointments)
      && Get(r.appointments, appointmentId) == Some(AddNotes(Get(s.appointments, appointmentId).value, notes))
      && (forall id :: id != appointmentId ==> Get(r.appointments, id) == Get(s.appointments, id))
  {
    match Get(s.appointments, appointmentId)
    case None => s
    case Some(a) => s.(appointments := Put(s.appointments, appointmentId, AddNotes(a, notes)))
  }

  /** `add_prescription_to_appointment`: nothing happens for an unknown appointment; otherwise
      only that appointment's prescription changes. */
  function AddPrescriptionToAppointment(s: System, appointmentId: nat, prescription: string): (r: System)
    ensures appointmentId !in Keys(s.appointments) ==> r == s
    ensures appointmentId in Keys(s.appointments) ==>
      && r == s.(appointments := r.appointments)
      && Get(r.appointments, appointmentId) == Some(AddPrescription(Get(s.appointments, appointmentId).value, prescription))
      && (forall id :: id != appointmentId ==> Get(r.appointments, id) == Get(s.appointments, id))
  {
    match Get(s.appointments, appointmentId)
    case None => s
    case Some(a) => s.(appointments := Put(s.appointments, appointmentId, AddPrescription(a, prescription)))
  }

  /** `view_appointment_details`: the appointment stored under the id, or `None`. */
  function ViewAppointmentDetails(s: System, appointmentId: nat): (r: Option<Appointment>)
    ensures r.None? <==> appointmentId !in Keys(s.appointments)
    ensures r.Some? ==> r.value in Values(s.appointments)
    ensures Valid(s) && r.Some? ==> r.value.id == appointmentId
  {
    Get(s.appointments, appointmentId)
  }

  // The system hands out its own patient and doctor objects, so the record methods called on
  // them change the stored state. The id names the object the caller holds.

  /** `add_medical_history` on a patient the system returned: that patient's history grows by
      one entry and nothing else changes; an id the system does not hold changes nothing. */
  function AddUserMedicalHistory(s: System, userId: nat, condition: string, diagnosisDate: string,
                                 notes: Option<string>): (r: System)
    ensures userId !in Keys(s.users) ==> r == s
    ensures userId in Keys(s.users) ==>
      && r == s.(users := r.users)
      && Get(r.users, userId) == Some(AddMedicalHistory(Get(s.users, userId).value, condition, diagnosisDate, notes))
      && (forall id :: id != userId ==> Get(r.users, id) == Get(s.users, id))
  {
    match Get(s.users, userId)
    case None => s
    case Some(u) => s.(users := Put(s.users, userId, AddMedicalHistory(u, condition, diagnosisDate, notes)))
  }

  /** `add_availability` on a doctor the system returned: the same update as
      `add_doctor_availability`, but the date is not checked. */
  function AddAvailabilityToDoctor(s: System, doctorId: nat, date: string, slots: seq<string>): (r: System)
    ensures doctorId !in Keys(s.doctors) ==> r == s
    ensures doctorId in Keys(s.doctors) ==>
      && r == s.(doctors := r.doctors)
      && Get(r.doctors, doctorId) == Some(AddAvailability(Get(s.doctors, doctorId).value, date, slots))
      && (forall id :: id != doctorId ==> Get(r.doctors, id) == Get(s.doctors, id))
  {
    match Get(s.doctors, doctorId)
    case None => s
    case Some(doctor) => s.(doctors := Put(s.doctors, doctorId, AddAvailability(doctor, date, slots)))
  }
}
