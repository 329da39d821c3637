/** Every operation of the consultation system keeps the state invariant `Valid`, so every
    state reachable from `Init` satisfies it. */
module Invariants {
  import opened Wrappers
  import opened Dicts
  import opened Records
  import Calendar
  import opened Consultation

  /** A doctor stored in a valid state carries its key as id and sorted slot lists. */
  lemma StoredDoctor(s: System, doctorId: nat)
    requires Valid(s) && doctorId in Keys(s.doctors)
    ensures Get(s.doctors, doctorId).value.id == doctorId
    ensures SlotsSorted(Get(s.doctors, doctorId).value)
  {
    NumberedDistinct(s.doctors, s.nextDoctorId);
    var i :| 0 <= i < |Keys(s.doctors)| && Keys(s.doctors)[i] == doctorId;
    assert s.doctors[i].key == doctorId;
  }

  /** A stored patient carries its key as id. */
  lemma StoredUser(s: System, userId: nat)
    requires Valid(s) && userId in Keys(s.users)
    ensures Get(s.users, userId).value.id == userId
  {
    NumberedDistinct(s.users, s.nextUserId);
    var i :| 0 <= i < |Keys(s.users)| && Keys(s.users)[i] == userId;
    assert s.users[i].key == userId;
  }

  /** A stored appointment carries its key as id and names a registered patient and doctor. */
  lemma StoredAppointment(s: System, appointmentId: nat)
    requires Valid(s) && appointmentId in Keys(s.appointments)
    ensures Get(s.appointments, appointmentId).value.id == appointmentId
    ensures Get(s.appointments, appointmentId).value.patientId in Keys(s.users)
    ensures Get(s.appointments, appointmentId).value.doctorId in Keys(s.doctors)
  {
    NumberedDistinct(s.appointments, s.nextAppointmentId);
    var i :| 0 <= i < |Keys(s.appointments)| && Keys(s.appointments)[i] == appointmentId;
    assert s.appointments[i].key == appointmentId;
  }

  /** Registering more patients or doctors keeps every appointment's references good. */
  lemma LedgerOkWiden(appointments: Dict<nat, Appointment>, next: nat, u: seq<nat>, u': seq<nat>, d: seq<nat>, d': seq<nat>)
    requires LedgerOk(appointments, next, u, d)
    requires forall k :: k in u ==> k in u'
    requires forall k :: k in d ==> k in d'
    ensures LedgerOk(appointments, next, u', d')
  {
  }

  lemma UsersOkAppend(users: Dict<nat, User>, next: nat, u: User)
    requires UsersOk(users, next) && u.id == next
    ensures UsersOk(users + [Entry(next, u)], next + 1)
  {
    AppendNumbered(users, next, u);
    var r := users + [Entry(next, u)];
    forall i | 0 <= i < |r|
      ensures r[i].value.id == r[i].key
    {
      if i < |users| {
        assert r[i] == users[i];
      }
    }
  }

  lemma DoctorsOkAppend(doctors: Dict<nat, Doctor>, next: nat, d: Doctor)
    requires DoctorsOk(doctors, next) && d.id == next && SlotsSorted(d)
    ensures DoctorsOk(doctors + [Entry(next, d)], next + 1)
  {
    AppendNumbered(doctors, next, d);
    var r := doctors + [Entry(next, d)];
    forall i | 0 <= i < |r|
      ensures r[i].value.id == r[i].key && SlotsSorted(r[i].value)
    {
      if i < |doctors| {
        assert r[i] == doctors[i];
      }
    }
  }

  lemma LedgerOkAppend(appointments: Dict<nat, Appointment>, next: nat, a: Appointment, u: seq<nat>, d: seq<nat>)
    requires LedgerOk(appointments, next, u, d)
    requires a.id == next && a.patientId in u && a.doctorId in d
    ensures LedgerOk(appointments + [Entry(next, a)], next + 1, u, d)
  {
    AppendNumbered(appointments, next, a);
    var r := appointments + [Entry(next, a)];
    forall i | 0 <= i < |r|
      ensures r[i].value.id == r[i].key && r[i].value.patientId in u && r[i].value.doctorId in d
    {
      if i < |appointments| {
        assert r[i] == appointments[i];
      }
    }
  }

  /** Appending a patient numbered by the counter and advancing the counter keeps `Valid`. */
  lemma AppendUserKeepsValid(s: System, u: User)
    requires Valid(s) && u.id == s.nextUserId
    ensures Valid(s.(users := s.users + [Entry(s.nextUserId, u)], nextUserId := s.nextUserId + 1))
  {
    UsersOkAppend(s.users, s.nextUserId, u);
    assert forall k :: k in Keys(s.users) ==> k in Keys(s.users + [Entry(s.nextUserId, u)]) by {
      assert Keys(s.users + [Entry(s.nextUserId, u)]) == Keys(s.users) + [s.nextUserId];
    }
    LedgerOkWiden(s.appointments, s.nextAppointmentId, Keys(s.users), Keys(s.users + [Entry(s.nextUserId, u)]),
                  Keys(s.doctors), Keys(s.doctors));
  }

  /** Appending a doctor numbered by the counter and advancing the counter keeps `Valid`. */
  lemma AppendDoctorKeepsValid(s: System, d: Doctor)
    requires Valid(s) && d.id == s.nextDoctorId && SlotsSorted(d)
    ensures Valid(s.(doctors := s.doctors + [Entry(s.nextDoctorId, d)], nextDoctorId := s.nextDoctorId + 1))
  {
    DoctorsOkAppend(s.doctors, s.nextDoctorId, d);
    assert forall k :: k in Keys(s.doctors) ==> k in Keys(s.doctors + [Entry(s.nextDoctorId, d)]) by {
      assert Keys(s.doctors + [Entry(s.nextDoctorId, d)]) == Keys(s.doctors) + [s.nextDoctorId];
    }
    LedgerOkWiden(s.appointments, s.nextAppointmentId, Keys(s.users), Keys(s.users),
                  Keys(s.doctors), Keys(s.doctors + [Entry(s.nextDoctorId, d)]));
  }

  lemma RegisterUserKeepsValid(s: System, name: string, dob: string, gender: string, contactNumber: string, email: string)
    requires Valid(s)
    ensures Valid(RegisterUser(s, name, dob, gender, contactNumber, email).after)
  {
    var u := User(s.nextUserId, name, dob, gender, contactNumber, email, []);
    PutFresh(s.users, s.nextUserId, u);
    assert RegisterUser(s, name, dob, gender, contactNumber, email).after
        == s.(users := s.users + [Entry(s.nextUserId, u)], nextUserId := s.nextUserId + 1);
    AppendUserKeepsValid(s, u);
  }

  lemma RegisterDoctorKeepsValid(s: System, name: string, specialization: string, contactNumber: string, email: string)
    requires Valid(s)
    ensures Valid(RegisterDoctor(s, name, specialization, contactNumber, email).after)
  {
    var d := Doctor(s.nextDoctorId, name, specialization, contactNumber, email, map[]);
    PutFresh(s.doctors, s.nextDoctorId, d);
    assert RegisterDoctor(s, name, specialization, contactNumber, email).after
        == s.(doctors := s.doctors + [Entry(s.nextDoctorId, d)], nextDoctorId := s.nextDoctorId + 1);
    AppendDoctorKeepsValid(s, d);
  }

  /** Replacing a stored doctor by one with the same id and sorted slot lists keeps `Valid`. */
  lemma ReplaceDoctorKeepsValid(s: System, doctorId: nat, d: Doctor)
    requires Valid(s) && doctorId in Keys(s.doctors)
    requires d.id == doctorId && SlotsSorted(d)
    ensures Valid(s.(doctors := Put(s.doctors, doctorId, d)))
  {
    var r := s.(doctors := Put(s.doctors, doctorId, d));
    PutPresent(s.doctors, s.nextDoctorId, doctorId, d);
    forall i | 0 <= i < |r.doctors|
      ensures r.doctors[i].value.id == r.doctors[i].key && SlotsSorted(r.doctors[i].value)
    {
      if s.doctors[i].key == doctorId {
        assert r.doctors[i] == Entry(doctorId, d);
      } else {
        assert r.doctors[i] == s.doctors[i];
      }
    }
    assert DoctorsOk(r.doctors, r.nextDoctorId);
  }

  /** Replacing a stored appointment by one with the same id, patient and doctor keeps `Valid`. */
  lemma ReplaceAppointmentKeepsValid(s: System, appointmentId: nat, a: Appointment)
    requires Valid(s) && appointmentId in Keys(s.appointments)
    requires a.id == appointmentId
    requires a.patientId == Get(s.appointments, appointmentId).value.patientId
    requires a.doctorId == Get(s.appointments, appointmentId).value.doctorId
    ensures Valid(s.(appointments := Put(s.appointments, appointmentId, a)))
  {
    StoredAppointment(s, appointmentId);
    var r := s.(appointments := Put(s.appointments, appointmentId, a));
    PutPresent(s.appointments, s.nextAppointmentId, appointmentId, a);
    forall i | 0 <= i < |r.appointments|
      ensures r.appointments[i].value.id == r.appointments[i].key
      ensures r.appointments[i].value.patientId in Keys(s.users)
      ensures r.appointments[i].value.doctorId in Keys(s.doctors)
    {
      if s.appointments[i].key == appointmentId {
        assert r.appointments[i] == Entry(appointmentId, a);
        assert Get(s.appointments, appointmentId) == Some(s.appointments[i].value);
      }
    }
  }

  lemma AddDoctorAvailabilityKeepsValid(s: System, doctorId: nat, date: string, slots: seq<string>)
    requires Valid(s)
    ensures Valid(AddDoctorAvailability(s, doctorId, date, slots))
  {
    if doctorId in Keys(s.doctors) && Calendar.ValidDate(date) {
      var doctor := Get(s.doctors, doctorId).value;
      StoredDoctor(s, doctorId);
      ReplaceDoctorKeepsValid(s, doctorId, AddAvailability(doctor, date, slots));
    }
  }

  /** Replacing the booked doctor and appending the new appointment keeps `Valid`. */
  lemma RecordBookingKeepsValid(s: System, doctorId: nat, d: Doctor, a: Appointment)
    requires Valid(s) && doctorId in Keys(s.doctors)
    requires d.id == doctorId && SlotsSorted(d)
    requires a.id == s.nextAppointmentId && a.patientId in Keys(s.users) && a.doctorId == doctorId
    ensures Valid(s.(doctors := Put(s.doctors, doctorId, d),
                     appointments := s.appointments + [Entry(a.id, a)],
                     nextAppointmentId := s.nextAppointmentId + 1))
  {
    var mid := s.(doctors := Put(s.doctors, doctorId, d));
    ReplaceDoctorKeepsValid(s, doctorId, d);
    PutPresent(s.doctors, s.nextDoctorId, doctorId, d);
    LedgerOkAppend(s.appointments, s.nextAppointmentId, a, Keys(mid.users), Keys(mid.doctors));
  }

  lemma BookAppointmentKeepsValid(s: System, userId: nat, doctorId: nat, stamp: string, issue: string)
    requires Valid(s)
    ensures Valid(BookAppointment(s, userId, doctorId, stamp, issue).after)
  {
    var step := BookAppointment(s, userId, doctorId, stamp, issue);
    if step.value.Some? {
      var a := step.value.value;
      var doctor := Get(s.doctors, doctorId).value;
      StoredDoctor(s, doctorId);
      var d := TakeSlot(doctor, a.date, a.time);
      PutFresh(s.appointments, s.nextAppointmentId, a);
      RecordBookingKeepsValid(s, doctorId, d, a);
    }
  }

  lemma AddConsultationNotesKeepsValid(s: System, appointmentId: nat, notes: string)
    requires Valid(s)
    ensures Valid(AddConsultationNotes(s, appointmentId, notes))
  {
    if appointmentId in Keys(s.appointments) {
      var a := Get(s.appointments, appointmentId).value;
      StoredAppointment(s, appointmentId);
      ReplaceAppointmentKeepsValid(s, appointmentId, AddNotes(a, notes));
    }
  }

  lemma AddPrescriptionKeepsValid(s: System, appointmentId: nat, prescription: string)
    requires Valid(s)
    ensures Valid(AddPrescriptionToAppointment(s, appointmentId, prescription))
  {
    if appointmentId in Keys(s.appointments) {
      var a := Get(s.appointments, appointmentId).value;
      StoredAppointment(s, appointmentId);
      ReplaceAppointmentKeepsValid(s, appointmentId, AddPrescription(a, prescription));
    }
  }

  /** Replacing a stored patient by one with the same id keeps `Valid`. */
  lemma ReplaceUserKeepsValid(s: System, userId: nat, u: User)
    requires Valid(s) && userId in Keys(s.users)
    requires u.id == userId
    ensures Valid(s.(users := Put(s.users, userId, u)))
  {
    UsersOkReplace(s.users, s.nextUserId, userId, u);
  }

  /** Overwriting a patient with one carrying the same id keeps the table well numbered and
      its key list as it was. */
  lemma UsersOkReplace(users: Dict<nat, User>, next: nat, userId: nat, u: User)
    requires UsersOk(users, next) && userId in Keys(users) && u.id == userId
    ensures UsersOk(Put(users, userId, u), next)
    ensures Keys(Put(users, userId, u)) == Keys(users)
  {
    var r := Put(users, userId, u);
    PutPresent(users, next, userId, u);
    forall i | 0 <= i < |r|
      ensures r[i].value.id == r[i].key
    {
      if users[i].key == userId {
        assert r[i] == Entry(userId, u);
      } else {
        assert r[i] == users[i];
      }
    }
  }

  lemma AddUserMedicalHistoryKeepsValid(s: System, userId: nat, condition: string, diagnosisDate: string,
                                        notes: Option<string>)
    requires Valid(s)
    ensures Valid(AddUserMedicalHistory(s, userId, condition, diagnosisDate, notes))
  {
    if userId in Keys(s.users) {
      var u := Get(s.users, userId).value;
      StoredUser(s, userId);
      ReplaceUserKeepsValid(s, userId, AddMedicalHistory(u, condition, diagnosisDate, notes));
    }
  }

  lemma AddAvailabilityToDoctorKeepsValid(s: System, doctorId: nat, date: string, slots: seq<string>)
    requires Valid(s)
    ensures Valid(AddAvailabilityToDoctor(s, doctorId, date, slots))
  {
    if doctorId in Keys(s.doctors) {
      var doctor := Get(s.doctors, doctorId).value;
      StoredDoctor(s, doctorId);
      ReplaceDoctorKeepsValid(s, doctorId, AddAvailability(doctor, date, slots));
    }
  }
}
