/** Properties relating several operations of the consultation system: the sorted union that
    adding availability performs, the all-or-nothing booking step, and the order of the
    listing queries. */
module Properties {
  import opened Wrappers
  import opened Dicts
  import opened Records
  import Seqs
  import Slots
  import Calendar
  import opened Consultation
  import opened Invariants

  /** `add_doctor_availability` is the doctor's own `add_availability` behind a date check:
      called directly on a doctor object, the update is the same but any date string is stored. */
  lemma CheckedAvailability(s: System, doctorId: nat, date: string, slots: seq<string>)
    ensures AddDoctorAvailability(s, doctorId, date, slots)
      == if Calendar.ValidDate(date) then AddAvailabilityToDoctor(s, doctorId, date, slots) else s
  {
  }

  /** After a successful `add_doctor_availability` the doctor's list for the date is strictly
      ascending and holds exactly its old slots and the added ones; every other date of that
      doctor and every other doctor is untouched. */
  lemma AddDoctorAvailabilityEffects(s: System, doctorId: nat, date: string, slots: seq<string>)
    requires doctorId in Keys(s.doctors) && Calendar.ValidDate(date)
    ensures var r := AddDoctorAvailability(s, doctorId, date, slots);
      && Slots.StrictlySorted(OpenSlots(r, doctorId, date))
      && (forall t :: t in OpenSlots(r, doctorId, date) <==> t in OpenSlots(s, doctorId, date) || t in slots)
      && (forall day :: day != date ==> OpenSlots(r, doctorId, day) == OpenSlots(s, doctorId, day))
      && (forall id :: id != doctorId ==> Get(r.doctors, id) == Get(s.doctors, id))
  {
    var r := AddDoctorAvailability(s, doctorId, date, slots);
    var doctor := Get(s.doctors, doctorId).value;
    assert r.doctors == Put(s.doctors, doctorId, AddAvailability(doctor, date, slots));
  }

  /** The stored list is the one sorted, duplicate-free list of the union, however computed. */
  lemma AddDoctorAvailabilityIsSortedUnion(s: System, doctorId: nat, date: string, slots: seq<string>, expected: seq<string>)
    requires doctorId in Keys(s.doctors) && Calendar.ValidDate(date)
    requires Slots.StrictlySorted(expected)
    requires forall t :: t in expected <==> t in OpenSlots(s, doctorId, date) || t in slots
    ensures OpenSlots(AddDoctorAvailability(s, doctorId, date, slots), doctorId, date) == expected
  {
    AddDoctorAvailabilityEffects(s, doctorId, date, slots);
    Slots.SortedUnique(OpenSlots(AddDoctorAvailability(s, doctorId, date, slots), doctorId, date), expected);
  }

  /** Adding the same slots twice to a doctor's date gives the doctor of adding them once. */
  lemma AddAvailabilityTwice(d: Doctor, date: string, slots: seq<string>)
    ensures AddAvailability(AddAvailability(d, date, slots), date, slots) == AddAvailability(d, date, slots)
  {
    var once := AddAvailability(d, date, slots);
    Slots.AddSlotsIdempotent(SlotsOn(d, date), slots);
    assert SlotsOn(once, date) == Slots.AddSlots(SlotsOn(d, date), slots);
    assert once.availability[date := Slots.AddSlots(SlotsOn(once, date), slots)] == once.availability;
  }

  /** Repeating the same `add_doctor_availability` call changes nothing. */
  lemma AddDoctorAvailabilityIdempotent(s: System, doctorId: nat, date: string, slots: seq<string>)
    ensures var once := AddDoctorAvailability(s, doctorId, date, slots);
      AddDoctorAvailability(once, doctorId, date, slots) == once
  {
    if doctorId in Keys(s.doctors) && Calendar.ValidDate(date) {
      var once := AddDoctorAvailability(s, doctorId, date, slots);
      var updated := AddAvailability(Get(s.doctors, doctorId).value, date, slots);
      AddAvailabilityTwice(Get(s.doctors, doctorId).value, date, slots);
      PutExisting(once.doctors, doctorId, updated);
    }
  }

  /** What a successful booking does to the ledger: the appointment is stored under its id and
      every other appointment is as it was. */
  lemma BookAppointmentStores(s: System, userId: nat, doctorId: nat, stamp: string, issue: string)
    requires userId in Keys(s.users) && doctorId in Keys(s.doctors) && SlotOpen(s, doctorId, stamp)
    ensures var r := BookAppointment(s, userId, doctorId, stamp, issue);
      var a := r.value.value;
      && Get(r.after.appointments, a.id) == Some(a)
      && (forall id :: id != a.id ==> Get(r.after.appointments, id) == Get(s.appointments, id))
  {
    var r := BookAppointment(s, userId, doctorId, stamp, issue);
    assert r.after.appointments == Put(s.appointments, r.value.value.id, r.value.value);
  }

  /** What a successful booking does to the doctors: the booked doctor loses the booked slot
      through `TakeSlot`, and every other doctor is as it was. */
  lemma BookAppointmentTakesSlot(s: System, userId: nat, doctorId: nat, stamp: string, issue: string)
    requires userId in Keys(s.users) && doctorId in Keys(s.doctors) && SlotOpen(s, doctorId, stamp)
    ensures var r := BookAppointment(s, userId, doctorId, stamp, issue);
      var a := r.value.value;
      && Get(r.after.doctors, doctorId) == Some(TakeSlot(Get(s.doctors, doctorId).value, a.date, a.time))
      && (forall id :: id != doctorId ==> Get(r.after.doctors, id) == Get(s.doctors, id))
  {
    BookingUpdatesDoctor(s, userId, doctorId, stamp, issue);
  }

  lemma BookingUpdatesDoctor(s: System, userId: nat, doctorId: nat, stamp: string, issue: string)
    requires userId in Keys(s.users) && doctorId in Keys(s.doctors) && SlotOpen(s, doctorId, stamp)
    ensures var r := BookAppointment(s, userId, doctorId, stamp, issue);
      var a := r.value.value;
      && doctorId in Keys(s.doctors)
      && a.time in SlotsOn(Get(s.doctors, doctorId).value, a.date)
      && r.after.doctors == Put(s.doctors, doctorId, TakeSlot(Get(s.doctors, doctorId).value, a.date, a.time))
  {
  }

  /** In a valid state a successful booking appends the appointment to the ledger, so the
      ledger stays in creation order. */
  lemma BookAppointmentAppends(s: System, userId: nat, doctorId: nat, stamp: string, issue: string)
    requires Valid(s)
    requires userId in Keys(s.users) && doctorId in Keys(s.doctors) && SlotOpen(s, doctorId, stamp)
    ensures var r := BookAppointment(s, userId, doctorId, stamp, issue);
      && r.value.value.id !in Keys(s.appointments)
      && Values(r.after.appointments) == Values(s.appointments) + [r.value.value]
  {
    var r := BookAppointment(s, userId, doctorId, stamp, issue);
    var a := r.value.value;
    assert NumberedBelow(s.appointments, s.nextAppointmentId);
    BookingStoresAppointment(s, userId, doctorId, stamp, issue);
    PutFresh(s.appointments, s.nextAppointmentId, a);
    ValuesAppend(s.appointments, a.id, a);
  }

  lemma BookingStoresAppointment(s: System, userId: nat, doctorId: nat, stamp: string, issue: string)
    requires userId in Keys(s.users) && doctorId in Keys(s.doctors) && SlotOpen(s, doctorId, stamp)
    ensures var r := BookAppointment(s, userId, doctorId, stamp, issue);
      && r.value.value.id == s.nextAppointmentId
      && r.after.appointments == Put(s.appointments, s.nextAppointmentId, r.value.value)
  {
  }

  /** In a valid state a successful booking leaves the doctor's list for the booked date
      strictly ascending, without the booked time and otherwise as it was; the doctor's other
      dates keep their slots. */
  lemma BookAppointmentConsumesSlot(s: System, userId: nat, doctorId: nat, stamp: string, issue: string)
    requires Valid(s)
    requires userId in Keys(s.users) && doctorId in Keys(s.doctors) && SlotOpen(s, doctorId, stamp)
    ensures var r := BookAppointment(s, userId, doctorId, stamp, issue);
      var a := r.value.value;
      && a.time in OpenSlots(s, doctorId, a.date)
      && OpenSlots(r.after, doctorId, a.date) == Slots.RemoveFirst(OpenSlots(s, doctorId, a.date), a.time)
      && Slots.StrictlySorted(OpenSlots(r.after, doctorId, a.date))
      && a.time !in OpenSlots(r.after, doctorId, a.date)
      && |OpenSlots(r.after, doctorId, a.date)| == |OpenSlots(s, doctorId, a.date)| - 1
      && (forall t :: t in OpenSlots(r.after, doctorId, a.date) <==> t in OpenSlots(s, doctorId, a.date) && t != a.time)
      && (forall day :: day != a.date ==> OpenSlots(r.after, doctorId, day) == OpenSlots(s, doctorId, day))
  {
    var r := BookAppointment(s, userId, doctorId, stamp, issue);
    var a := r.value.value;
    BookAppointmentTakesSlot(s, userId, doctorId, stamp, issue);
    StoredDoctor(s, doctorId);
    TakeSlotSorted(Get(s.doctors, doctorId).value, a.date, a.time);
  }

  /** Taking an open slot from a doctor whose lists are sorted removes exactly that slot. */
  lemma TakeSlotSorted(d: Doctor, date: string, time: string)
    requires SlotsSorted(d) && time in SlotsOn(d, date)
    ensures Slots.StrictlySorted(SlotsOn(TakeSlot(d, date, time), date))
    ensures forall t :: t in SlotsOn(TakeSlot(d, date, time), date) <==> t in SlotsOn(d, date) && t != time
  {
    assert Slots.StrictlySorted(SlotsOn(d, date));
  }

  /** A slot just booked cannot be booked again, by anyone, until it is added back. */
  lemma BookedSlotCannotBeRebooked(s: System, userId: nat, doctorId: nat, stamp: string, issue: string,
                                   otherUser: nat, otherIssue: string)
    requires Valid(s)
    requires userId in Keys(s.users) && doctorId in Keys(s.doctors) && SlotOpen(s, doctorId, stamp)
    ensures var after := BookAppointment(s, userId, doctorId, stamp, issue).after;
      BookAppointment(after, otherUser, doctorId, stamp, otherIssue) == Step(after, None)
  {
    BookAppointmentConsumesSlot(s, userId, doctorId, stamp, issue);
  }

  /** A well-formed time added for a well-formed date can then be booked by any registered
      patient with the timestamp "date time". */
  lemma AddedSlotIsBookable(s: System, userId: nat, doctorId: nat, date: string, time: string,
                            slots: seq<string>, issue: string)
    requires userId in Keys(s.users) && doctorId in Keys(s.doctors)
    requires Calendar.ValidDate(date) && Calendar.ValidTime(time) && time in slots
    ensures var r := AddDoctorAvailability(s, doctorId, date, slots);
      BookAppointment(r, userId, doctorId, date + " " + time, issue).value.Some?
  {
    var r := AddDoctorAvailability(s, doctorId, date, slots);
    AddDoctorAvailabilityEffects(s, doctorId, date, slots);
    Calendar.ParseTimestampRoundTrip(date, time);
    assert SlotOpen(r, doctorId, date + " " + time);
  }

  /** Adding availability never checks the ledger, so a consumed slot can be re-opened and
      booked a second time: two appointments then hold the same doctor, date and time. */
  lemma ReopenedSlotCanBeBookedAgain(s: System, userId: nat, doctorId: nat, stamp: string, issue: string,
                                     otherUser: nat, otherIssue: string)
    requires Valid(s)
    requires userId in Keys(s.users) && doctorId in Keys(s.doctors) && SlotOpen(s, doctorId, stamp)
    requires otherUser in Keys(s.users)
    ensures var first := BookAppointment(s, userId, doctorId, stamp, issue);
      var a := first.value.value;
      var reopened := AddDoctorAvailability(first.after, doctorId, a.date, [a.time]);
      var second := BookAppointment(reopened, otherUser, doctorId, stamp, otherIssue);
      && second.value.Some?
      && var b := second.value.value;
      && b.id != a.id && b.doctorId == a.doctorId && b.date == a.date && b.time == a.time
      && Get(second.after.appointments, a.id) == Some(a)
      && Get(second.after.appointments, b.id) == Some(b)
  {
    var first := BookAppointment(s, userId, doctorId, stamp, issue);
    var a := first.value.value;
    BookAppointmentTakesSlot(s, userId, doctorId, stamp, issue);
    AddedSlotIsBookable(first.after, otherUser, doctorId, a.date, a.time, [a.time], otherIssue);
    var reopened := AddDoctorAvailability(first.after, doctorId, a.date, [a.time]);
    BookAppointmentStores(s, userId, doctorId, stamp, issue);
    BookAppointmentStores(reopened, otherUser, doctorId, stamp, otherIssue);
  }

  /** In a valid state the appointment ledger lists appointments by ascending id. */
  lemma LedgerInIdOrder(s: System)
    requires Valid(s)
    ensures Seqs.AscendingBy(Values(s.appointments), AppointmentId)
  {
  }

  /** The doctors table lists doctors by ascending id, which is registration order. */
  lemma DoctorsInIdOrder(s: System)
    requires Valid(s)
    ensures Seqs.AscendingBy(Values(s.doctors), DoctorId)
  {
  }

  /** `view_user_appointments` lists the patient's appointments in creation order; together with
      its membership contract this fixes the result completely (`Seqs.AscendingUnique`). */
  lemma UserAppointmentsInOrder(s: System, userId: nat)
    requires Valid(s)
    ensures Seqs.AscendingBy(ViewUserAppointments(s, userId), AppointmentId)
  {
    LedgerInIdOrder(s);
    if userId in Keys(s.users) {
      Seqs.FilterAscending(Values(s.appointments), (a: Appointment) => a.patientId == userId, AppointmentId);
    }
  }

  /** `view_doctor_appointments` lists the doctor's appointments in creation order. */
  lemma DoctorAppointmentsInOrder(s: System, doctorId: nat)
    requires Valid(s)
    ensures Seqs.AscendingBy(ViewDoctorAppointments(s, doctorId), AppointmentId)
  {
    LedgerInIdOrder(s);
    if doctorId in Keys(s.doctors) {
      Seqs.FilterAscending(Values(s.appointments), (a: Appointment) => a.doctorId == doctorId, AppointmentId);
    }
  }

  /** `view_available_doctors` lists the matching doctors in registration order. */
  lemma AvailableDoctorsInOrder(s: System, specialization: Option<string>, date: Option<string>)
    requires Valid(s)
    ensures Seqs.AscendingBy(ViewAvailableDoctors(s, specialization, date), DoctorId)
  {
    DoctorsInIdOrder(s);
    Seqs.FilterAscending(Values(s.doctors), (d: Doctor) => Offers(d, specialization, date), DoctorId);
  }

  /** Attaching notes and then a prescription to a stored appointment leaves it with both, and
      every other field as booked. */
  lemma NotesThenPrescription(s: System, appointmentId: nat, notes: string, prescription: string)
    requires appointmentId in Keys(s.appointments)
    ensures var a := Get(s.appointments, appointmentId).value;
      var r := AddPrescriptionToAppointment(AddConsultationNotes(s, appointmentId, notes), appointmentId, prescription);
      ViewAppointmentDetails(r, appointmentId) == Some(a.(notes := Some(notes), prescription := Some(prescription)))
  {
  }
}
