/** The entities of the consultation system: patients (users), doctors and appointments,
    with the small updates each entity offers on its own. */
module Records {
  import opened Wrappers
  import Slots

  /** One entry of a patient's medical history. */
  datatype HistoryEntry = HistoryEntry(condition: string, diagnosisDate: string, notes: Option<string>)

  datatype User = User(
    id: nat,
    name: string,
    dob: string,
    gender: string,
    contactNumber: string,
    email: string,
    medicalHistory: seq<HistoryEntry>)

  /** A doctor; `availability` maps a date string to that date's open time slots. */
  datatype Doctor = Doctor(
    id: nat,
    name: string,
    specialization: string,
    contactNumber: string,
    email: string,
    availability: map<string, seq<string>>)

  /** An appointment; patient and doctor are referred to by id, and the booked timestamp is
      kept as the normalised date and time-of-day strings it was matched under. */
  datatype Appointment = Appointment(
    id: nat,
    patientId: nat,
    doctorId: nat,
    date: string,
    time: string,
    issue: string,
    notes: Option<string>,
    prescription: Option<string>)

  function DoctorId(d: Doctor): int {
    d.id
  }

  function AppointmentId(a: Appointment): int {
    a.id
  }

  /** Appends a history entry; earlier entries are kept as they were. */
  function AddMedicalHistory(u: User, condition: string, diagnosisDate: string, notes: Option<string>): (r: User)
    ensures |r.medicalHistory| == |u.medicalHistory| + 1
    ensures r.medicalHistory[..|u.medicalHistory|] == u.medicalHistory
    ensures r.medicalHistory[|u.medicalHistory|] == HistoryEntry(condition, diagnosisDate, notes)
    ensures r.(medicalHistory := u.medicalHistory) == u
  {
    u.(medicalHistory := u.medicalHistory + [HistoryEntry(condition, diagnosisDate, notes)])
  }

  /** The open slots of a doctor on a date; a missing date has none. */
  function SlotsOn(d: Doctor, date: string): seq<string> {
    if date in d.availability then d.availability[date] else []
  }

  /** Every slot list of the doctor is strictly ascending. */
  ghost predicate SlotsSorted(d: Doctor) {
    forall date :: date in d.availability ==> Slots.StrictlySorted(d.availability[date])
  }

  /** `Doctor.add_availability`: the date's list becomes the sorted, duplicate-free union of
      what it held and the new slots (a missing date starts empty, and is created even when no
      slots are given); every other date and every other field is left alone. */
  function AddAvailability(d: Doctor, date: string, slots: seq<string>): (r: Doctor)
    ensures r.availability.Keys == d.availability.Keys + {date}
    ensures Slots.StrictlySorted(r.availability[date])
    ensures forall t :: t in r.availability[date] <==> t in SlotsOn(d, date) || t in slots
    ensures forall other :: other in d.availability && other != date ==>
      r.availability[other] == d.availability[other]
    ensures r.(availability := d.availability) == d
    ensures SlotsSorted(d) ==> SlotsSorted(r)
  {
    d.(availability := d.availability[date := Slots.AddSlots(SlotsOn(d, date), slots)])
  }

  /** Consumes the slot `time` on `date`, which must be open. */
  function TakeSlot(d: Doctor, date: string, time: string): (r: Doctor)
    requires time in SlotsOn(d, date)
    ensures r.availability.Keys == d.availability.Keys
    ensures SlotsOn(r, date) == Slots.RemoveFirst(SlotsOn(d, date), time)
    ensures multiset(SlotsOn(r, date)) == multiset(SlotsOn(d, date)) - multiset{time}
    ensures |SlotsOn(r, date)| == |SlotsOn(d, date)| - 1
    ensures forall t :: t in SlotsOn(r, date) ==> t in SlotsOn(d, date)
    ensures forall t :: t in SlotsOn(d, date) && t != time ==> t in SlotsOn(r, date)
    ensures Slots.StrictlySorted(SlotsOn(d, date)) ==> time !in SlotsOn(r, date)
    ensures forall other :: other != date ==> SlotsOn(r, other) == SlotsOn(d, other)
    ensures r.(availability := d.availability) == d
    ensures SlotsSorted(d) ==> SlotsSorted(r)
  {
    d.(availability := d.availability[date := Slots.RemoveFirst(d.availability[date], time)])
  }

  /** `Appointment.add_notes`: sets the notes and nothing else. */
  function AddNotes(a: Appointment, notes: string): (r: Appointment)
    ensures r.notes == Some(notes)
    ensures r.(notes := a.notes) == a
  {
    a.(notes := Some(notes))
  }

  /** `Appointment.add_prescription`: sets the prescription and nothing else. */
  function AddPrescription(a: Appointment, prescription: string): (r: Appointment)
    ensures r.prescription == Some(prescription)
    ensures r.(prescription := a.prescription) == a
  {
    a.(prescription := Some(prescription))
  }
}
