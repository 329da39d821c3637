# Online consultation scheduling, modelled in Dafny

This project models the in-memory scheduling engine of `hospital.py`, the `OnlineConsultationSystem`. The engine covers the following:

- a directory of patients (users) and doctors, each numbered by its own counter starting at 1;
- per-doctor availability, a map from a "YYYY-MM-DD" date to a list of "HH:MM" slots, which `Doctor.add_availability` keeps sorted and free of duplicates;
- the booking step, which checks the patient, the doctor and the slot, then consumes the slot and records an appointment under the next appointment id;
- the appointment ledger, with listings by patient and by doctor, consultation notes and prescriptions.

The state is one immutable value, `Consultation.System`, and every operation is a pure function of it. The operations that both change the state and return something (`RegisterUser`, `RegisterDoctor`, `BookAppointment`) return a `Step`: the next state and the return value. The updates whose source returns `None` return only the next state, and the queries return only their value. Python dicts are insertion-ordered, so each table is modelled as `Dicts.Dict`, a sequence of key/value entries:

- `Get` is `d.get(k)`;
- `Put` is `d[k] = v`, which overwrites in place or appends;
- `Values` is `d.values()`, in insertion order.

Patients and doctors inside an appointment are referred to by id instead of by object reference.

Modules, by file:

- `wrappers.dfy`: `Option`.
- `seqs.dfy`: order-preserving filtering, which is a list comprehension with an `if`.
- `dicts.dfy`: the insertion-ordered dictionary.
- `slots.dfy`: Python's string order and `sorted(list(set(...)))` on slot lists, plus `list.remove`.
- `text.dfy`: decimal digits and ASCII `str.lower()`.
- `calendar.dfy`: the fixed date, time and timestamp formats.
- `records.dfy`: `User`, `Doctor` and `Appointment`, with their own small updates.
- `consultation.dfy`: the system state and its operations.
- `invariants.dfy`: the state invariant `Valid` holds initially and every operation keeps it.
- `properties.dfy`: properties that relate several operations.
- `scenario.dfy`: part of the example session at the end of `hospital.py`, worked through the model: the four registrations, Dr. White's availability for 2025-04-20, Alice's booking and the re-booking (see "## Left out" for the calls it skips).

Three behaviours of the code shape the model:

- **Errors.** Every failure path prints a message and returns `None`, `[]` or nothing. The model returns `None` (or `[]`) and leaves the state exactly as it was.
- **Re-opened slots.** `add_availability` (hospital.py:32-36) never looks at `appointments`, so a consumed slot can be added back and booked a second time. `Properties.ReopenedSlotCanBeBookedAgain` proves this. For that reason the model states no global "an appointment and an open slot never coexist" invariant.
- **Handed-out objects.** The patients and doctors the system returns are its stored objects, so calling their own methods changes the system. `Consultation.AddUserMedicalHistory` and `Consultation.AddAvailabilityToDoctor` are those two changes, addressed by id. The second skips the date check that `add_doctor_availability` makes.

## Model

| member | source | states |
|---|---|---|
| Dicts.Keys | hospital.py:86 | The keys, one per entry and in insertion order, so `k in d` is membership in this list. |
| Dicts.Values | hospital.py:99 | The values, one per entry and in insertion order, as `d.values()` yields them. |
| Dicts.Get | hospital.py:123 | A lookup gives `None` exactly when the key is absent; otherwise it gives a stored value, and with distinct keys it is the value stored under that key. |
| Dicts.Put | hospital.py:72 | Assigning to a new key appends one entry. Assigning to an existing key replaces that entry in its place. Afterwards the key maps to the new value, every other key keeps its lookup, and the key set gains exactly that key. |
| Dicts.PutExisting | hospital.py:92 | Writing back the value a key already holds leaves the dictionary unchanged. A repeated `add_doctor_availability` changes its doctor in place into an equal doctor, and this is why the table does not change. |
| Dicts.PutFresh | hospital.py:70-73 | In a table numbered below its counter, the counter value is not yet a key, storing under it appends, and the table is numbered below the incremented counter. |
| Dicts.PutPresent | hospital.py:174 | Writing back a changed object under its present key keeps the length and the key order and changes only that entry. This is how the model expresses the in-place updates of a stored object: the appointment here and at line 181, and the doctor's slot list at line 133. |
| Dicts.ValuesAppend | hospital.py:148 | Appending an entry appends its value to `values()`. |
| Seqs.Filter | hospital.py:148 | A comprehension with an `if` keeps exactly the elements that satisfy the condition: each kept value occurs as often as in the input, and every other value not at all. |
| Seqs.FilterAscending | hospital.py:148 | A list strictly ascending by a rank stays strictly ascending by that rank after filtering. The ledger and the doctors table are ascending by id, so every listing is in id order. |
| Seqs.AscendingUnique | hospital.py:99-105 | Two lists that are ascending by the same id and have the same members are equal, so membership plus order determines a listing. |
| Slots.Below | hospital.py:36 | Python's `<` on `str`: lexicographic by code point, a proper prefix first. |
| Slots.BelowIrreflexive | hospital.py:36 | Python's `<` on strings is irreflexive. |
| Slots.BelowTransitive | hospital.py:36 | Python's `<` on strings is transitive. |
| Slots.BelowTotal | hospital.py:36 | Of two different strings, one is below the other. |
| Slots.Insert | hospital.py:36 | Inserting into a strictly sorted list keeps it strictly sorted and adds exactly that element. |
| Slots.SortedSet | hospital.py:36 | `sorted(list(set(xs)))` is strictly ascending and has exactly the elements of `xs`. |
| Slots.SortedUnique | hospital.py:36 | Two strictly sorted lists with the same elements are equal. |
| Slots.AddSlots | hospital.py:33-36 | `extend` followed by re-sorting gives a strictly sorted list of exactly the old slots and the added ones. |
| Slots.AddSlotsIsSortedUnion | hospital.py:33-36 | The stored list equals every strictly sorted list of that union. |
| Slots.AddSlotsIdempotent | hospital.py:33-36 | Adding the same slots again gives the same list. |
| Slots.IndexOf | hospital.py:133 | The position found holds the element, and no earlier position does. |
| Slots.RemoveFirst | hospital.py:133 | `list.remove` on a present element cuts out its first occurrence and keeps the rest in order. Exactly one copy of the element goes; every other element keeps its count. On a strictly sorted list the result stays strictly sorted and no longer holds the element. |
| Text.Lower | hospital.py:100 | Lower-casing keeps the length and lower-cases each character on its own. |
| Calendar.ValidDate | hospital.py:91 | A date is a zero-padded "YYYY-MM-DD" naming a real day from year 1 on, leap years included. |
| Calendar.ValidTime | hospital.py:125-127 | A time key is a zero-padded 24-hour "HH:MM", the form that `strftime('%H:%M')` produces from a parsed timestamp. |
| Calendar.DaysInMonth | hospital.py:91 | A month has 28 to 31 days, and 29 exactly for February of a leap year. |
| Calendar.ParseTimestamp | hospital.py:125-127 | A successful parse gives a valid date key and a valid time key, and joining them with one space gives back the input. |
| Calendar.ParseTimestampRoundTrip | hospital.py:125-127 | A valid date and a valid time, joined by one space, parse back to that same pair. |
| Records.AddMedicalHistory | hospital.py:13-18 | The history grows by one entry holding the given condition, date and notes, the earlier entries are kept, and no other field changes. |
| Records.AddAvailability | hospital.py:32-36 | The date's list becomes strictly sorted, holding exactly its old slots and the new ones. The date becomes a key even when no slots are given. Other dates and fields are untouched, and sorted lists stay sorted. |
| Records.TakeSlot | hospital.py:133 | Removing a slot keeps the dates. That date's list becomes `list.remove` of the old list: it loses exactly one copy of the slot and keeps every other slot, in order. On a sorted list the slot is gone. Other dates and fields are untouched. |
| Records.AddNotes | hospital.py:51-52 | Sets the notes and changes no other field. |
| Records.AddPrescription | hospital.py:54-55 | Sets the prescription and changes no other field. |
| Consultation.Init | hospital.py:61-67 | The new system has empty tables, every counter at 1, and satisfies the invariant. |
| Consultation.RegisterUser | hospital.py:69-75 | Returns the new patient with id equal to the old counter and an empty history. Stores it under that id and leaves every other patient's lookup alone. Increments only the patient counter; doctors, appointments and their counters are unchanged. In a valid state the id was not a key before. |
| Consultation.RegisterDoctor | hospital.py:77-83 | As for patients, in the separate doctor id space; the new doctor has no availability. |
| Consultation.AddDoctorAvailability | hospital.py:85-95 | Leaves the state unchanged when the doctor is unknown or the date is malformed. Otherwise only the doctors table changes, and the doctor becomes `add_availability` of the old doctor. |
| Consultation.Offers | hospital.py:100-105 | A doctor passes the filters when the specialization, if given, matches ignoring case, and the date, if given and non-empty, has a non-empty slot list. |
| Consultation.ViewAvailableDoctors | hospital.py:97-105 | A doctor is listed exactly when registered, when the specialization matches case-insensitively (if one is asked for), and when the doctor has a non-empty slot list on the date (if a non-empty date is given). |
| Consultation.SlotOpen | hospital.py:125-129 | A timestamp names an open slot when it parses and its time is in the doctor's list for its date. |
| Consultation.BookAppointment | hospital.py:115-142 | Returns `None` and leaves the state unchanged for an unknown patient, an unknown doctor, a malformed timestamp or a slot that is not open. Otherwise returns the appointment numbered by the counter, with the parsed date and time, the issue and no notes or prescription. Only the ledger, the doctors table and the appointment counter (by one) change. |
| Consultation.ViewUserAppointments | hospital.py:144-155 | Lists exactly the stored appointments of that patient, and nothing for an unknown patient. |
| Consultation.ViewDoctorAppointments | hospital.py:157-168 | Lists exactly the stored appointments with that doctor, and nothing for an unknown doctor. |
| Consultation.AddConsultationNotes | hospital.py:170-175 | Changes nothing for an unknown appointment. Otherwise only that appointment changes, and only its notes. |
| Consultation.AddPrescriptionToAppointment | hospital.py:177-182 | Changes nothing for an unknown appointment. Otherwise only that appointment changes, and only its prescription. |
| Consultation.ViewAppointmentDetails | hospital.py:184-195 | Returns `None` exactly for an unknown id; otherwise returns a stored appointment, which in a valid state carries that id. |
| Consultation.AddUserMedicalHistory | hospital.py:13-18 | Through a patient the system returned: nothing changes for an unknown id. Otherwise only the patients table changes, and only that patient, who gains one history entry. |
| Consultation.AddAvailabilityToDoctor | hospital.py:32-36 | Through a doctor the system returned: nothing changes for an unknown id. Otherwise only the doctors table changes, and only that doctor, who becomes `add_availability` of the old one, whatever the date string. |
| Invariants.StoredUser | hospital.py:70-72 | In a valid state a stored patient carries its key as id. |
| Invariants.StoredDoctor | hospital.py:79-80 | In a valid state a stored doctor carries its key as id and has sorted slot lists. |
| Invariants.StoredAppointment | hospital.py:130-132 | In a valid state a stored appointment carries its key as id and names a registered patient and doctor. |
| Invariants.RegisterUserKeepsValid | hospital.py:69-75 | Registering a patient keeps the invariant. |
| Invariants.RegisterDoctorKeepsValid | hospital.py:77-83 | Registering a doctor keeps the invariant. |
| Invariants.AddDoctorAvailabilityKeepsValid | hospital.py:85-95 | Adding availability keeps the invariant. |
| Invariants.BookAppointmentKeepsValid | hospital.py:115-142 | Booking, whether it succeeds or fails, keeps the invariant. |
| Invariants.AddConsultationNotesKeepsValid | hospital.py:170-175 | Adding notes keeps the invariant. |
| Invariants.AddPrescriptionKeepsValid | hospital.py:177-182 | Adding a prescription keeps the invariant. |
| Invariants.ReplaceUserKeepsValid | hospital.py:13-18 | Replacing a stored patient by one with the same id keeps the invariant. |
| Invariants.AddUserMedicalHistoryKeepsValid | hospital.py:13-18 | Adding to a patient's history keeps the invariant. |
| Invariants.AddAvailabilityToDoctorKeepsValid | hospital.py:32-36 | Adding availability directly on a doctor keeps the invariant, even for a malformed date. |
| Properties.CheckedAvailability | hospital.py:85-95 | `add_doctor_availability` is the doctor's own `add_availability` when the date is valid, and changes nothing otherwise. |
| Properties.AddDoctorAvailabilityEffects | hospital.py:32-36 | After a successful call the doctor's list for the date is strictly ascending and holds exactly the old slots and the added ones. The doctor's other dates and all other doctors are untouched. |
| Properties.AddDoctorAvailabilityIsSortedUnion | hospital.py:32-36 | The stored list equals every strictly sorted list of the old slots plus the added ones. |
| Properties.AddAvailabilityTwice | hospital.py:32-36 | Adding the same slots to the same date twice gives the same doctor as adding them once. |
| Properties.AddDoctorAvailabilityIdempotent | hospital.py:85-95 | Repeating the same `add_doctor_availability` call leaves the state unchanged. |
| Properties.BookAppointmentStores | hospital.py:130-132 | After a successful booking the new appointment is stored under its id and every other appointment's lookup is unchanged. |
| Properties.BookAppointmentTakesSlot | hospital.py:123-133 | After a successful booking the booked doctor is the old doctor with that slot taken, and every other doctor is unchanged. |
| Properties.BookAppointmentAppends | hospital.py:130-134 | In a valid state the new id was not a key, and the ledger's values gain exactly the new appointment at the end. |
| Properties.BookAppointmentConsumesSlot | hospital.py:129-133 | In a valid state the booked slot was open. Afterwards that date's list is the old one after `list.remove` of the slot: strictly sorted, lacks the slot, is one shorter and keeps every other slot, and the doctor's other dates are unchanged. |
| Properties.TakeSlotSorted | hospital.py:133 | Taking a slot from sorted lists leaves the list sorted and removes exactly that slot. |
| Properties.BookedSlotCannotBeRebooked | hospital.py:116-142 | Right after a successful booking, booking the same doctor and timestamp fails for any patient and leaves the state unchanged. |
| Properties.AddedSlotIsBookable | hospital.py:85-95 | After a valid date and time are added for a doctor, any registered patient can book "date time" with that doctor. |
| Properties.ReopenedSlotCanBeBookedAgain | hospital.py:32-36 | Adding a consumed slot back lets a second appointment be booked with the same doctor, date and time. Both appointments stay stored under different ids. |
| Properties.LedgerInIdOrder | hospital.py:130-134 | In a valid state the ledger lists appointments by ascending id. |
| Properties.DoctorsInIdOrder | hospital.py:78-81 | In a valid state the doctors table lists doctors by ascending id. |
| Properties.UserAppointmentsInOrder | hospital.py:148 | A patient's appointments are listed in creation order. |
| Properties.DoctorAppointmentsInOrder | hospital.py:161 | A doctor's appointments are listed in creation order. |
| Properties.AvailableDoctorsInOrder | hospital.py:99-105 | Available doctors are listed in registration order. |
| Properties.NotesThenPrescription | hospital.py:170-195 | Adding notes and then a prescription to a stored appointment shows both in its details, with every other field as booked. |
| Scenario.DayIsValid | hospital.py:210 | "2025-04-20" is a valid date. |
| Scenario.RegisterPatientsScenario | hospital.py:202-203 | Registering Alice and then Bob gives them ids 1 and 2. |
| Scenario.RegisterDoctorsScenario | hospital.py:206-207 | The two doctors registered afterwards also get ids 1 and 2. |
| Scenario.RegisteredIsValid | hospital.py:202-207 | The state after the four registrations satisfies the invariant. |
| Scenario.DiscoveryScenario | hospital.py:216 | A variant of this call: on the state right after the four registrations, before any availability is added, asking for "cardiologist" in lower case (the source asks for "Cardiologist", later) lists Dr. White only, since the match ignores case. |
| Scenario.PublishScenario | hospital.py:210 | Publishing 10:00, 11:00 and 14:00 stores exactly that list, and the state stays valid. |
| Scenario.RejectedDateScenario | hospital.py:85-95 | The malformed date "2025-13-40" leaves the state unchanged. |
| Scenario.TenIsOpen | hospital.py:210 | Once the morning is published, Alice and Dr. White are registered and "2025-04-20 10:00" names an open slot. |
| Scenario.BookingScenario | hospital.py:221 | Alice's booking at 10:00 gives appointment 1 and leaves 11:00 and 14:00 open. |
| Scenario.LedgerAfterBooking | hospital.py:221 | After Alice's booking the ledger holds appointment 1 alone. |
| Scenario.RebookingScenario | hospital.py:223 | Booking the same slot again fails and leaves the state unchanged; Dr. White's appointments are just appointment 1. |

## Left out

- Console output: every `print`, and the `__str__` methods (hospital.py:20-21, 38-39, 57-58), are presentation only. The model returns only what each method returns.
- `datetime.strptime` and `strftime` leniency (hospital.py:91, 125-127): dates and timestamps are checked against a strict, zero-padded format with real calendar days and years from 1 on. Python's parser is looser in four ways. It accepts non-padded month, day, hour and minute fields. It accepts a space-padded day such as `" 1"`. It turns the space of the format into "one or more whitespace characters", so two spaces or a tab between date and time also parse. Its `\d` matches non-ASCII decimal digits too. Years below 1000 are also formatted differently. `Calendar.ParseTimestamp` returns the already normalised date and time keys that the reformatting produces for padded input.
- Calendar.ValidDate: weaker than `strptime('%Y-%m-%d')` (hospital.py:91). It rejects the looser forms listed above, such as "2025-4-20". For such a date `add_doctor_availability` stores the slots in the source, while the model leaves the state unchanged.
- Calendar.ValidTime: the zero-padded form only. As a stored time key this is what `strftime` produces. The looser times `strptime` accepts on input are covered by the `Calendar.ParseTimestamp` line.
- Calendar.ParseTimestamp: weaker than `strptime` on the accepted inputs. It rejects the looser forms Python accepts (listed above), for the same reason.
- Text.Lower: only ASCII letters are lower-cased. Python's `str.lower()` also folds non-ASCII letters, and some of them change the string's length.
- Object identity: an appointment stores the patient's and doctor's ids instead of references to the objects. A history entry added to a patient therefore shows through the id, as it would through the shared object.
- Records.AddMedicalHistory, Records.AddAvailability, Records.AddNotes, Records.AddPrescription: these are updates of one record. Called on an object the system handed out, they change the system. The first two are lifted to the system as `Consultation.AddUserMedicalHistory` and `Consultation.AddAvailabilityToDoctor`. `add_notes` and `add_prescription` on a returned appointment do what `add_consultation_notes` and `add_prescription_to_appointment` do for its id, so they need no operation of their own. Assigning other attributes of a returned object directly (a doctor's `specialization`, say) is not modelled.
- The stored timestamp: an appointment keeps the parsed date and time strings instead of a `datetime` value.
- Notes, prescriptions and medical-history notes passed as `None` or as non-strings: the model takes strings, with `Option` where the source's default is `None`.
- Concurrency: the source is single-threaded, and each operation here is one indivisible function.
- Parts of the example session (hospital.py:198-236) are not worked through concretely:
  - the availabilities at lines 211-212;
  - the discovery calls at lines 215, 217 and 218;
  - Bob's booking with Dr. Green at line 222, which creates appointment 2;
  - everything after the re-booking (lines 225-236).

  The scenario's state `Published` is the state after line 210 alone. So `Scenario.BookingScenario`, `Scenario.LedgerAfterBooking` and `Scenario.RebookingScenario` run on this reduced state, not on the source's fuller state at lines 221 and 223. For example, at the re-booking the model's ledger holds only appointment 1, while the source's also holds Bob's appointment 2. The skipped calls are covered by the general lemmas, not by concrete ones.
- The return value of `add_doctor_availability`, `add_consultation_notes` and `add_prescription_to_appointment`: it is always `None`, so the model returns only the new state.
