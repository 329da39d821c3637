/** The example session of the consultation system (register two patients and two doctors,
    publish availability, book, re-book), worked through the model. */
module Scenario {
  import opened Wrappers
  import opened Dicts
  import opened Records
  import Text
  import Seqs
  import Slots
  import Calendar
  import opened Consultation
  import opened Invariants
  import opened Properties

  const Alice := User(1, "Alice Smith", "1990-05-15", "Female", "9876543210", "alice.smith@example.com", [])
  const Bob := User(2, "Bob Johnson", "1985-11-20", "Male", "8765432109", "bob.johnson@example.com", [])
  const White := Doctor(1, "Dr. Emily White", "Cardiologist", "7418529630", "emily.white@example.com", map[])
  const Green := Doctor(2, "Dr. John Green", "General Physician", "9638527410", "john.green@example.com", map[])

  /** The state after the four registrations. */
  const Registered := System([Entry(1, Alice), Entry(2, Bob)], [Entry(1, White), Entry(2, Green)], [], 3, 3, 1)

  const Day := "2025-04-20"

  lemma DayIsValid()
    ensures Calendar.ValidDate(Day)
  {
    assert Day[..4] == "2025" && Day[5..7] == "04" && Day[8..] == "20";
    assert "2025"[..3] == "202" && "202"[..2] == "20" && "20"[..1] == "2";
    assert Text.Decimal("2025") == 2025;
    Text.DecimalTwoDigits("04");
    Text.DecimalTwoDigits("20");
  }

  /** Registering Alice then Bob gives them ids 1 and 2. */
  lemma RegisterPatientsScenario()
    ensures RegisterUser(Init(), "Alice Smith", "1990-05-15", "Female", "9876543210", "alice.smith@example.com")
      == Step(System([Entry(1, Alice)], [], [], 2, 1, 1), Alice)
    ensures RegisterUser(System([Entry(1, Alice)], [], [], 2, 1, 1), "Bob Johnson", "1985-11-20", "Male", "8765432109", "bob.johnson@example.com")
      == Step(System([Entry(1, Alice), Entry(2, Bob)], [], [], 3, 1, 1), Bob)
  {
    assert Put([Entry(1, Alice)], 2, Bob) == [Entry(1, Alice), Entry(2, Bob)];
  }

  /** Registering two doctors afterwards starts again from id 1: the id spaces are separate. */
  lemma RegisterDoctorsScenario()
    ensures RegisterDoctor(System([Entry(1, Alice), Entry(2, Bob)], [], [], 3, 1, 1), "Dr. Emily White", "Cardiologist", "7418529630", "emily.white@example.com")
      == Step(System([Entry(1, Alice), Entry(2, Bob)], [Entry(1, White)], [], 3, 2, 1), White)
    ensures RegisterDoctor(System([Entry(1, Alice), Entry(2, Bob)], [Entry(1, White)], [], 3, 2, 1), "Dr. John Green", "General Physician", "9638527410", "john.green@example.com")
      == Step(Registered, Green)
  {
    RegisterWhite();
    RegisterGreen();
  }

  lemma RegisterWhite()
    ensures RegisterDoctor(System([Entry(1, Alice), Entry(2, Bob)], [], [], 3, 1, 1), "Dr. Emily White", "Cardiologist", "7418529630", "emily.white@example.com")
      == Step(System([Entry(1, Alice), Entry(2, Bob)], [Entry(1, White)], [], 3, 2, 1), White)
  {
  }

  lemma RegisterGreen()
    ensures RegisterDoctor(System([Entry(1, Alice), Entry(2, Bob)], [Entry(1, White)], [], 3, 2, 1), "Dr. John Green", "General Physician", "9638527410", "john.green@example.com")
      == Step(Registered, Green)
  {
    GreenAppended();
  }

  /** Dr. Green is stored after Dr. White, under the fresh id 2. */
  lemma GreenAppended()
    ensures Put([Entry(1, White)], 2, Green) == [Entry(1, White), Entry(2, Green)]
  {
    PutAfterSingle(Entry(1, White), 2, Green);
  }

  lemma RegisteredIsValid()
    ensures Valid(Registered)
  {
    assert Keys(Registered.users) == [1, 2];
    assert Keys(Registered.doctors) == [1, 2];
  }

  lemma CardiologistCases()
    ensures Text.SameIgnoringCase("Cardiologist", "cardiologist")
    ensures !Text.SameIgnoringCase("General Physician", "cardiologist")
  {
    assert "Cardiologist"[1..] == "cardiologist"[1..];
    Text.SameIgnoringCaseOfHead("Cardiologist", "cardiologist");
    assert |Text.Lower("General Physician")| != |Text.Lower("cardiologist")|;
  }

  lemma RegisteredDoctors()
    ensures Values(Registered.doctors) == [White, Green]
  {
  }

  lemma DiscoveryMembers()
    ensures forall d :: d in ViewAvailableDoctors(Registered, Some("cardiologist"), None) <==> d == White
  {
    RegisteredDoctors();
    CardiologistCases();
  }

  /** Asking for "cardiologist", in lower case, finds Dr. White only: the specialization
      "Cardiologist" matches because the comparison ignores case. */
  lemma DiscoveryScenario()
    ensures ViewAvailableDoctors(Registered, Some("cardiologist"), None) == [White]
  {
    DiscoveryMembers();
    RegisteredIsValid();
    AvailableDoctorsInOrder(Registered, Some("cardiologist"), None);
    Seqs.AscendingUnique(ViewAvailableDoctors(Registered, Some("cardiologist"), None), [White], DoctorId);
  }

  const Morning := ["10:00", "11:00", "14:00"]

  /** The published morning slots are stored as given: they are already sorted. */
  lemma PublishScenario()
    ensures OpenSlots(AddDoctorAvailability(Registered, 1, Day, Morning), 1, Day) == Morning
    ensures Valid(AddDoctorAvailability(Registered, 1, Day, Morning))
  {
    DayIsValid();
    assert Get(Registered.doctors, 1) == Some(White);
    assert Slots.StrictlySorted(Morning);
    AddDoctorAvailabilityIsSortedUnion(Registered, 1, Day, Morning, Morning);
    RegisteredIsValid();
    AddDoctorAvailabilityKeepsValid(Registered, 1, Day, Morning);
  }

  /** A malformed date is rejected and changes nothing. */
  lemma RejectedDateScenario()
    ensures AddDoctorAvailability(Registered, 1, "2025-13-40", Morning) == Registered
  {
    assert !Calendar.ValidDate("2025-13-40");
  }

  const Published := AddDoctorAvailability(Registered, 1, Day, Morning)

  /** Alice and Dr. White are registered and 10:00 is open once the morning is published. */
  lemma TenIsOpen()
    ensures 1 in Keys(Published.users) && 1 in Keys(Published.doctors)
    ensures SlotOpen(Published, 1, "2025-04-20 10:00")
  {
    PublishScenario();
    TenParses();
    assert "10:00" in OpenSlots(Published, 1, Day);
  }

  /** "2025-04-20 10:00" parses to the date key `Day` and the time key "10:00". */
  lemma TenParses()
    ensures Calendar.ParseTimestamp("2025-04-20 10:00") == Some((Day, "10:00"))
  {
    DayIsValid();
    Text.DecimalTwoDigits("10");
    Text.DecimalTwoDigits("00");
    assert "10:00"[..2] == "10" && "10:00"[3..] == "00";
    Calendar.ParseTimestampRoundTrip(Day, "10:00");
    assert Day + " " + "10:00" == "2025-04-20 10:00";
  }

  /** Alice books 10:00 with Dr. White: appointment 1, and 11:00 and 14:00 stay open. */
  lemma BookingScenario()
    ensures var b := BookAppointment(Published, 1, 1, "2025-04-20 10:00", "Chest pain");
      && b.value == Some(Appointment(1, 1, 1, Day, "10:00", "Chest pain", None, None))
      && OpenSlots(b.after, 1, Day) == ["11:00", "14:00"]
  {
    BookingReturns();
    BookingLeavesOpen();
  }

  lemma BookingReturns()
    ensures BookAppointment(Published, 1, 1, "2025-04-20 10:00", "Chest pain").value
      == Some(Appointment(1, 1, 1, Day, "10:00", "Chest pain", None, None))
  {
    TenIsOpen();
    TenParses();
  }

  lemma BookingLeavesOpen()
    ensures OpenSlots(BookAppointment(Published, 1, 1, "2025-04-20 10:00", "Chest pain").after, 1, Day)
      == ["11:00", "14:00"]
  {
    PublishScenario();
    TenIsOpen();
    BookingReturns();
    var b := BookAppointment(Published, 1, 1, "2025-04-20 10:00", "Chest pain");
    BookAppointmentConsumesSlot(Published, 1, 1, "2025-04-20 10:00", "Chest pain");
    assert Slots.IndexOf(Morning, "10:00") == 0;
  }

  /** After the booking, the ledger holds appointment 1 alone. */
  lemma LedgerAfterBooking()
    ensures var b := BookAppointment(Published, 1, 1, "2025-04-20 10:00", "Chest pain");
      Values(b.after.appointments) == [Appointment(1, 1, 1, Day, "10:00", "Chest pain", None, None)]
  {
    PublishScenario();
    TenIsOpen();
    BookingReturns();
    BookAppointmentAppends(Published, 1, 1, "2025-04-20 10:00", "Chest pain");
  }

  /** Booking the same slot again fails and leaves the state, with its single appointment for
      that doctor, unchanged. */
  lemma RebookingScenario()
    ensures var b := BookAppointment(Published, 1, 1, "2025-04-20 10:00", "Chest pain");
      && BookAppointment(b.after, 1, 1, "2025-04-20 10:00", "Follow-up") == Step(b.after, None)
      && ViewDoctorAppointments(b.after, 1) == [Appointment(1, 1, 1, Day, "10:00", "Chest pain", None, None)]
  {
    PublishScenario();
    TenIsOpen();
    BookedSlotCannotBeRebooked(Published, 1, 1, "2025-04-20 10:00", "Chest pain", 1, "Follow-up");
    LedgerAfterBooking();
  }
}
