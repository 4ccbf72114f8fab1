/** Rows of the tables that several components share. */
module Tables {
  import opened Base
  import opened Schedule

  datatype Status = Pending | Confirmed | InProgress | Completed | Cancelled | NoShow

  /** Statuses that keep the specialist busy. */
  predicate Active(s: Status) { s in [Pending, Confirmed, InProgress] }

  // ends is None when ends_at is null.
  datatype Appointment = Appointment(tenant: string, specialist: Option<string>, start: int, ends: Option<int>,
                                     minutes: int, status: Status, source: string)

  /** End of an appointment as the slot engine sees it: ends_at, or else start plus duration. */
  function EndOf(a: Appointment): int {
    if a.ends.Some? then a.ends.value else a.start + a.minutes * MINUTE
  }

  datatype Service = Service(tenant: string, durationMinutes: int, bufferMinutes: int, requiresSpecialist: bool,
                             active: bool)

  // offset is the branch's time zone; hours holds one entry per weekday, from Sunday.
  datatype Branch = Branch(tenant: string, offset: int, hours: seq<DayHours>, active: bool)

  datatype Profile = Profile(tenant: string, name: string, isSpecialist: bool, active: bool)

  datatype ScheduleRow = ScheduleRow(tenant: string, branch: string, specialist: string, weekday: int, shift: Shift,
                                     active: bool)

  // branch is None for an exception that holds at every branch; date is a day number.
  datatype ExceptionRow = ExceptionRow(branch: Option<string>, date: int, entry: Exception)

  // The rows of schedules come in the order of the query: by name, then by id, of the specialist.
  datatype Catalog = Catalog(services: map<string, Service>, branches: map<string, Branch>,
                             profiles: map<string, Profile>, schedules: seq<ScheduleRow>, exceptions: seq<ExceptionRow>)
}
