/** The five tables the aggregation layer reads, as in-memory sequences of
    records. Only the columns the aggregates read or return are kept. */
module Store {
  import opened Calendar

  datatype Option<T> = None | Some(value: T)

  /** A row of Members. */
  datatype Member = Member(id: int, membershipType: string, startDate: Date)

  /** A row of Trainers. */
  datatype Trainer = Trainer(id: int, name: string, specialty: string)

  /** A row of Classes; trainer_id is a nullable reference to Trainers and time
      is the TIME column, here in seconds since midnight. */
  datatype Class = Class(id: int, name: string, trainerId: Option<int>, time: int)

  /** A row of Payments; the DECIMAL amount is held in cents. */
  datatype Payment = Payment(id: int, memberId: int, amount: int, date: Date)

  /** A row of Attendance. */
  datatype Attendance = Attendance(id: int, memberId: int, classId: int, date: Date)

  datatype Store = Store(
    members: seq<Member>,
    trainers: seq<Trainer>,
    classes: seq<Class>,
    payments: seq<Payment>,
    attendance: seq<Attendance>)

  // Column accessors, passed to the generic aggregates.

  function PaymentAmount(p: Payment): int { p.amount }
  function PaymentMonth(p: Payment): YearMonth { MonthOf(p.date) }
  function MemberType(m: Member): string { m.membershipType }
  function AttendanceClass(a: Attendance): int { a.classId }
}
