/**
 * Seat capacity and enrollment approval of the institute-management data model.
 *
 * A course keeps two counters, the seats it offers and the seats already taken.
 * An enrollment ties a student to a course and moves to `Active` when it is
 * approved, which takes one seat of its course. Approval is the only operation
 * that changes anything here.
 *
 * The module has two layers:
 *  - values (`SeatCount`, `EnrollmentState`) and the function `ApproveStep`,
 *    which says what one approval does to them, with lemmas about it;
 *  - the classes `Course` and `Enrollment`, whose fields are updated in place
 *    by `Enrollment.Approve`, proved to behave as `ApproveStep` says.
 */
module Models {

  /** A moment in time; the clock is read by the caller and passed in. */
  type Timestamp = int

  datatype Option<T> = None | Some(value: T)

  /** The five statuses an enrollment can have; a new enrollment is `Pending`. */
  datatype Status = Pending | Active | Completed | Rejected | Cancelled

  /** How an approval ends: normally, or by raising an error with a message. */
  datatype Outcome = Done | Raised(message: string)

  /** The message of the error raised when the course is full. */
  const NoSeatsAvailable: string := "No seats available"

  /** A course's two seat counters. */
  datatype SeatCount = SeatCount(totalSeats: nat, seatsFilled: nat)

  /** Both counters default to zero when a course is created. */
  const DefaultSeats: SeatCount := SeatCount(0, 0)

  /** The part of an enrollment that approval reads and writes. */
  datatype EnrollmentState = EnrollmentState(status: Status, enrolledAt: Option<Timestamp>)

  /** The outcome of one approval and the state of the enrollment and its course after it. */
  datatype Step = Step(outcome: Outcome, enrollment: EnrollmentState, seats: SeatCount)

  /** Seats still free; negative when more seats are filled than offered. */
  function FreeSeats(s: SeatCount): int
  {
    s.totalSeats - s.seatsFilled
  }

  /** The capacity invariant: no more seats filled than offered. */
  predicate WithinCapacity(s: SeatCount)
  {
    s.seatsFilled <= s.totalSeats
  }

  /** An active enrollment carries the time it was activated. */
  predicate Stamped(e: EnrollmentState)
  {
    e.status == Active ==> e.enrolledAt.Some?
  }

  /** True when an approval that started from `e` and ended with `outcome` took a seat. */
  predicate Activates(e: EnrollmentState, outcome: Outcome)
  {
    e.status != Active && outcome.Done?
  }

  /**
   * One approval of enrollment `e` in a course with counters `s`, at time `now`.
   * An enrollment that is already active is left alone. Any other enrollment
   * is refused with "No seats available" when the course is full, before
   * anything changes; otherwise it becomes active, is stamped with `now`, and
   * the course has one more seat filled.
   */
  function ApproveStep(e: EnrollmentState, s: SeatCount, now: Timestamp): (r: Step)
    // the guard tests "not active" only: every other status may be activated
    ensures r.outcome.Raised? <==> e.status != Active && FreeSeats(s) <= 0
    ensures r.outcome.Raised? ==>
              r.outcome.message == NoSeatsAvailable && r.enrollment == e && r.seats == s
    ensures e.status == Active ==> r == Step(Done, e, s)
    ensures r.enrollment.status == Active <==> r.outcome.Done?
    ensures r.enrollment.enrolledAt == if Activates(e, r.outcome) then Some(now) else e.enrolledAt
    // exactly one seat is taken per activation, and the offer is untouched
    ensures r.seats.totalSeats == s.totalSeats
    ensures r.seats.seatsFilled == s.seatsFilled + (if Activates(e, r.outcome) then 1 else 0)
    ensures WithinCapacity(s) ==> WithinCapacity(r.seats)
  {
    if e.status != Active then
      if !(s.seatsFilled < s.totalSeats) then
        Step(Raised(NoSeatsAvailable), e, s)
      else
        Step(Done, EnrollmentState(Active, Some(now)), s.(seatsFilled := s.seatsFilled + 1))
    else
      Step(Done, e, s)
  }

  /** A course created with the default counters refuses every enrollment that is not active. */
  lemma DefaultCourseRefuses(e: EnrollmentState, now: Timestamp)
    requires e.status != Active
    ensures ApproveStep(e, DefaultSeats, now) == Step(Raised(NoSeatsAvailable), e, DefaultSeats)
  {
  }

  /**
   * Approving twice is approving once: after an approval that succeeded, a
   * second one changes nothing and takes no second seat; after one that
   * raised, a second one at any time raises again on the same state.
   */
  lemma ApproveIsIdempotent(e: EnrollmentState, s: SeatCount, first: Timestamp, second: Timestamp)
    ensures var r := ApproveStep(e, s, first);
            ApproveStep(r.enrollment, r.seats, second) == Step(r.outcome, r.enrollment, r.seats)
  {
  }

  /** Completed, rejected and cancelled enrollments are not terminal: each can become active again. */
  lemma NoTerminalStatus(e: EnrollmentState, s: SeatCount, now: Timestamp)
    requires e.status in {Completed, Rejected, Cancelled}
    requires FreeSeats(s) > 0
    ensures ApproveStep(e, s, now).outcome == Done
    ensures ApproveStep(e, s, now).enrollment == EnrollmentState(Active, Some(now))
  {
  }

  /** Approval keeps every active enrollment stamped with its activation time. */
  lemma ApproveKeepsStamp(e: EnrollmentState, s: SeatCount, now: Timestamp)
    requires Stamped(e)
    ensures Stamped(ApproveStep(e, s, now).enrollment)
  {
  }

  /** A course, holding its seat counters. */
  class Course {
    var totalSeats: nat
    var seatsFilled: nat

    /** Both counters default to zero, so `new Course()` has the counters `DefaultSeats`. */
    constructor (totalSeats: nat := 0, seatsFilled: nat := 0)
      ensures this.totalSeats == totalSeats && this.seatsFilled == seatsFilled
    {
      this.totalSeats := totalSeats;
      this.seatsFilled := seatsFilled;
    }

    /** The value of the counters. */
    function Seats(): SeatCount
      reads this
    {
      SeatCount(totalSeats, seatsFilled)
    }

    /** Whether one more enrollment can take a seat; reads the counters and changes nothing. */
    function HasAvailableSeat(): (b: bool)
      reads this
      ensures b <==> FreeSeats(Seats()) > 0
    {
      seatsFilled < totalSeats
    }
  }

  /** A student's enrollment in a course. */
  class Enrollment {
    const course: Course
    const appliedAt: Timestamp
    var status: Status
    var enrolledAt: Option<Timestamp>

    /** A new enrollment is pending and has not been activated. */
    constructor (course: Course, appliedAt: Timestamp)
      ensures this.course == course && this.appliedAt == appliedAt
      ensures status == Pending && enrolledAt == None
      ensures Stamped(State())
    {
      this.course := course;
      this.appliedAt := appliedAt;
      status := Pending;
      enrolledAt := None;
    }

    /** The value of the fields that approval reads and writes. */
    function State(): EnrollmentState
      reads this
    {
      EnrollmentState(status, enrolledAt)
    }

    /**
     * Approves this enrollment at time `now`, in place: it changes this
     * enrollment and its course exactly as `ApproveStep` says and nothing else.
     */
    method Approve(now: Timestamp) returns (r: Outcome)
      modifies this, course
      ensures var step := ApproveStep(old(State()), old(course.Seats()), now);
              r == step.outcome && State() == step.enrollment && course.Seats() == step.seats
      ensures old(status) == Active ==> r == Done && unchanged(this, course)
      ensures r.Raised? ==> r.message == NoSeatsAvailable && unchanged(this, course)
      ensures r.Done? && old(status) != Active ==>
                status == Active && enrolledAt == Some(now) &&
                course.seatsFilled == old(course.seatsFilled) + 1 &&
                course.totalSeats == old(course.totalSeats)
    {
      if status != Active {
        if !course.HasAvailableSeat() {
          return Raised(NoSeatsAvailable);
        }
        status := Active;
        enrolledAt := Some(now);
        course.seatsFilled := course.seatsFilled + 1;
      }
      r := Done;
    }
  }

  /**
   * An example, not a model of a source function. Two students apply to a
   * course with a single seat: the first approval takes the seat, the second
   * is refused and leaves the counters as they were, and approving the first
   * again takes no second seat. A course created with the default counters
   * refuses its first applicant.
   */
  method OneSeatTwoApplicants(t0: Timestamp, t1: Timestamp, t2: Timestamp, t3: Timestamp)
  {
    var course := new Course(1, 0);
    var first := new Enrollment(course, t0);
    var second := new Enrollment(course, t0);
    var r := first.Approve(t1);
    assert r == Done && first.status == Active && course.seatsFilled == 1;
    r := second.Approve(t2);
    assert r == Raised(NoSeatsAvailable) && second.status == Pending && course.seatsFilled == 1;
    r := first.Approve(t3);
    assert r == Done && first.enrolledAt == Some(t1) && course.seatsFilled == 1;
    var empty := new Course();
    var third := new Enrollment(empty, t0);
    r := third.Approve(t1);
    assert r == Raised(NoSeatsAvailable) && third.status == Pending && empty.Seats() == DefaultSeats;
  }
}
