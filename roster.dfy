/**
 * Sequences of approvals against one course.
 *
 * A roster is a course's seat counters together with the enrollments that
 * refer to it. A run applies approval calls one after another, each to one
 * enrollment at the time the call gives. The lemmas account for the seats:
 * each activation takes exactly one, the capacity invariant survives any run,
 * and filled seats and active enrollments move together.
 */
module Roster {
  import opened Models

  /** A course's counters and the enrollments in that course. */
  datatype Roster = Roster(seats: SeatCount, enrollments: seq<EnrollmentState>)

  /** One call of approve: which enrollment, and the time it happens. */
  datatype Call = Call(enrollment: nat, now: Timestamp)

  /** What one call returned, and the roster after it. */
  datatype Attempt = Attempt(outcome: Outcome, roster: Roster)

  /** Every call names one of the `n` enrollments. */
  predicate Targets(calls: seq<Call>, n: nat)
  {
    forall i :: 0 <= i < |calls| ==> calls[i].enrollment < n
  }

  /** No enrollment is named by two calls. */
  predicate Distinct(calls: seq<Call>)
  {
    forall i, j :: 0 <= i < j < |calls| ==> calls[i].enrollment != calls[j].enrollment
  }

  /** No call names enrollment `k`. */
  predicate Untouched(calls: seq<Call>, k: nat)
  {
    forall i :: 0 <= i < |calls| ==> calls[i].enrollment != k
  }

  function Min(a: int, b: int): int
  {
    if a <= b then a else b
  }

  function Max(a: int, b: int): int
  {
    if a <= b then b else a
  }

  /** The number of active enrollments. */
  function ActiveCount(es: seq<EnrollmentState>): (n: nat)
    ensures n <= |es|
  {
    if es == [] then 0 else (if es[0].status == Active then 1 else 0) + ActiveCount(es[1..])
  }

  /** Approve one enrollment of the roster; the others are left as they were. */
  function ApproveAt(w: Roster, c: Call): (r: Attempt)
    requires c.enrollment < |w.enrollments|
    ensures |r.roster.enrollments| == |w.enrollments|
    ensures forall k :: 0 <= k < |w.enrollments| && k != c.enrollment ==>
              r.roster.enrollments[k] == w.enrollments[k]
    ensures r.roster.seats.totalSeats == w.seats.totalSeats
  {
    var step := ApproveStep(w.enrollments[c.enrollment], w.seats, c.now);
    Attempt(step.outcome, Roster(step.seats, w.enrollments[c.enrollment := step.enrollment]))
  }

  /** The roster after the calls, made in order. */
  function Run(w: Roster, calls: seq<Call>): (r: Roster)
    requires Targets(calls, |w.enrollments|)
    ensures |r.enrollments| == |w.enrollments|
    ensures r.seats.totalSeats == w.seats.totalSeats
    ensures forall k :: 0 <= k < |w.enrollments| && Untouched(calls, k) ==>
              r.enrollments[k] == w.enrollments[k]
    decreases |calls|
  {
    if calls == [] then w
    else
      assert forall k :: Untouched(calls, k) ==> Untouched(calls[1..], k);
      Run(ApproveAt(w, calls[0]).roster, calls[1..])
  }

  /** What each of the calls returned, in order. */
  function Outcomes(w: Roster, calls: seq<Call>): (r: seq<Outcome>)
    requires Targets(calls, |w.enrollments|)
    ensures |r| == |calls|
    decreases |calls|
  {
    if calls == [] then []
    else
      var a := ApproveAt(w, calls[0]);
      [a.outcome] + Outcomes(a.roster, calls[1..])
  }

  /** The number of calls that moved an enrollment from a non-active status to active. */
  function Activations(w: Roster, calls: seq<Call>): nat
    requires Targets(calls, |w.enrollments|)
    decreases |calls|
  {
    if calls == [] then 0
    else
      var a := ApproveAt(w, calls[0]);
      (if Activates(w.enrollments[calls[0].enrollment], a.outcome) then 1 else 0)
      + Activations(a.roster, calls[1..])
  }

  /** The number of calls that raised "No seats available". */
  function Failures(w: Roster, calls: seq<Call>): nat
    requires Targets(calls, |w.enrollments|)
    decreases |calls|
  {
    if calls == [] then 0
    else
      var a := ApproveAt(w, calls[0]);
      (if a.outcome.Raised? then 1 else 0) + Failures(a.roster, calls[1..])
  }

  /** Replacing one enrollment changes the active count by what was replaced and what replaces it. */
  lemma {:induction false} ActiveCountUpdate(es: seq<EnrollmentState>, i: nat, x: EnrollmentState)
    requires i < |es|
    ensures ActiveCount(es[i := x]) + (if es[i].status == Active then 1 else 0)
            == ActiveCount(es) + (if x.status == Active then 1 else 0)
  {
    if i > 0 {
      ActiveCountUpdate(es[1..], i - 1, x);
      assert es[i := x][1..] == es[1..][i - 1 := x];
    }
  }

  /** After any run, the filled seats are those at the start plus one per activation. */
  lemma {:induction false} RunAccountsSeats(w: Roster, calls: seq<Call>)
    requires Targets(calls, |w.enrollments|)
    ensures Run(w, calls).seats.seatsFilled == w.seats.seatsFilled + Activations(w, calls)
    decreases |calls|
  {
    if calls != [] {
      RunAccountsSeats(ApproveAt(w, calls[0]).roster, calls[1..]);
    }
  }

  /** No run of approvals fills more seats than the course offers. */
  lemma {:induction false} RunKeepsCapacity(w: Roster, calls: seq<Call>)
    requires Targets(calls, |w.enrollments|)
    requires WithinCapacity(w.seats)
    ensures WithinCapacity(Run(w, calls).seats)
    decreases |calls|
  {
    if calls != [] {
      RunKeepsCapacity(ApproveAt(w, calls[0]).roster, calls[1..]);
    }
  }

  /** Filled seats and active enrollments grow together: their difference never changes. */
  lemma {:induction false} RunKeepsSeatBalance(w: Roster, calls: seq<Call>)
    requires Targets(calls, |w.enrollments|)
    ensures var r := Run(w, calls);
            r.seats.seatsFilled - ActiveCount(r.enrollments)
            == w.seats.seatsFilled - ActiveCount(w.enrollments)
    decreases |calls|
  {
    if calls != [] {
      var i := calls[0].enrollment;
      var step := ApproveStep(w.enrollments[i], w.seats, calls[0].now);
      ActiveCountUpdate(w.enrollments, i, step.enrollment);
      RunKeepsSeatBalance(ApproveAt(w, calls[0]).roster, calls[1..]);
    }
  }

  /**
   * In a course whose filled seats are exactly its active enrollments and
   * which is within capacity, no run activates more enrollments than the
   * course has seats.
   */
  lemma ActiveNeverExceedsSeats(w: Roster, calls: seq<Call>)
    requires Targets(calls, |w.enrollments|)
    requires WithinCapacity(w.seats)
    requires w.seats.seatsFilled == ActiveCount(w.enrollments)
    ensures ActiveCount(Run(w, calls).enrollments) <= w.seats.totalSeats
  {
    RunKeepsSeatBalance(w, calls);
    RunKeepsCapacity(w, calls);
  }

  /**
   * Approving distinct enrollments that are not yet active, one call each:
   * call i succeeds and takes a seat exactly when i is below the number of
   * free seats, and every later call raises "No seats available". With K free
   * seats (none when the course is over-full) and N calls, exactly min(K, N)
   * enrollments become active and the other calls fail.
   */
  lemma {:induction false} DistinctApprovals(w: Roster, calls: seq<Call>)
    requires Targets(calls, |w.enrollments|)
    requires Distinct(calls)
    requires forall i :: 0 <= i < |calls| ==> w.enrollments[calls[i].enrollment].status != Active
    ensures forall i :: 0 <= i < |calls| ==>
              Outcomes(w, calls)[i] == if i < FreeSeats(w.seats) then Done else Raised(NoSeatsAvailable)
    ensures Activations(w, calls) == Min(Max(0, FreeSeats(w.seats)), |calls|)
    ensures Failures(w, calls) == |calls| - Min(Max(0, FreeSeats(w.seats)), |calls|)
    decreases |calls|
  {
    if calls != [] {
      var a := ApproveAt(w, calls[0]);
      var rest := calls[1..];
      assert Targets(rest, |a.roster.enrollments|);
      assert Distinct(rest);
      forall i | 0 <= i < |rest|
        ensures a.roster.enrollments[rest[i].enrollment].status != Active
      {
        assert rest[i] == calls[i + 1];
      }
      DistinctApprovals(a.roster, rest);
      forall i | 0 <= i < |calls|
        ensures Outcomes(w, calls)[i] == if i < FreeSeats(w.seats) then Done else Raised(NoSeatsAvailable)
      {
        if i > 0 {
          assert Outcomes(w, calls)[i] == Outcomes(a.roster, rest)[i - 1];
        }
      }
    }
  }
}
