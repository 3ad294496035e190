# Enrollment seat capacity and approval

This project models the one piece of behaviour in the institute-management
data model: a course's seat counters and the approval of an enrollment.

- A **course** keeps `total_seats` and `seats_filled`, both non-negative and both
  zero by default. It has a free seat exactly when fewer seats are filled than
  offered.
- An **enrollment** belongs to one course. Its status is one of pending, active,
  completed, rejected or cancelled, and starts as pending. It has an
  `enrolled_at` time that is unset until the enrollment is approved.
- **Approving** an enrollment does nothing if it is already active. Otherwise,
  if its course has no free seat, it raises "No seats available" before
  anything changes. Otherwise it makes the enrollment active, stamps it with
  the current time and fills one more seat of the course.

`models.dfy` (module `Models`) holds two layers. The first is the values and
the function `ApproveStep`, which states what one approval does. The second is
the classes `Course` and `Enrollment`, whose method `Enrollment.Approve` updates
the fields in place and is proved to do exactly what `ApproveStep` says.
`roster.dfy` (module `Roster`) models a course together with its enrollments
and any sequence of approval calls against it. It proves that the seat
counters stay consistent across the whole sequence.

The clock is a parameter: every approval receives the current time `now`. The
raised `ValueError` is the outcome `Raised("No seats available")`.

Two facts about the code shape the model:
- Approval tests only "not active" (DOC/DOCUMENTATION/models.py:132). So a completed, rejected
  or cancelled enrollment becomes active again when a seat is free
  (`NoTerminalStatus`).
- Nothing forces `seats_filled <= total_seats` when a course is created. The
  model therefore lets a course be built with any counters, and proves that
  approval preserves the invariant when it already holds.

`Models.OneSeatTwoApplicants` is an example scenario on objects that share one
course. It does not model a source function.

## Model

| member | source | states |
|---|---|---|
| `Models.Course.constructor` | DOC/DOCUMENTATION/models.py:85-86 | a course holds the two seat counters it is given; both default to zero, so `new Course()` has no free seat |
| `Models.Course.HasAvailableSeat` | DOC/DOCUMENTATION/models.py:91-92 | true exactly when the course has a positive number of free seats (offered minus filled); it only reads the counters |
| `Models.Enrollment.constructor` | DOC/DOCUMENTATION/models.py:125-128 | a new enrollment refers to its course, is pending and has no `enrolled_at` |
| `Models.ApproveStep` | DOC/DOCUMENTATION/models.py:130-140 | approval raises "No seats available" exactly when the enrollment is not active and the course has no free seat, and then changes nothing; an active enrollment is left unchanged; otherwise the enrollment becomes active, `enrolled_at` becomes `now`, `seats_filled` grows by exactly one and `total_seats` stays the same; `seats_filled <= total_seats` is preserved |
| `Models.Enrollment.Approve` | DOC/DOCUMENTATION/models.py:130-140 | the in-place approval changes the enrollment and its course exactly as `ApproveStep` says; on an active enrollment or on the error path neither object changes; on success the status is active, `enrolled_at` is `now`, `seats_filled` is one more and `total_seats` is unchanged |
| `Models.DefaultCourseRefuses` | DOC/DOCUMENTATION/models.py:85-135 | in a course with the default counters (0 and 0), approving any enrollment that is not active raises "No seats available" and changes nothing |
| `Models.ApproveIsIdempotent` | DOC/DOCUMENTATION/models.py:132-140 | a second approval, at any time, returns what the first returned and changes nothing: no seat is taken twice and `enrolled_at` keeps its first stamp |
| `Models.NoTerminalStatus` | DOC/DOCUMENTATION/models.py:116-136 | a completed, rejected or cancelled enrollment in a course with a free seat is approved and becomes active with `enrolled_at` set to `now` |
| `Models.ApproveKeepsStamp` | DOC/DOCUMENTATION/models.py:132-137 | if every active enrollment has an `enrolled_at`, that still holds after an approval |
| `Roster.ApproveAt` | DOC/DOCUMENTATION/models.py:130-140 | approving one enrollment of a course leaves every other enrollment of that course unchanged and keeps the number of seats offered |
| `Roster.Run` | DOC/DOCUMENTATION/models.py:130-140 | a sequence of approvals keeps the number of enrollments and the number of seats offered, and leaves every enrollment that no call names unchanged |
| `Roster.RunAccountsSeats` | DOC/DOCUMENTATION/models.py:132-139 | after any sequence of approvals, `seats_filled` is its starting value plus the number of calls that moved an enrollment from non-active to active |
| `Roster.RunKeepsCapacity` | DOC/DOCUMENTATION/models.py:91-139 | no sequence of approvals breaks `seats_filled <= total_seats` |
| `Roster.RunKeepsSeatBalance` | DOC/DOCUMENTATION/models.py:132-139 | after any sequence of approvals, `seats_filled` minus the number of active enrollments is what it was before |
| `Roster.ActiveNeverExceedsSeats` | DOC/DOCUMENTATION/models.py:91-139 | when the filled seats start equal to the active enrollments, no sequence of approvals leaves more active enrollments than seats offered |
| `Roster.DistinctApprovals` | DOC/DOCUMENTATION/models.py:132-139 | approving N different non-active enrollments of a course with K free seats (none if it is over-full): call i returns normally exactly when i < K, every other call raises "No seats available", so exactly min(K, N) enrollments become active |

## Left out

- Persistence: `save(update_fields=...)` is not modelled. The code checks the counters in memory, then increments `seats_filled` in the database and saves the enrollment in a separate write. The model treats all of this as one sequential step with a plain increment of a natural number, so a partial write between the two saves is not captured.
- Stale or unevaluated counters: every approval in the model, and every run lemma in `Roster`, sees the course's current counters as numbers. The code meets that only if each approval reloads its course. After a save, the in-memory course keeps the expression `F('seats_filled') + 1` instead of a number. A second approval through the same in-memory course then fails with a type error in `has_available_seat`, not with "No seats available". An approval whose course copy was loaded before an earlier approval sees an old `seats_filled`. On a one-seat course, two such approvals made one after the other both pass the check and leave `seats_filled = 2 > total_seats = 1`. The model does not capture either behaviour.
- Concurrency: approvals racing on the same course are not modelled. Every run of approvals is sequential.
- The clock: `timezone.now()` becomes the `now` parameter of each approval.
- The unused `approver` argument and the approval logging that the docstring promises are not implemented in the code, so the model has neither.
- The student, name, code, description, teacher and creation-time fields carry no behaviour. They are left out. `applied_at` is kept as a constant of the enrollment.
- The other classes of the same file (users, profiles, parents, seat assignments with their unique seat number per course, jobs, applications, approvals, leave, results, accounts, finance, notifications, edit history) declare fields only. So do their `__str__` methods. No code changes their statuses.
- DOCUMENTATION/models.py is an older fields-only schema without seat counters or approval. DOCUMENTATION/instacore_presentation.py writes slides to a file through an external library. Neither is part of this model.
