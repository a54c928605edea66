/** When the POSTs of a slot leave (src/services/constraint_submission.rs, src/api/constraints.rs). The
    deadline is read once for a slot; then its submissions run one after the other. */
module Deadline {
  import opened Machine
  import opened Relay
  import SlotClock

  /** One submission: the milliseconds between the end of the one before (or the reading of the deadline)
      and its first POST, how each POST would end and how long it would take. */
  datatype Course = Course(prepares: nat, outcome: nat -> Outcome, takes: nat -> nat)

  function Taken(takes: nat -> nat, posts: nat): nat {
    if posts == 0 then 0 else Taken(takes, posts - 1) + takes(posts - 1)
  }

  /** Milliseconds from the start of a submission to its POST number `i`, counted from 0. */
  function LeavesAfter(c: Course, i: nat): nat {
    c.prepares + Taken(c.takes, i) + Slept(c.outcome, i)
  }

  /** Milliseconds a submission lasts: like the start of a POST after the last one. */
  function Lasts(maxRetries: nat, c: Course): nat {
    LeavesAfter(c, Posts(maxRetries, c.outcome))
  }

  function AllLast(maxRetries: nat, courses: seq<Course>): nat {
    if courses == [] then 0
    else AllLast(maxRetries, courses[..|courses| - 1]) + Lasts(maxRetries, courses[|courses| - 1])
  }

  /** Milliseconds from the reading of the deadline to the last POST. */
  function LastPost(maxRetries: nat, courses: seq<Course>): nat
    requires courses != []
  {
    var last := courses[|courses| - 1];
    AllLast(maxRetries, courses[..|courses| - 1]) + LeavesAfter(last, Posts(maxRetries, last.outcome) - 1)
  }

  /** The client's timeout holds for each POST, and preparing takes at most so long. */
  ghost predicate Within(c: Course, timeout: nat, prepares: nat) {
    c.prepares <= prepares && forall i :: c.takes(i) <= timeout
  }

  ghost predicate AllWithin(courses: seq<Course>, timeout: nat, prepares: nat) {
    forall k :: 0 <= k < |courses| ==> Within(courses[k], timeout, prepares)
  }

  function Times(n: nat, x: nat): nat {
    if n == 0 then 0 else Times(n - 1, x) + x
  }

  lemma {:induction false} TimesIsProduct(n: nat, x: nat)
    ensures Times(n, x) == n * x
  {
    if n > 0 {
      TimesIsProduct(n - 1, x);
      assert n * x == (n - 1) * x + x;
    }
  }

  lemma {:induction false} TimesMonotone(m: nat, n: nat, x: nat)
    requires m <= n
    ensures Times(m, x) <= Times(n, x)
  {
    if m < n {
      TimesMonotone(m, n - 1, x);
    }
  }

  /** The longest a submission may last, and when its last POST may leave at the latest. */
  function LongestSubmission(attempts: nat, timeout: nat, prepares: nat): nat {
    prepares + Times(attempts, timeout) + AllDelays(attempts)
  }

  function LatestPost(submissions: nat, attempts: nat, timeout: nat, prepares: nat): nat
    requires submissions > 0 && attempts > 0
  {
    Times(submissions - 1, LongestSubmission(attempts, timeout, prepares))
    + LongestSubmission(attempts - 1, timeout, prepares)
  }

  /** With ten attempts: all submissions but the last take 111 seconds of sleep each, the last one 81. */
  lemma LatestOfTenAttempts(submissions: nat, timeout: nat, prepares: nat)
    requires submissions > 0
    ensures LatestPost(submissions, 10, timeout, prepares)
         == (submissions - 1) * (prepares + 10 * timeout + 111_000) + prepares + 9 * timeout + 81_000
  {
    TimesIsProduct(10, timeout);
    TimesIsProduct(9, timeout);
    DelaysOfTen();
    LastDelay();
    var longest := LongestSubmission(10, timeout, prepares);
    assert longest == prepares + 10 * timeout + 111_000;
    TimesIsProduct(submissions - 1, longest);
  }

  lemma LastDelay()
    ensures Delay(10) == 30_000
  {
    assert Power2(10) == 1024;
  }

  lemma {:induction false} TakenBounded(takes: nat -> nat, posts: nat, timeout: nat)
    requires forall i :: takes(i) <= timeout
    ensures Taken(takes, posts) <= Times(posts, timeout)
    ensures (forall i :: takes(i) == timeout) ==> Taken(takes, posts) == Times(posts, timeout)
  {
    if posts > 0 {
      TakenBounded(takes, posts - 1, timeout);
    }
  }

  lemma LeavesBounded(c: Course, i: nat, most: nat, timeout: nat, prepares: nat)
    requires Within(c, timeout, prepares) && i <= most
    ensures LeavesAfter(c, i) <= LongestSubmission(most, timeout, prepares)
  {
    TakenBounded(c.takes, i, timeout);
    SleptAtMostAll(c.outcome, i);
    AllDelaysMonotone(i, most);
    TimesMonotone(i, most, timeout);
  }

  lemma {:induction false} AllLastBounded(maxRetries: nat, courses: seq<Course>, timeout: nat, prepares: nat)
    requires AllWithin(courses, timeout, prepares)
    ensures AllLast(maxRetries, courses)
         <= Times(|courses|, LongestSubmission(Attempts(maxRetries), timeout, prepares))
  {
    if courses != [] {
      var init, last := courses[..|courses| - 1], courses[|courses| - 1];
      AllLastBounded(maxRetries, init, timeout, prepares);
      LeavesBounded(last, Posts(maxRetries, last.outcome), Attempts(maxRetries), timeout, prepares);
    }
  }

  /** No POST leaves later than this. */
  lemma LastPostBounded(maxRetries: nat, courses: seq<Course>, timeout: nat, prepares: nat)
    requires courses != [] && AllWithin(courses, timeout, prepares)
    ensures LastPost(maxRetries, courses) <= LatestPost(|courses|, Attempts(maxRetries), timeout, prepares)
  {
    var last := courses[|courses| - 1];
    AllLastBounded(maxRetries, courses[..|courses| - 1], timeout, prepares);
    LeavesBounded(last, Posts(maxRetries, last.outcome) - 1, Attempts(maxRetries) - 1, timeout, prepares);
  }

  // ---- The bound is reached ----

  /** Nothing but server errors at the last moment. */
  function Worst(timeout: nat, prepares: nat): Course {
    Course(prepares, (i: nat) => Status(503), (i: nat) => timeout)
  }

  function WorstCourses(submissions: nat, timeout: nat, prepares: nat): (courses: seq<Course>)
    ensures |courses| == submissions
    ensures forall k :: 0 <= k < submissions ==> courses[k] == Worst(timeout, prepares)
  {
    seq(submissions, k => Worst(timeout, prepares))
  }

  lemma WorstLeaves(i: nat, timeout: nat, prepares: nat)
    ensures LeavesAfter(Worst(timeout, prepares), i) == LongestSubmission(i, timeout, prepares)
  {
    var c := Worst(timeout, prepares);
    TakenBounded(c.takes, i, timeout);
    SleptAtMostAll(c.outcome, i);
  }

  lemma WorstPosts(maxRetries: nat, timeout: nat, prepares: nat)
    ensures Posts(maxRetries, Worst(timeout, prepares).outcome) == Attempts(maxRetries)
  {
    var outcome := Worst(timeout, prepares).outcome;
    assert Retryable(outcome(Posts(maxRetries, outcome) - 1));
  }

  lemma {:induction false} WorstLasts(maxRetries: nat, submissions: nat, timeout: nat, prepares: nat)
    ensures AllLast(maxRetries, WorstCourses(submissions, timeout, prepares))
         == Times(submissions, LongestSubmission(Attempts(maxRetries), timeout, prepares))
  {
    if submissions > 0 {
      var courses := WorstCourses(submissions, timeout, prepares);
      WorstLasts(maxRetries, submissions - 1, timeout, prepares);
      assert courses[..submissions - 1] == WorstCourses(submissions - 1, timeout, prepares);
      WorstPosts(maxRetries, timeout, prepares);
      WorstLeaves(Attempts(maxRetries), timeout, prepares);
    }
  }

  lemma WorstIsLatest(maxRetries: nat, submissions: nat, timeout: nat, prepares: nat)
    requires submissions > 0
    ensures AllWithin(WorstCourses(submissions, timeout, prepares), timeout, prepares)
    ensures LastPost(maxRetries, WorstCourses(submissions, timeout, prepares))
         == LatestPost(submissions, Attempts(maxRetries), timeout, prepares)
  {
    var courses := WorstCourses(submissions, timeout, prepares);
    assert courses[..submissions - 1] == WorstCourses(submissions - 1, timeout, prepares);
    WorstLasts(maxRetries, submissions - 1, timeout, prepares);
    WorstPosts(maxRetries, timeout, prepares);
    WorstLeaves(Attempts(maxRetries) - 1, timeout, prepares);
  }

  // ---- The deadline ----

  /** A POST that leaves at this millisecond leaves within the window of the slot. */
  predicate InTime(genesis: u64, slot: u64, ms: nat) {
    ms / 1000 <= SlotClock.ConstraintDeadline(genesis, slot)
  }

  /** The deadline is read at `checked`. Every POST of the slot is sure to leave in time exactly when the
      latest one possible does: passing the check alone does not keep the window. */
  lemma PostsInTimeExactly(
      genesis: u64, slot: u64, checked: nat, maxRetries: nat, submissions: nat, timeout: nat, prepares: nat)
    requires submissions > 0
    ensures (forall courses ::
               |courses| == submissions && AllWithin(courses, timeout, prepares)
               ==> InTime(genesis, slot, checked + LastPost(maxRetries, courses)))
       <==> InTime(genesis, slot, checked + LatestPost(submissions, Attempts(maxRetries), timeout, prepares))
  {
    var latest := LatestPost(submissions, Attempts(maxRetries), timeout, prepares);
    WorstIsLatest(maxRetries, submissions, timeout, prepares);
    forall courses |
      |courses| == submissions && AllWithin(courses, timeout, prepares)
      && InTime(genesis, slot, checked + latest)
      ensures InTime(genesis, slot, checked + LastPost(maxRetries, courses))
    {
      LastPostBounded(maxRetries, courses, timeout, prepares);
      EarlierIsInTime(genesis, slot, checked + LastPost(maxRetries, courses), checked + latest);
    }
  }

  lemma EarlierIsInTime(genesis: u64, slot: u64, earlier: nat, later: nat)
    requires earlier <= later && InTime(genesis, slot, later)
    ensures InTime(genesis, slot, earlier)
  {
  }

  /** Nine server errors, then the relay accepts. */
  const NINE_ERRORS: Course := Course(0, (i: nat) => if i < 9 then Status(503) else Status(200), (i: nat) => 0)

  lemma NineErrorsPost()
    ensures Posts(10, NINE_ERRORS.outcome) == 10
  {
    var outcome := NINE_ERRORS.outcome;
    PostsAreUnique(10, outcome, 10, Posts(10, outcome));
  }

  lemma NineErrorsLeave()
    ensures LeavesAfter(NINE_ERRORS, 9) == 81_000
  {
    TakenBounded(NINE_ERRORS.takes, 9, 0);
    TimesIsProduct(9, 0);
    SleptAtMostAll(NINE_ERRORS.outcome, 9);
    DelaysOfTen();
    LastDelay();
  }

  lemma OneSubmission(maxRetries: nat, c: Course)
    ensures LastPost(maxRetries, [c]) == LeavesAfter(c, Posts(maxRetries, c.outcome) - 1)
  {
    assert [c][..0] == [];
  }

  /** A slot whose check passes in its last second may be accepted 81 seconds after the deadline, even if
      nothing takes time but the client's own sleeps. */
  lemma AcceptedAfterDeadline(genesis: u64, slot: u64)
    requires genesis + 12 * slot + 8 < TWO_64
    ensures var deadline := genesis + 12 * slot + 8;
      && SlotClock.IsWithinWindow(genesis, slot, deadline)
      && React(NINE_ERRORS.outcome(Posts(10, NINE_ERRORS.outcome) - 1)).Succeed?
      && 1000 * deadline + LastPost(10, [NINE_ERRORS]) == 1000 * (deadline + 81)
      && !InTime(genesis, slot, 1000 * deadline + LastPost(10, [NINE_ERRORS]))
  {
    NineErrorsPost();
    NineErrorsLeave();
    OneSubmission(10, NINE_ERRORS);
  }
}
