/** Polling the token endpoint for one device code. The clock and the server's
    answers come from outside; a sleep lasts at least as long as asked for. */
module DevicePolling {

  /** `slow_down`, or the non-standard status 429, asks for longer intervals. */
  datatype Answer = Granted | SlowDown | TooManyRequests | OtherError

  const FIRST_INTERVAL := 5
  const INTERVAL_STEP := 5

  predicate Slows(a: Answer) {
    a.SlowDown? || a.TooManyRequests?
  }

  /** How many of the first `k` answers asked to slow down. */
  function SlowDowns(answers: nat -> Answer, k: nat): nat {
    if k == 0 then 0 else SlowDowns(answers, k - 1) + (if Slows(answers(k - 1)) then 1 else 0)
  }

  /** The least time the first `k` sleeps take. */
  function SleptAtLeast(answers: nat -> Answer, k: nat): nat {
    if k == 0 then 0 else SleptAtLeast(answers, k - 1) + Interval(answers, k - 1)
  }

  /** One poll: when the request was sent and when its answer was in, counted
      from the issue of the code. */
  datatype Poll = Poll(sent: int, answered: int)

  /** What the environment adds to a round: how much longer than asked the sleep
      lasts, and how long the server takes to answer. */
  datatype Delay = Delay(oversleep: nat, reply: nat)

  /** The interval asked for before the poll numbered `k`. */
  function Interval(answers: nat -> Answer, k: nat): nat {
    FIRST_INTERVAL + INTERVAL_STEP * SlowDowns(answers, k)
  }

  /** When the answer before the `k`-th poll was in. */
  function AnsweredBefore(polls: seq<Poll>, k: nat, start: nat): int {
    if k == 0 || k > |polls| then start else polls[k - 1].answered
  }

  /** Poll `k` was begun while the code was valid, sent one interval after the
      answer before it, or as much later as the sleep overran, and answered when
      the server replied. */
  predicate Timely(polls: seq<Poll>, answers: nat -> Answer, delays: nat -> Delay, expiresIn: int, start: nat, k: nat) {
    k < |polls| && polls[k].answered == polls[k].sent + delays(k).reply &&
    polls[k].sent == AnsweredBefore(polls, k, start) + Interval(answers, k) + delays(k).oversleep &&
    SleptAtLeast(answers, k) <= AnsweredBefore(polls, k, start) < expiresIn
  }

  lemma TimelyKept(polls: seq<Poll>, more: Poll, answers: nat -> Answer, delays: nat -> Delay, expiresIn: int,
      start: nat, k: nat)
    requires Timely(polls, answers, delays, expiresIn, start, k)
    ensures Timely(polls + [more], answers, delays, expiresIn, start, k)
  {
  }

  /** The inner loop of the device code flow, entered `start` seconds after the
      code was issued. It returns the polls, and whether one was granted. */
  method PollLoop(expiresIn: int, start: nat, answers: nat -> Answer, delays: nat -> Delay)
    returns (polls: seq<Poll>, granted: bool)
    ensures forall k: nat :: k < |polls| ==> Timely(polls, answers, delays, expiresIn, start, k)
    // polling stops with a grant, or once the code has expired
    ensures forall k: nat :: k + 1 < |polls| ==> !answers(k).Granted?
    ensures granted <==> |polls| > 0 && answers(|polls| - 1).Granted?
    ensures !granted ==> expiresIn <= AnsweredBefore(polls, |polls|, start)
  {
    polls, granted := [], false;
    var now: int, interval := start, FIRST_INTERVAL;
    while now < expiresIn
      invariant now == AnsweredBefore(polls, |polls|, start) >= SleptAtLeast(answers, |polls|)
      invariant interval == Interval(answers, |polls|)
      invariant forall k: nat :: k < |polls| ==> Timely(polls, answers, delays, expiresIn, start, k)
      invariant forall k: nat :: k < |polls| ==> !answers(k).Granted?
      decreases expiresIn - now
    {
      ghost var before := polls;
      var round := |polls|;
      var sent := now + interval + delays(round).oversleep;
      now := sent + delays(round).reply;
      polls := polls + [Poll(sent, now)];
      assert Timely(polls, answers, delays, expiresIn, start, round);
      forall k: nat | k < round ensures Timely(polls, answers, delays, expiresIn, start, k) {
        TimelyKept(before, Poll(sent, now), answers, delays, expiresIn, start, k);
      }
      hide Timely;
      match answers(round)
      case Granted => return polls, true;
      case SlowDown => interval := interval + INTERVAL_STEP;
      case TooManyRequests => interval := interval + INTERVAL_STEP;
      case OtherError =>
    }
  }

  /** The interval starts at five seconds; an answer asking to slow down, or status
      429, adds five to all that follow, and no other answer changes it. */
  lemma IntervalGrows(answers: nat -> Answer, k: nat)
    ensures Interval(answers, 0) == 5
    ensures Interval(answers, k + 1) ==
            Interval(answers, k) + if answers(k) in {SlowDown, TooManyRequests} then 5 else 0
  {
  }

  /** Polls of one code are spaced as section 3.5 of RFC 8628 asks for: at least
      5 + 5k seconds apart after k answers that asked to slow down. */
  lemma Spacing(polls: seq<Poll>, answers: nat -> Answer, delays: nat -> Delay, expiresIn: int, start: nat, k: nat)
    requires Timely(polls, answers, delays, expiresIn, start, k)
    requires Timely(polls, answers, delays, expiresIn, start, k + 1)
    ensures polls[k + 1].sent - polls[k].sent >= 5 + 5 * SlowDowns(answers, k + 1)
  {
    hide SlowDowns, SleptAtLeast;
  }

  /** `n` polls mean the code was valid for more than 5 (n - 1) seconds. */
  lemma {:induction false} PollsBounded(answers: nat -> Answer, k: nat)
    ensures SleptAtLeast(answers, k) >= FIRST_INTERVAL * k
  {
    if k > 0 {
      PollsBounded(answers, k - 1);
    }
  }

  lemma {:induction false} AllSlowDowns(answers: nat -> Answer, k: nat)
    requires forall j :: 0 <= j < k ==> Slows(answers(j))
    ensures SlowDowns(answers, k) == k
  {
    if k > 0 {
      AllSlowDowns(answers, k - 1);
    }
  }

  /** When every answer asks to slow down, for more than 5 n (n - 1) / 2. */
  lemma {:induction false} SlowPollsBounded(answers: nat -> Answer, k: nat)
    requires forall j :: 0 <= j < k ==> Slows(answers(j))
    ensures 2 * SleptAtLeast(answers, k) == FIRST_INTERVAL * (k * (k + 1))
  {
    if k > 0 {
      SlowPollsBounded(answers, k - 1);
      AllSlowDowns(answers, k - 1);
      assert k * (k + 1) == (k - 1) * k + 2 * k;
    }
  }

  /** What begun polls say about the lifetime of the code. */
  lemma PollBounds(polls: seq<Poll>, answers: nat -> Answer, delays: nat -> Delay, expiresIn: int, start: nat, n: nat)
    requires n > 0 && Timely(polls, answers, delays, expiresIn, start, n - 1)
    ensures 5 * (n - 1) < expiresIn
    ensures (forall j :: 0 <= j < n - 1 ==> Slows(answers(j))) ==> 5 * (n * (n - 1)) < 2 * expiresIn
  {
    PollsBounded(answers, n - 1);
    if forall j :: 0 <= j < n - 1 ==> Slows(answers(j)) {
      SlowPollsBounded(answers, n - 1);
      assert (n - 1) * n == n * (n - 1);
    }
  }
}
