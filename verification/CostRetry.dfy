/** Retries of cost-provenance events: one row of failures per event, and when an event is settled. */
module CostRetry {
  import opened Wrappers
  import opened Assetizer

  datatype Retry = Retry(attempts: nat, next: int, failed: bool)

  /** What is kept about one event. `effects` counts how often its handler has committed. */
  datatype EventState = EventState(retry: Option<Retry>, processed: bool, effects: nat, work: bool)

  const NEW_EVENT := EventState(None, false, 0, false)

  /** The poll takes events that are not processed and have no failure, or a pending one that is due. */
  predicate Eligible(e: EventState, now: int) {
    !e.processed && (e.retry == None || (!e.retry.value.failed && e.retry.value.next <= now))
  }

  /** A delivery that goes through commits its effects, its inbox marker and the removal of the
      retry row together; one that is already processed does nothing. */
  function Process(e: EventState): EventState {
    if e.processed then e else EventState(None, true, e.effects + 1, e.work)
  }

  /** `recordCostProvenanceRetryFailure`. */
  function RecordRetryFailure(e: EventState, now: int): EventState {
    match e.retry
    case None => e.(retry := Some(Retry(1, now + 2, false)))
    case Some(r) =>
      var attempts := r.attempts + 1;
      var failed := attempts >= MAX_ATTEMPTS;
      e.(retry := Some(Retry(attempts, now + Backoff(attempts), failed)), work := e.work || failed)
  }

  class RetryRow {
    var row: Option<Retry>
    var work: bool

    /** The upsert, and the work item that the last failure asks for, in one transaction; with `fault`
        its last statement fails. */
    method RecordFailure(now: int, fault: bool) returns (recorded: bool)
      modifies this
      ensures recorded == !fault
      ensures var next := RecordRetryFailure(NEW_EVENT.(retry := old(row), work := old(work)), now);
              if recorded then row == next.retry && work == next.work else row == old(row) && work == old(work)
    {
      var before, asked := row, work;
      if row == None {
        row := Some(Retry(1, now + 2, false));
      } else {
        var attempts := row.value.attempts + 1;
        row := Some(Retry(attempts, now + Backoff(attempts), attempts >= MAX_ATTEMPTS));
      }
      if row.value.failed {
        work := true;
      }
      if fault {
        row, work := before, asked;
      }
      return !fault;
    }
  }

  // ----- Any interleaving -----

  datatype Step = Through | Failure(now: int)

  function After(e: EventState, steps: seq<Step>): EventState {
    if steps == [] then e
    else
      var before := After(e, steps[..|steps| - 1]);
      match steps[|steps| - 1]
      case Through => Process(before)
      case Failure(now) => RecordRetryFailure(before, now)
  }

  /** However deliveries and failures interleave, the effects happen once if any delivery goes
      through, and an event that is given up has a work item. */
  lemma {:induction false} EffectsOnce(steps: seq<Step>)
    ensures var e := After(NEW_EVENT, steps);
            && e.processed == (Through in steps)
            && e.effects == (if e.processed then 1 else 0)
            && (e.retry.Some? ==>
                  e.retry.value.attempts > 0 && (e.retry.value.failed <==> e.retry.value.attempts >= MAX_ATTEMPTS))
            && (e.retry.Some? && e.retry.value.failed ==> e.work)
  {
    if steps != [] {
      var n := |steps| - 1;
      EffectsOnce(steps[..n]);
      assert steps == steps[..n] + [steps[n]];
    }
  }

  // ----- The poll -----

  datatype Poll = Poll(now: int, breaks: bool, unrecorded: bool)

  /** One turn of the worker for one event; a failure to record a failure is only reported. */
  function Turn(e: EventState, p: Poll): EventState {
    if !Eligible(e, p.now) then e
    else if !p.breaks then Process(e)
    else if p.unrecorded then e
    else RecordRetryFailure(e, p.now)
  }

  function Turns(e: EventState, polls: seq<Poll>): EventState {
    if polls == [] then e else Turn(Turns(e, polls[..|polls| - 1]), polls[|polls| - 1])
  }

  predicate Settled(e: EventState) {
    || (e.processed && e.effects == 1 && e.retry == None)
    || (&& !e.processed && e.effects == 0 && e.work
        && e.retry.Some? && e.retry.value.failed && e.retry.value.attempts == MAX_ATTEMPTS)
  }

  /** As long as an event is open, its failures are counted and it is due again within 16 seconds. */
  ghost predicate Open(e: EventState) {
    && !e.processed && e.effects == 0
    && (e.retry.Some? ==> 0 < e.retry.value.attempts < MAX_ATTEMPTS && !e.retry.value.failed)
  }

  function Failures(e: EventState): nat {
    if e.retry == None then 0 else e.retry.value.attempts
  }

  lemma BackoffIsShort(attempts: nat)
    requires 1 <= attempts < MAX_ATTEMPTS
    ensures Backoff(attempts) == Power(attempts) && 2 <= Backoff(attempts) <= 16
  {
    assert Power(1) == 2 && Power(2) == 4 && Power(3) == 8 && Power(4) == 16;
  }

  lemma TurnKeeps(e: EventState, p: Poll)
    requires Open(e) || Settled(e)
    ensures Open(Turn(e, p)) || Settled(Turn(e, p))
    ensures Settled(e) ==> Turn(e, p) == e
    ensures Failures(Turn(e, p)) <= MAX_ATTEMPTS
    ensures Open(Turn(e, p)) && Eligible(e, p.now) && !p.unrecorded
        ==> Failures(Turn(e, p)) == Failures(e) + 1 && Turn(e, p).retry.value.next <= p.now + 16
    ensures Open(Turn(e, p)) && p.unrecorded ==> Turn(e, p) == e
  {
    if Open(e) && Failures(e) + 1 < MAX_ATTEMPTS {
      BackoffIsShort(Failures(e) + 1);
    }
  }

  /** What a poll does to an open event: nothing before it is due; then it goes through once, or its
      failure is counted. After failure `n` it is taken up again from exactly 2^n seconds later on,
      and after the fifth never again, with a work item. */
  lemma TurnExactly(e: EventState, p: Poll, later: int)
    requires Open(e)
    ensures var next, n := Turn(e, p), Failures(e) + 1;
            if e.retry.Some? && p.now < e.retry.value.next then next == e
            else if !p.breaks then next == EventState(None, true, 1, e.work)
            else if p.unrecorded then next == e
            else
              && !next.processed && next.effects == 0 && Failures(next) == n
              && (Eligible(next, later) <==> n < 5 && later >= p.now + Power(n))
              && next.work == (e.work || n == 5)
  {
    if Failures(e) + 1 < MAX_ATTEMPTS {
      BackoffIsShort(Failures(e) + 1);
    }
  }

  /** Polled by one worker, an event is counted at most five times, and once settled it stays so. */
  lemma {:induction false} PollsSettleForGood(polls: seq<Poll>, n: nat)
    requires n <= |polls|
    ensures Failures(Turns(NEW_EVENT, polls)) <= MAX_ATTEMPTS
    ensures Open(Turns(NEW_EVENT, polls)) || Settled(Turns(NEW_EVENT, polls))
    ensures Settled(Turns(NEW_EVENT, polls[..n])) ==> Turns(NEW_EVENT, polls) == Turns(NEW_EVENT, polls[..n])
  {
    if polls != [] {
      var k := |polls| - 1;
      if n < |polls| {
        PollsSettleForGood(polls[..k], n);
        assert polls[..k][..n] == polls[..n];
      } else {
        PollsSettleForGood(polls[..k], k);
        assert polls[..n] == polls;
      }
      TurnKeeps(Turns(NEW_EVENT, polls[..k]), polls[k]);
    }
  }

  /** The first poll that takes the event up and does not break commits its effects, once for all. */
  lemma GoodPollSettles(polls: seq<Poll>, k: nat, n: nat)
    requires k < |polls| && n == k + 1
    requires Eligible(Turns(NEW_EVENT, polls[..k]), polls[k].now) && !polls[k].breaks
    ensures Turns(NEW_EVENT, polls).processed && Turns(NEW_EVENT, polls).effects == 1
  {
    PollsSettleForGood(polls[..k], k);
    assert polls[..n][..k] == polls[..k];
    PollsSettleForGood(polls, n);
  }

  /** How many polls had their failure recorded, if they failed. */
  function Recorded(polls: seq<Poll>): nat {
    if polls == [] then 0 else Recorded(polls[..|polls| - 1]) + if polls[|polls| - 1].unrecorded then 0 else 1
  }

  /** With polls at least 16 seconds apart, five recorded ones settle an event, however many others
      there are: its effects are committed exactly once, or it is failed with a work item. */
  lemma {:induction false} FivePollsSettle(polls: seq<Poll>)
    requires forall i, j | 0 <= i < j < |polls| :: polls[i].now + 16 <= polls[j].now
    ensures var e := Turns(NEW_EVENT, polls);
            && (Settled(e) || (Open(e) && Failures(e) == Recorded(polls)))
            && (polls != [] && e.retry.Some? && Open(e) ==> e.retry.value.next <= polls[|polls| - 1].now + 16)
            && (Recorded(polls) >= MAX_ATTEMPTS ==> Settled(e))
  {
    if polls != [] {
      var n := |polls| - 1;
      FivePollsSettle(polls[..n]);
      TurnKeeps(Turns(NEW_EVENT, polls[..n]), polls[n]);
    }
  }

  /** A failure that a second worker records after the event went through leaves a retry row that
      nothing removes, but the event is not taken up again. */
  lemma LateFailureIsHarmless(steps: seq<Step>, now: int, later: int)
    requires Through in steps
    ensures var e := RecordRetryFailure(After(NEW_EVENT, steps), now);
            e.retry.Some? && !Eligible(e, later) && e.effects == 1
  {
    EffectsOnce(steps);
  }
}
