/** The device-code poll loop (internal/trakt/auth.go), which follows section 3.5 of RFC 8628. */
module DevicePoll {
  import opened Lists
  import opened Calendar

  /** Go's Duration is a signed 64-bit count of nanoseconds. */
  const MAX_POLL_WAIT: int := 60 * SECOND
  const SLOW_DOWN_BUMP: int := 5 * SECOND
  const TWO63: int := 0x8000_0000_0000_0000
  const TWO64: int := 0x1_0000_0000_0000_0000

  function Wrap64(x: int): (r: int)
    ensures -TWO63 <= r < TWO63
    ensures -TWO63 <= x < TWO63 ==> r == x
  {
    (x + TWO63) % TWO64 - TWO63
  }

  function Min(a: int, b: int): int {
    if a < b then a else b
  }

  function Max(a: int, b: int): int {
    if a < b then b else a
  }

  /** Retry-After as a number of seconds; absent stands for a missing, non-numeric or out-of-range header. */
  datatype RetryAfter = Absent | Seconds(n: int)

  function SlowDownWait(interval: int, retryAfter: RetryAfter): (r: (int, int))
    ensures r.0 == interval + SLOW_DOWN_BUMP && r.1 <= MAX_POLL_WAIT
  {
    var next := interval + SLOW_DOWN_BUMP;
    var wait := if retryAfter.Seconds? && retryAfter.n >= 0 then Wrap64(retryAfter.n * SECOND) else next;
    (next, Min(wait, MAX_POLL_WAIT))
  }

  /** A numeric Retry-After is honoured up to the cap exactly when it is below a minute, or its count of
      nanoseconds lies between a minute and half the 64-bit range above some multiple of that range. */
  lemma RetryAfterHonouredExactly(interval: int, n: int)
    requires 0 <= n < TWO63
    ensures SlowDownWait(interval, Seconds(n)).1 == Min(n * SECOND, MAX_POLL_WAIT)
            <==> n < 60 || MAX_POLL_WAIT <= n * SECOND % TWO64 < TWO63
  {
    WrapOf(n * SECOND);
    assert n < 60 <==> n * SECOND < MAX_POLL_WAIT;
  }

  lemma WrapOf(x: nat)
    ensures Wrap64(x) == if x % TWO64 < TWO63 then x % TWO64 else x % TWO64 - TWO64
  {
    var q, r := x / TWO64, x % TWO64;
    QuotientIs(x + TWO63, TWO64, if r < TWO63 then q else q + 1, if r < TWO63 then r + TWO63 else r - TWO63);
  }

  /** The smallest header value that is not honoured: the wait comes out negative, so polling resumes at once. */
  lemma RetryAfterWraps(interval: int)
    ensures SlowDownWait(interval, Seconds(9_223_372_037)).1 < 0
  {
    assert 9_223_372_037 * SECOND - TWO64 == Wrap64(9_223_372_037 * SECOND);
  }

  // ---------- the loop as a state machine over the server's answers ----------

  /** A failed request may count as an exceeded deadline, as a connection that times out does. */
  datatype Response = TransportError(timeout: bool) | Token | Status(code: int, retryAfter: RetryAfter)

  /** A response, how long the request takes, and how much later than asked the following wait ends. */
  datatype Answer = Answer(response: Response, latency: nat, overshoot: nat)

  /** Why a context ends. */
  datatype Cause = DeadlineExceeded | Cancelled

  datatype Outcome = Granted | Ended(cause: Cause) | Failed(timeout: bool) | Terminal(code: int)

  datatype Phase = Polling | Done(outcome: Outcome)

  /** The poller, with what it has seen so far: requests sent, pending and slow_down answers, and the wait
      after each slow_down. */
  datatype Poller = Poller(
    interval: int, now: int, phase: Phase, requests: nat, pending: nat, slowDowns: nat, slowWaits: seq<int>)

  /** The caller's context: it never ends, or ends at an instant counted from the start of the poll. */
  datatype Context = Background | Until(t: int, cause: Cause)

  predicate Expired(d: Context, now: int) {
    d.Until? && now >= d.t
  }

  function Begin(interval: int): Poller {
    Poller(interval, 0, Polling, 0, 0, 0, [])
  }

  /** Time passes, up to the end of the context, which ends the poll. */
  function Passed(p: Poller, d: Context, time: nat): Poller {
    var until := p.now + time;
    if Expired(d, until) then p.(now := Max(p.now, d.t), phase := Done(Ended(d.cause))) else p.(now := until)
  }

  /** A wait that is not positive ends at once. */
  function Waited(p: Poller, d: Context, wait: int, overshoot: nat): Poller {
    Passed(p, d, Max(wait, 0) + overshoot)
  }

  /** One iteration: the check of the context, one request, and what its answer leads to. */
  function Step(p: Poller, d: Context, a: Answer): Poller {
    if p.phase.Done? then p
    else if Expired(d, p.now) then p.(phase := Done(Ended(d.cause)))
    else
      var q := Passed(p.(requests := p.requests + 1), d, a.latency);
      if q.phase.Done? then q
      else match a.response
        case TransportError(timeout) => q.(phase := Done(Failed(timeout)))
        case Token => q.(phase := Done(Granted))
        case Status(code, retryAfter) =>
          if code == 400 then
            var r := q.(pending := q.pending + 1);
            if r.interval > 0 then Waited(r, d, r.interval, a.overshoot) else r
          else if code == 429 then
            var (next, wait) := SlowDownWait(q.interval, retryAfter);
            Waited(q.(interval := next, slowDowns := q.slowDowns + 1, slowWaits := q.slowWaits + [wait]), d, wait, a.overshoot)
          else q.(phase := Done(Terminal(code)))
  }

  /** The poller after n iterations over an endless stream of answers. */
  function Run(interval: int, d: Context, answers: nat -> Answer, n: nat): Poller {
    Iterate(StepOf(d), Begin(interval), answers, n)
  }

  function StepOf(d: Context): (Poller, Answer) -> Poller {
    (p, a) => Step(p, d, a)
  }

  /** Nothing is sent and nothing changes after the answer that ends the poll. */
  lemma {:induction false} DoneStays(interval: int, d: Context, answers: nat -> Answer, k: nat, n: nat)
    requires k <= n && Run(interval, d, answers, k).phase.Done?
    ensures Run(interval, d, answers, n) == Run(interval, d, answers, k)
    decreases n
  {
    if k < n {
      DoneStays(interval, d, answers, k, n - 1);
    }
  }

  /** Under a context that ends, and if every request takes time, the poll ends. */
  lemma {:induction false} PollEnds(interval: int, d: Context, answers: nat -> Answer, n: nat)
    requires d.Until? && forall k: nat :: answers(k).latency > 0
    ensures var p := Run(interval, d, answers, n); p.phase.Polling? ==> n <= p.now && (n > 0 ==> p.now < d.t)
    ensures n > 0 && n >= d.t ==> Run(interval, d, answers, n).phase.Done?
  {
    if n > 0 {
      PollEnds(interval, d, answers, n - 1);
    }
  }

  /** The unbounded loop, over any stream of answers on which it ends, after n iterations at most. It returns at
      the first answer that ends the poll: a token, a terminal status, a failure or the end of the context. */
  method PollDeviceToken(interval: int, d: Context, answers: nat -> Answer, ghost n: nat) returns (p: Poller)
    requires Run(interval, d, answers, n).phase.Done?
    ensures p == Run(interval, d, answers, n)
  {
    p := Begin(interval);
    var k := 0;
    while true
      invariant k < n && p == Run(interval, d, answers, k) && p.phase.Polling?
      decreases n - k
    {
      var a := answers(k);
      ghost var next := Step(p, d, a);
      k := k + 1;
      if Expired(d, p.now) {
        p := p.(phase := Done(Ended(d.cause)));
        DoneStays(interval, d, answers, k, n);
        return;
      }
      p := Passed(p.(requests := p.requests + 1), d, a.latency);
      if p.phase.Done? || !a.response.Status? {
        if p.phase.Polling? {
          p := p.(phase := Done(if a.response.Token? then Granted else Failed(a.response.timeout)));
        }
        DoneStays(interval, d, answers, k, n);
        return;
      }
      var code := a.response.code;
      if code == 400 {
        p := p.(pending := p.pending + 1);
        if p.interval > 0 {
          p := Waited(p, d, p.interval, a.overshoot);
        }
      } else if code == 429 {
        var (bumped, wait) := SlowDownWait(p.interval, a.response.retryAfter);
        p := p.(interval := bumped, slowDowns := p.slowDowns + 1, slowWaits := p.slowWaits + [wait]);
        p := Waited(p, d, wait, a.overshoot);
      } else {
        p := p.(phase := Done(Terminal(code)));
      }
      assert p == next;
      if p.phase.Done? {
        DoneStays(interval, d, answers, k, n);
        return;
      }
    }
  }

  // ---------- which answer ends the poll, and how ----------

  /** The statuses pending and slow_down, on which polling goes on. */
  ghost predicate GoesOn(r: Response) {
    r.Status? && (r.code == 400 || r.code == 429)
  }

  /** The first k answers leave the poll going. */
  ghost predicate GoesOnTo(answers: nat -> Answer, k: nat) {
    forall j: nat :: j < k ==> GoesOn(answers(j).response)
  }

  /** What an answer that ends the poll makes of it: a token grants, a failed request fails and any other status
      is terminal. */
  ghost predicate EndsWith(r: Response, o: Outcome) {
    match r
    case Token => o == Granted
    case TransportError(timeout) => o == Failed(timeout)
    case Status(code, _) => code != 400 && code != 429 && o == Terminal(code)
  }

  /** Without a context that ends, the poll goes on exactly as long as every answer is pending or slow_down, and
      ends as the first other answer says. */
  lemma OutcomeExactly(interval: int, answers: nat -> Answer, n: nat)
    ensures Run(interval, Background, answers, n).phase.Polling? <==> GoesOnTo(answers, n)
    ensures forall o :: Run(interval, Background, answers, n).phase == Done(o)
                        <==> exists k: nat :: k < n && GoesOnTo(answers, k) && EndsWith(answers(k).response, o)
  {
    var step := StepOf(Background);
    forall p: Poller, a: Answer ensures Follows(step, p, a) {
      StepOutcome(p, a);
    }
    FirstEnd(step, Begin(interval), answers, n);
  }

  /** A step ends a poll as its answer says, and leaves one that has ended alone. */
  ghost predicate Follows(step: (Poller, Answer) -> Poller, p: Poller, a: Answer) {
    if p.phase.Done? then step(p, a) == p
    else && (step(p, a).phase.Polling? <==> GoesOn(a.response))
         && (forall o :: step(p, a).phase == Done(o) <==> EndsWith(a.response, o))
  }

  lemma {:induction false} FirstEnd(step: (Poller, Answer) -> Poller, p0: Poller, answers: nat -> Answer, n: nat)
    requires p0.phase.Polling? && forall p: Poller, a: Answer :: Follows(step, p, a)
    ensures Iterate(step, p0, answers, n).phase.Polling? <==> GoesOnTo(answers, n)
    ensures forall o :: Iterate(step, p0, answers, n).phase == Done(o)
                        <==> exists k: nat :: k < n && GoesOnTo(answers, k) && EndsWith(answers(k).response, o)
  {
    if n > 0 {
      FirstEnd(step, p0, answers, n - 1);
      var p, a := Iterate(step, p0, answers, n - 1), answers(n - 1);
      assert Follows(step, p, a);
      forall o ensures step(p, a).phase == Done(o)
                       <==> exists k: nat :: k < n && GoesOnTo(answers, k) && EndsWith(answers(k).response, o) {
        EndNext(step, p, answers, n, o);
      }
    }
  }

  lemma EndNext(step: (Poller, Answer) -> Poller, p: Poller, answers: nat -> Answer, n: nat, o: Outcome)
    requires n > 0 && Follows(step, p, answers(n - 1)) && (p.phase.Polling? <==> GoesOnTo(answers, n - 1))
    requires p.phase == Done(o) <==> exists k: nat :: k < n - 1 && GoesOnTo(answers, k) && EndsWith(answers(k).response, o)
    ensures step(p, answers(n - 1)).phase == Done(o)
            <==> exists k: nat :: k < n && GoesOnTo(answers, k) && EndsWith(answers(k).response, o)
  {
    if k: nat :| k < n && GoesOnTo(answers, k) && EndsWith(answers(k).response, o) {
      if k < n - 1 {
        assert !GoesOn(answers(k).response);
      }
    }
  }

  lemma StepOutcome(p: Poller, a: Answer)
    ensures Follows(StepOf(Background), p, a)
  {
  }

  /** When the answer to request k arrives if the context does not end before. */
  ghost function Arrival(interval: int, answers: nat -> Answer, k: nat): int {
    Run(interval, Background, answers, k).now + answers(k).latency
  }

  /** The context has ended by the time the answer to request k arrives or, if the poll goes on, the wait after it
      is over. */
  ghost predicate EndsDuring(interval: int, t: int, answers: nat -> Answer, k: nat) {
    || Arrival(interval, answers, k) >= t
    || (GoesOn(answers(k).response) && Run(interval, Background, answers, k + 1).now >= t)
  }

  /** Under a context that ends at t with some cause, the poll ends with that cause exactly if it gets to a request
      during which, or in the wait after which, t is reached; and otherwise as without a context. */
  lemma ContextExactly(interval: int, t: int, cause: Cause, answers: nat -> Answer, n: nat)
    ensures var p := Run(interval, Until(t, cause), answers, n);
      && ((exists k: nat :: k < n && GoesOnTo(answers, k) && EndsDuring(interval, t, answers, k)) ==>
            p.phase == Done(Ended(cause)))
      && ((forall k: nat :: k < n && GoesOnTo(answers, k) ==> !EndsDuring(interval, t, answers, k)) ==>
            p == Run(interval, Background, answers, n))
  {
    var free, under := StepOf(Background), StepOf(Until(t, cause));
    forall p: Poller, a: Answer ensures Follows(free, p, a) && CutShort(free, under, t, cause, p, a) {
      StepOutcome(p, a);
      StepUnder(p, t, cause, a);
    }
    CutAt(free, under, t, cause, Begin(interval), answers, n);
    forall k: nat ensures EndsDuring(interval, t, answers, k) <==> Reaches(free, t, Begin(interval), answers, k) {
      assert Iterate(free, Begin(interval), answers, k + 1)
          == free(Iterate(free, Begin(interval), answers, k), answers(k));
    }
  }

  /** A step under a context that ends at t is the free step, unless t comes first. */
  ghost predicate CutShort(free: (Poller, Answer) -> Poller, under: (Poller, Answer) -> Poller, t: int, cause: Cause,
      p: Poller, a: Answer) {
    if p.phase.Done? then under(p, a) == p
    else if p.now + a.latency >= t || (GoesOn(a.response) && free(p, a).now >= t)
    then under(p, a).phase == Done(Ended(cause)) else under(p, a) == free(p, a)
  }

  ghost predicate Reaches(free: (Poller, Answer) -> Poller, t: int, p0: Poller, answers: nat -> Answer, k: nat) {
    var p := Iterate(free, p0, answers, k);
    p.now + answers(k).latency >= t || (GoesOn(answers(k).response) && free(p, answers(k)).now >= t)
  }

  lemma {:induction false} CutAt(free: (Poller, Answer) -> Poller, under: (Poller, Answer) -> Poller, t: int,
      cause: Cause, p0: Poller, answers: nat -> Answer, n: nat)
    requires p0.phase.Polling? && forall p: Poller, a: Answer :: Follows(free, p, a)
    requires forall p: Poller, a: Answer :: CutShort(free, under, t, cause, p, a)
    ensures (exists k: nat :: k < n && GoesOnTo(answers, k) && Reaches(free, t, p0, answers, k)) ==>
              Iterate(under, p0, answers, n).phase == Done(Ended(cause))
    ensures (forall k: nat :: k < n && GoesOnTo(answers, k) ==> !Reaches(free, t, p0, answers, k)) ==>
              Iterate(under, p0, answers, n) == Iterate(free, p0, answers, n)
  {
    if n > 0 {
      CutAt(free, under, t, cause, p0, answers, n - 1);
      FirstEnd(free, p0, answers, n - 1);
      var b, p, a := Iterate(free, p0, answers, n - 1), Iterate(under, p0, answers, n - 1), answers(n - 1);
      assert CutShort(free, under, t, cause, p, a) && Follows(free, b, a);
      assert GoesOnTo(answers, n - 1) && Reaches(free, t, p0, answers, n - 1) ==> b.phase.Polling?;
    }
  }

  lemma StepUnder(p: Poller, t: int, cause: Cause, a: Answer)
    ensures CutShort(StepOf(Background), StepOf(Until(t, cause)), t, cause, p, a)
  {
  }

  /** Answers pending or slow_down among the first n. */
  function CountOf(answers: nat -> Answer, code: int, n: nat): nat {
    if n == 0 then 0
    else CountOf(answers, code, n - 1)
         + if answers(n - 1).response.Status? && answers(n - 1).response.code == code then 1 else 0
  }

  /** How long the poll waits after an answer: after pending the interval of the moment, if it is positive; after
      slow_down the seconds asked for, or five more than the interval of the moment, but a minute at most and
      nothing if the conversion of the seconds wraps below zero. A wait may end late. */
  ghost function WaitAfter(interval: int, r: Response, overshoot: nat): int
    requires r.Status?
  {
    if r.code == 400 then (if interval > 0 then interval + overshoot else 0)
    else
      var asked := if r.retryAfter.Seconds? && r.retryAfter.n >= 0 then Wrap64(r.retryAfter.n * 1_000_000_000)
                   else interval + 5_000_000_000;
      Max(if asked < 60_000_000_000 then asked else 60_000_000_000, 0) + overshoot
  }

  /** While the poll goes on, every request got an answer, pending and slow_down ones are counted, the interval is
      the initial one plus five seconds for each slow_down, and the next request is sent when the wait after the
      last answer is over. */
  lemma WaitsExactly(interval: int, answers: nat -> Answer, n: nat)
    requires GoesOnTo(answers, n)
    ensures var p := Run(interval, Background, answers, n);
      && p.phase.Polling? && p.requests == n
      && p.pending == CountOf(answers, 400, n) && p.slowDowns == CountOf(answers, 429, n)
      && p.interval == interval + 5_000_000_000 * CountOf(answers, 429, n)
      && (n > 0 ==> p.now == Arrival(interval, answers, n - 1)
                             + WaitAfter(interval + 5_000_000_000 * CountOf(answers, 429, n - 1),
                                         answers(n - 1).response, answers(n - 1).overshoot))
  {
    var step := StepOf(Background);
    forall p: Poller, a: Answer ensures Advances(step, p, a) {
      StepAdvances(p, a);
    }
    Counts(step, interval, answers, n);
    if n > 0 {
      Counts(step, interval, answers, n - 1);
      assert Advances(step, Iterate(step, Begin(interval), answers, n - 1), answers(n - 1));
      assert GoesOn(answers(n - 1).response);
    }
  }

  /** A step on a pending or slow_down answer counts it and waits. */
  ghost predicate Advances(step: (Poller, Answer) -> Poller, p: Poller, a: Answer) {
    p.phase.Polling? && GoesOn(a.response) ==>
      var q := step(p, a);
      && q.phase.Polling? && q.requests == p.requests + 1
      && q.now == p.now + a.latency + WaitAfter(p.interval, a.response, a.overshoot)
      && q.pending == p.pending + (if a.response.code == 400 then 1 else 0)
      && q.slowDowns == p.slowDowns + (if a.response.code == 429 then 1 else 0)
      && q.interval == p.interval + (if a.response.code == 429 then 5_000_000_000 else 0)
  }

  lemma StepAdvances(p: Poller, a: Answer)
    ensures Advances(StepOf(Background), p, a)
  {
  }

  lemma {:induction false} Counts(step: (Poller, Answer) -> Poller, interval: int, answers: nat -> Answer, n: nat)
    requires GoesOnTo(answers, n) && forall p: Poller, a: Answer :: Advances(step, p, a)
    ensures var p := Iterate(step, Begin(interval), answers, n);
      && p.phase.Polling? && p.requests == n
      && p.pending == CountOf(answers, 400, n) && p.slowDowns == CountOf(answers, 429, n)
      && p.interval == interval + 5_000_000_000 * CountOf(answers, 429, n)
  {
    if n > 0 {
      Counts(step, interval, answers, n - 1);
      assert Advances(step, Iterate(step, Begin(interval), answers, n - 1), answers(n - 1));
    }
  }

  ghost predicate Counted(interval: int, p: Poller) {
    && p.interval == interval + SLOW_DOWN_BUMP * p.slowDowns
    && |p.slowWaits| == p.slowDowns
    && (forall w :: w in p.slowWaits ==> w <= MAX_POLL_WAIT)
    && p.pending + p.slowDowns <= p.requests <= p.pending + p.slowDowns + 1
    && (p.phase.Polling? ==> p.requests == p.pending + p.slowDowns)
  }

  lemma StepCounts(interval: int, p: Poller, d: Context, a: Answer)
    requires Counted(interval, p)
    ensures Counted(interval, Step(p, d, a))
    ensures Step(p, d, a).phase.Polling? ==> p.phase.Polling? && Step(p, d, a).requests == p.requests + 1
  {
    if a.response.Status? {
      var waits := SlowDownWait(p.interval, a.response.retryAfter);
    }
  }

  /** After j slow_down answers the interval is the initial one plus 5j seconds, whatever their Retry-After; no
      slow_down wait exceeds a minute; and every request but the last was answered pending or slow_down. */
  lemma {:induction false} IntervalGrows(interval: int, d: Context, answers: nat -> Answer, n: nat)
    ensures Counted(interval, Run(interval, d, answers, n))
    ensures Run(interval, d, answers, n).phase.Polling? ==> Run(interval, d, answers, n).requests == n
  {
    if n > 0 {
      IntervalGrows(interval, d, answers, n - 1);
      StepCounts(interval, Run(interval, d, answers, n - 1), d, answers(n - 1));
    }
  }

  /** Under a context that ends at t or before, with a positive initial interval i, the k-th pending answer comes no
      earlier than (k - 1) i, so there are at most t / i + 1 of them, however many slow_down answers come between. */
  lemma PendingBound(interval: int, d: Context, t: int, answers: nat -> Answer, n: nat)
    requires interval > 0 && t >= 0 && d.Until? && d.t <= t
    ensures Run(interval, d, answers, n).pending <= t / interval + 1
  {
    PendingSpread(interval, d, answers, n);
    var k := Run(interval, d, answers, n).pending;
    if k > 0 {
      QuotientBound(k - 1, interval, t);
    }
  }

  ghost predicate Spread(interval: int, t: int, p: Poller) {
    && (p.phase.Polling? ==> p.pending * interval <= p.now)
    && (p.pending > 0 ==> (p.pending - 1) * interval < t)
  }

  lemma StepSpreads(interval: int, d: Context, p: Poller, a: Answer)
    requires interval > 0 && p.interval >= interval && d.Until? && Spread(interval, d.t, p)
    ensures Spread(interval, d.t, Step(p, d, a))
  {
    assert (p.pending + 1) * interval == p.pending * interval + interval;
    if a.response.Status? {
      var waits := SlowDownWait(p.interval, a.response.retryAfter);
    }
  }

  lemma PendingSpread(interval: int, d: Context, answers: nat -> Answer, n: nat)
    requires interval > 0 && d.Until?
    ensures Spread(interval, d.t, Run(interval, d, answers, n))
  {
    var inv := (p: Poller) => Counted(interval, p) && Spread(interval, d.t, p);
    forall p, a | inv(p) ensures inv(StepOf(d)(p, a)) {
      StepCounts(interval, p, d, a);
      StepSpreads(interval, d, p, a);
    }
    IterateKeeps(StepOf(d), Begin(interval), answers, n, inv);
  }

  lemma QuotientBound(k: nat, i: nat, t: int)
    requires i > 0 && k * i < t
    ensures k <= t / i
  {
    var q, r := t / i, t % i;
    assert t == i * q + r;
    SmallMultiple(i, k - q);
    assert k * i == i * q + i * (k - q);
  }

  // ---------- DeviceAuth ----------

  /** The interval the server asks for, or five seconds when it asks for none. */
  function InitialInterval(seconds: int): (i: int)
    ensures i > 0
    ensures 0 < seconds <= 9_223_372_036 ==> i == seconds * SECOND
    ensures -9_223_372_036 <= seconds <= 0 ==> i == 5_000_000_000
  {
    var i := Wrap64(seconds * SECOND);
    if i <= 0 then 5 * SECOND else i
  }

  /** The caller's context, cut short by the lifetime of the code if it has one. */
  function PollContext(parent: Context, expiresIn: int): Context {
    if expiresIn <= 0 then parent
    else
      var t := Wrap64(expiresIn * SECOND);
      if parent.Until? && parent.t <= t then parent else Until(t, DeadlineExceeded)
  }

  /** A poll that its context ended returns when the context ends, or at once if it had ended before; one that a
      request failed returns before that. */
  ghost predicate EndsInTime(d: Context, p: Poller) {
    && p.now >= 0
    && (p.phase.Polling? ==> !Expired(d, p.now) || p.now == 0)
    && (p.phase.Done? && p.phase.outcome.Failed? ==> !Expired(d, p.now))
    && (p.phase.Done? && p.phase.outcome.Ended? ==>
          d.Until? && p.phase.outcome.cause == d.cause && p.now == Max(d.t, 0))
  }

  lemma StepEndsInTime(d: Context, p: Poller, a: Answer)
    requires EndsInTime(d, p)
    ensures EndsInTime(d, Step(p, d, a))
  {
    if a.response.Status? {
      var waits := SlowDownWait(p.interval, a.response.retryAfter);
    }
  }

  lemma RunEndsInTime(interval: int, d: Context, answers: nat -> Answer, n: nat)
    ensures EndsInTime(d, Run(interval, d, answers, n))
  {
    var inv := (p: Poller) => EndsInTime(d, p);
    forall p, a | inv(p) ensures inv(StepOf(d)(p, a)) {
      StepEndsInTime(d, p, a);
    }
    IterateKeeps(StepOf(d), Begin(interval), answers, n, inv);
  }

  /** The code's own lifetime ends before the caller's context does, and after the poll began. */
  predicate CodeEndsFirst(parent: Context, expiresIn: int) {
    expiresIn > 0 && (parent.Background? || Max(Wrap64(expiresIn * SECOND), 0) < parent.t)
  }

  datatype AuthResult = Authorized | CodeExpired | NotAuthorized(outcome: Outcome)

  /** An error that reads as an exceeded deadline. */
  predicate DeadlineError(o: Outcome) {
    o == Ended(DeadlineExceeded) || o == Failed(true)
  }

  /** The poll of DeviceAuth. The code is reported as expired exactly when the poll was ended by its context and the
      code's lifetime ends before the caller's context, or when a request timed out and the code has a lifetime. */
  method AwaitToken(parent: Context, seconds: int, expiresIn: int, answers: nat -> Answer,
      ghost n: nat) returns (r: AuthResult)
    requires Run(InitialInterval(seconds), PollContext(parent, expiresIn), answers, n).phase.Done?
    ensures var outcome := Run(InitialInterval(seconds), PollContext(parent, expiresIn), answers, n).phase.outcome;
            r == if outcome.Granted? then Authorized
                 else if outcome.Ended? && CodeEndsFirst(parent, expiresIn) then CodeExpired
                 else if outcome == Failed(true) && expiresIn > 0 then CodeExpired
                 else NotAuthorized(outcome)
  {
    RunEndsInTime(InitialInterval(seconds), PollContext(parent, expiresIn), answers, n);
    var p := PollDeviceToken(InitialInterval(seconds), PollContext(parent, expiresIn), answers, n);
    if p.phase.outcome == Granted {
      return Authorized;
    }
    if expiresIn > 0 && DeadlineError(p.phase.outcome) && !Expired(parent, p.now) {
      return CodeExpired;
    }
    r := NotAuthorized(p.phase.outcome);
  }

  /** A code that expires after e seconds is polled with at most e / i + 1 pending answers, whatever the caller's
      context, i being the interval in seconds that the server asked for, or five if it asked for none. */
  lemma DeviceAuthBound(parent: Context, seconds: int, expiresIn: int, answers: nat -> Answer, n: nat)
    requires expiresIn > 0
    ensures var i, t := InitialInterval(seconds), Max(Wrap64(expiresIn * SECOND), 0);
            var pending := Run(i, PollContext(parent, expiresIn), answers, n).pending;
            && pending <= t / i + 1
            && (-TWO63 <= seconds * SECOND < TWO63 && expiresIn * SECOND < TWO63 ==>
                  pending <= expiresIn / (if seconds > 0 then seconds else 5) + 1)
  {
    var d := PollContext(parent, expiresIn);
    PendingBound(InitialInterval(seconds), d, Max(Wrap64(expiresIn * SECOND), 0), answers, n);
    if -TWO63 <= seconds * SECOND < TWO63 && expiresIn * SECOND < TWO63 {
      ScaledQuotient(expiresIn, if seconds > 0 then seconds else 5, SECOND);
    }
  }

  lemma ScaledQuotient(a: nat, b: nat, c: nat)
    requires b > 0 && c > 0
    ensures b * c > 0 && (a * c) / (b * c) == a / b
  {
    var q, r := a / b, a % b;
    assert a == b * q + r;
    Scale(a, b, q, r, c);
    QuotientIs(a * c, b * c, q, r * c);
  }

  lemma Scale(a: nat, b: nat, q: nat, r: nat, c: nat)
    requires a == b * q + r && r < b && c > 0
    ensures a * c == b * c * q + r * c && 0 <= r * c < b * c
  {
    assert a * c == (b * q) * c + r * c;
    assert (b * q) * c == b * c * q;
    assert (b - r - 1) * c >= 0;
  }
}
