/** What a node does when its `process()` raises: skip, retry or fail, for plain and for streaming nodes. */
module ErrorPolicy {
  import opened Wrappers

  datatype ErrorAction = Skip | Retry | Fail

  datatype Config = Config(onError: ErrorAction, maxRetries: nat, hasSink: bool)

  /** `1 + max_retries` under `retry`, one otherwise. */
  function Attempts(config: Config): (n: nat)
    ensures n >= 1 && n <= 1 + config.maxRetries
  {
    if config.onError.Retry? then 1 + config.maxRetries else 1
  }

  datatype Stats = Stats(processed: nat, errors: nat, retries: nat, dropped: nat, deadLettered: nat, failures: nat) {
    function Plus(other: Stats): Stats {
      Stats(processed + other.processed, errors + other.errors, retries + other.retries,
            dropped + other.dropped, deadLettered + other.deadLettered, failures + other.failures)
    }
  }

  const ZERO := Stats(0, 0, 0, 0, 0, 0)

  /** How one message ended. */
  datatype Verdict = Finished | Cancelled | GaveUp | StoppedInBackoff

  // ---------- what the outside world may do ----------

  /** One run of a plain `process()`. */
  datatype Plain<+R> = Returned(value: R) | Raised

  /** One run of a generator `process()`: what it would yield, how it ends after that, and whether
      closing it halfway raises. */
  datatype Stream<+T> = Stream(items: seq<T>, raises: bool, closeRaises: bool)

  /** `stopping(a)`: the stop event fires during the backoff after attempt `a`.
      `cancelled(a, i)`: the cancellation check before the `i`-th `next` of attempt `a` says yes.
      `sinkRaises(i)`: the `on_item` callback raises on the `i`-th item of an attempt. */
  datatype World = World(stopping: nat -> bool, cancelled: (nat, nat) -> bool, sinkRaises: nat -> bool)

  // ---------- one message ----------

  /** Everything one `execute` call does: the items handed over, the value returned, how it ended,
      after how many attempts, and what it adds to the counters. */
  datatype Outcome<T, R> = Outcome(
    log: seq<T>,
    returned: Option<R>,
    verdict: Verdict,
    lastAttempt: nat,
    stats: Stats)

  /** `NodeFailure` leaves the call exactly when the policy gives up under `fail`. */
  predicate RaisesNodeFailure<T, R>(config: Config, outcome: Outcome<T, R>) {
    outcome.verdict.GaveUp? && config.onError.Fail?
  }

  /** The counters of a message that ended with `verdict` after `retries` retries; `lastFailed` says
      whether its last attempt raised. */
  function Bill(config: Config, verdict: Verdict, retries: nat): Stats {
    match verdict
    case Finished => Stats(1, retries, retries, 0, 0, 0)
    case Cancelled => Stats(1, retries, retries, 0, 0, 0)
    case StoppedInBackoff => Stats(0, retries, retries, 1, 0, 0)
    case GaveUp =>
      Stats(0, retries + 1, retries,
            if config.onError.Fail? then 0 else 1,
            if config.hasSink then 1 else 0,
            if config.onError.Fail? then 1 else 0)
  }

  // ---------- plain process() ----------

  function ExecutePlain<R>(config: Config, run: nat -> Plain<R>, w: World, attempt: nat): (o: Outcome<(), R>)
    requires attempt < Attempts(config)
    ensures o.lastAttempt < Attempts(config)
    decreases Attempts(config) - attempt
  {
    match run(attempt)
    case Returned(value) => Outcome([], Some(value), Finished, attempt, Bill(config, Finished, attempt))
    case Raised =>
      if attempt + 1 == Attempts(config) then Outcome([], None, GaveUp, attempt, Bill(config, GaveUp, attempt))
      else if w.stopping(attempt) then
        Outcome([], None, StoppedInBackoff, attempt, Bill(config, StoppedInBackoff, attempt + 1))
      else ExecutePlain(config, run, w, attempt + 1)
  }

  /** Attempts `from` to `a - 1` raised, and no stop was seen in the backoff after any of them. */
  ghost predicate PlainReaches<R>(run: nat -> Plain<R>, w: World, from: nat, a: nat) {
    forall b :: from <= b < a ==> run(b).Raised? && !w.stopping(b)
  }

  lemma PlainReachesOn<R>(run: nat -> Plain<R>, w: World, from: nat, a: nat)
    requires from < a
    ensures PlainReaches(run, w, from, a) <==>
      run(from).Raised? && !w.stopping(from) && PlainReaches(run, w, from + 1, a)
  {
  }

  /** How a plain call ends: at attempt `a` with the value that attempt returned, in the backoff after attempt
      `a`, or after attempt `a` as the last one allowed. */
  ghost predicate PlainEnds<R>(config: Config, run: nat -> Plain<R>, w: World, from: nat, a: nat, o: Outcome<(), R>) {
    var allowed := if config.onError.Retry? then 1 + config.maxRetries else 1;
    && from <= a < allowed && o.log == [] && o.lastAttempt == a && PlainReaches(run, w, from, a)
    && match run(a)
       case Returned(value) =>
         o.verdict == Finished && o.returned == Some(value) && o.stats.retries == a
       case Raised =>
         && o.returned == None
         && if a + 1 == allowed then o.verdict == GaveUp && o.stats.retries == a
            else w.stopping(a) && o.verdict == StoppedInBackoff && o.stats.retries == a + 1
  }

  lemma {:induction false} PlainEndsSomewhere<R>(config: Config, run: nat -> Plain<R>, w: World, from: nat)
    requires from < Attempts(config)
    ensures
      var o := ExecutePlain(config, run, w, from);
      PlainEnds(config, run, w, from, o.lastAttempt, o)
    decreases Attempts(config) - from
  {
    if run(from).Raised? && from + 1 < Attempts(config) && !w.stopping(from) {
      PlainEndsSomewhere(config, run, w, from + 1);
      var a := ExecutePlain(config, run, w, from + 1).lastAttempt;
      PlainReachesOn(run, w, from, a);
    }
  }

  /** A plain call, attempt by attempt: it is finished exactly when some allowed attempt returns, all before
      it having raised with no stop in between, and then its value is handed back; it gives up exactly when
      all allowed attempts raise with no stop in between; and it is abandoned exactly when a stop is seen in
      the backoff after an attempt that may be retried. One attempt is allowed, or `1 + max_retries` under
      `retry`. */
  lemma PlainExactly<R>(config: Config, run: nat -> Plain<R>, w: World)
    ensures
      var o := ExecutePlain(config, run, w, 0);
      var allowed := if config.onError.Retry? then 1 + config.maxRetries else 1;
      && (forall a :: 0 <= a < allowed && PlainReaches(run, w, 0, a) && run(a).Returned? ==>
            o.verdict == Finished && o.returned == Some(run(a).value))
      && (o.verdict.Finished? <==>
            exists a :: 0 <= a < allowed && PlainReaches(run, w, 0, a) && run(a).Returned?)
      && (o.verdict.GaveUp? <==> PlainReaches(run, w, 0, allowed - 1) && run(allowed - 1).Raised?)
      && (o.verdict.StoppedInBackoff? <==>
            exists a :: 0 <= a < allowed - 1 && PlainReaches(run, w, 0, a) && run(a).Raised? && w.stopping(a))
      && !o.verdict.Cancelled? && (o.returned.Some? <==> o.verdict.Finished?)
  {
    PlainEndsSomewhere(config, run, w, 0);
    var o := ExecutePlain(config, run, w, 0);
    hide ExecutePlain;
    assert PlainReaches(run, w, 0, o.lastAttempt);
  }

  // ---------- generator process() ----------

  datatype DrainEnd = Exhausted | Closed | Broke

  /** How far one attempt gets, and why it stops there. */
  datatype Drained = Drained(count: nat, end: DrainEnd)

  /** One attempt from its `i`-th `next` on. `streamed` says whether there is an `on_item`. */
  function Drain<T>(s: Stream<T>, w: World, attempt: nat, streamed: bool, i: nat): (d: Drained)
    requires i <= |s.items|
    ensures i <= d.count <= |s.items|
    decreases |s.items| - i
  {
    if w.cancelled(attempt, i) then Drained(i, if i > 0 && s.closeRaises then Broke else Closed)
    else if i == |s.items| then Drained(i, if s.raises then Broke else Exhausted)
    else if streamed && w.sinkRaises(i) then Drained(i + 1, Broke)
    else Drain(s, w, attempt, streamed, i + 1)
  }

  function ExecuteStream<T>(config: Config, run: nat -> Stream<T>, w: World, streamed: bool,
                            attempt: nat): (o: Outcome<T, seq<T>>)
    requires attempt < Attempts(config)
    ensures o.lastAttempt < Attempts(config)
    decreases Attempts(config) - attempt
  {
    var d := Drain(run(attempt), w, attempt, streamed, 0);
    var handed := run(attempt).items[..d.count];
    var log := if streamed then handed else [];
    var collected := if streamed then None else Some(handed);
    match d.end
    case Exhausted => Outcome(log, collected, Finished, attempt, Bill(config, Finished, attempt))
    case Closed => Outcome(log, collected, Cancelled, attempt, Bill(config, Cancelled, attempt))
    case Broke =>
      if d.count > 0 || attempt + 1 == Attempts(config) then
        Outcome(log, None, GaveUp, attempt, Bill(config, GaveUp, attempt))
      else if w.stopping(attempt) then
        Outcome([], None, StoppedInBackoff, attempt, Bill(config, StoppedInBackoff, attempt + 1))
      else ExecuteStream(config, run, w, streamed, attempt + 1)
  }

  /** One attempt in terms of how far it got. */
  lemma StreamAttempt<T>(config: Config, run: nat -> Stream<T>, w: World, streamed: bool, attempt: nat)
    requires attempt < Attempts(config)
    ensures
      var o := ExecuteStream(config, run, w, streamed, attempt);
      var d := Drain(run(attempt), w, attempt, streamed, 0);
      var handed := run(attempt).items[..d.count];
      var log := if streamed then handed else [];
      && (!d.end.Broke? ==>
            var verdict := if d.end.Exhausted? then Finished else Cancelled;
            o == Outcome(log, if streamed then None else Some(handed), verdict, attempt,
                         Bill(config, verdict, attempt)))
      && (d.end.Broke? && (d.count > 0 || attempt + 1 == Attempts(config)) ==>
            o == Outcome(log, None, GaveUp, attempt, Bill(config, GaveUp, attempt)))
      && (d.end.Broke? && d.count == 0 && attempt + 1 < Attempts(config) ==>
            o == if w.stopping(attempt)
                 then Outcome([], None, StoppedInBackoff, attempt, Bill(config, StoppedInBackoff, attempt + 1))
                 else ExecuteStream(config, run, w, streamed, attempt + 1))
  {
    hide Drain, Bill;
  }

  // ---------- which attempt of a generator ends the call, and how ----------

  /** The first place at which draining stops: a cancellation, the end of the generator, or a receiver that
      raises on the item just produced. */
  ghost predicate StopsAt<T>(s: Stream<T>, w: World, attempt: nat, streamed: bool, i: nat) {
    i <= |s.items| && (w.cancelled(attempt, i) || i == |s.items| || (streamed && w.sinkRaises(i)))
  }

  /** An attempt ends at the first place it stops: closed by a cancellation, unless closing raises after
      something was yielded; run to its end, unless it raises there; or broken off by its receiver, which
      has had that item. */
  lemma {:induction false} DrainExactly<T>(s: Stream<T>, w: World, attempt: nat, streamed: bool, i: nat, stop: nat)
    requires i <= stop && StopsAt(s, w, attempt, streamed, stop)
    requires forall k :: i <= k < stop ==> !StopsAt(s, w, attempt, streamed, k)
    ensures
      Drain(s, w, attempt, streamed, i) ==
        if w.cancelled(attempt, stop) then Drained(stop, if stop > 0 && s.closeRaises then Broke else Closed)
        else if stop == |s.items| then Drained(stop, if s.raises then Broke else Exhausted)
        else Drained(stop + 1, Broke)
    decreases stop - i
  {
    if i < stop {
      assert !StopsAt(s, w, attempt, streamed, i);
      DrainExactly(s, w, attempt, streamed, i + 1, stop);
    }
  }

  lemma {:induction false} FirstStop<T>(s: Stream<T>, w: World, attempt: nat, streamed: bool, i: nat)
    returns (stop: nat)
    requires i <= |s.items|
    ensures i <= stop && StopsAt(s, w, attempt, streamed, stop)
    ensures forall k :: i <= k < stop ==> !StopsAt(s, w, attempt, streamed, k)
    decreases |s.items| - i
  {
    if StopsAt(s, w, attempt, streamed, i) { stop := i; } else { stop := FirstStop(s, w, attempt, streamed, i + 1); }
  }

  /** The attempt raises before it has yielded anything: the only failure that is retried. */
  predicate FailsSilently<T>(s: Stream<T>, w: World, attempt: nat) {
    !w.cancelled(attempt, 0) && s.items == [] && s.raises
  }

  lemma SilentIs<T>(s: Stream<T>, w: World, attempt: nat, streamed: bool)
    ensures FailsSilently(s, w, attempt) <==> Drain(s, w, attempt, streamed, 0) == Drained(0, Broke)
  {
    var stop := FirstStop(s, w, attempt, streamed, 0);
    DrainExactly(s, w, attempt, streamed, 0, stop);
  }

  ghost predicate StreamReaches<T>(run: nat -> Stream<T>, w: World, from: nat, a: nat) {
    forall b :: from <= b < a ==> FailsSilently(run(b), w, b) && !w.stopping(b)
  }

  /** How a streaming call ends at attempt `a`. */
  ghost predicate StreamEnds<T>(config: Config, run: nat -> Stream<T>, w: World, streamed: bool, from: nat, a: nat,
                                o: Outcome<T, seq<T>>) {
    var allowed := if config.onError.Retry? then 1 + config.maxRetries else 1;
    && from <= a < allowed && o.lastAttempt == a && StreamReaches(run, w, from, a)
    && if FailsSilently(run(a), w, a) then
         && o.log == [] && o.returned == None
         && if a + 1 == allowed then o.verdict == GaveUp && o.stats.retries == a
            else w.stopping(a) && o.verdict == StoppedInBackoff && o.stats.retries == a + 1
       else
         var d := Drain(run(a), w, a, streamed, 0);
         var handed := run(a).items[..d.count];
         && o.verdict == (match d.end case Exhausted => Finished case Closed => Cancelled case Broke => GaveUp)
         && o.log == (if streamed then handed else [])
         && o.returned == (if streamed || d.end.Broke? then None else Some(handed)) && o.stats.retries == a
  }

  lemma {:induction false} StreamEndsSomewhere<T>(config: Config, run: nat -> Stream<T>, w: World, streamed: bool,
                                                  from: nat)
    requires from < Attempts(config)
    ensures
      var o := ExecuteStream(config, run, w, streamed, from);
      StreamEnds(config, run, w, streamed, from, o.lastAttempt, o)
    decreases Attempts(config) - from
  {
    hide Drain;
    SilentIs(run(from), w, from, streamed);
    if FailsSilently(run(from), w, from) && from + 1 < Attempts(config) && !w.stopping(from) {
      StreamEndsSomewhere(config, run, w, streamed, from + 1);
    }
  }

  /** A streaming call, attempt by attempt: an attempt that does not fail silently ends the call the way its
      draining ended, and hands over what was drained; the call gives up without output exactly when all
      allowed attempts fail silently with no stop in between; and it is abandoned exactly when a stop is seen
      in the backoff after a silent failure that may be retried. */
  lemma StreamExactly<T>(config: Config, run: nat -> Stream<T>, w: World, streamed: bool)
    ensures
      var o := ExecuteStream(config, run, w, streamed, 0);
      var allowed := if config.onError.Retry? then 1 + config.maxRetries else 1;
      && (forall a :: 0 <= a < allowed && StreamReaches(run, w, 0, a) && !FailsSilently(run(a), w, a) ==>
            StreamEnds(config, run, w, streamed, 0, a, o))
      && (o.verdict.GaveUp? && FailsSilently(run(o.lastAttempt), w, o.lastAttempt) <==>
            StreamReaches(run, w, 0, allowed - 1) && FailsSilently(run(allowed - 1), w, allowed - 1))
      && (o.verdict.StoppedInBackoff? <==>
            exists a ::
              0 <= a < allowed - 1 && StreamReaches(run, w, 0, a) && FailsSilently(run(a), w, a) && w.stopping(a))
  {
    StreamEndsSomewhere(config, run, w, streamed, 0);
    var o := ExecuteStream(config, run, w, streamed, 0);
    hide ExecuteStream, Drain, FailsSilently;
    assert StreamReaches(run, w, 0, o.lastAttempt);
  }

  // ---------- what streaming delivery guarantees ----------

  lemma {:induction false} DrainReach<T>(s: Stream<T>, w: World, attempt: nat, streamed: bool, i: nat)
    requires i <= |s.items|
    ensures
      var d := Drain(s, w, attempt, streamed, i);
      && (forall k :: i <= k < d.count ==> !w.cancelled(attempt, k))
      && (d.end.Exhausted? <==>
          (&& d.count == |s.items| && !s.raises
           && (forall k :: i <= k <= d.count ==> !w.cancelled(attempt, k))
           && (forall k :: i <= k < d.count ==> !(streamed && w.sinkRaises(k)))))
      && (d.end.Closed? ==> w.cancelled(attempt, d.count))
    decreases |s.items| - i
  {
    if !w.cancelled(attempt, i) && i < |s.items| && !(streamed && w.sinkRaises(i)) {
      DrainReach(s, w, attempt, streamed, i + 1);
    }
  }

  /** Streaming delivery is at most one attempt. Whatever each attempt does, whenever a cancellation is
      seen and whenever the receiver raises: the items handed over are a prefix of what one single
      attempt yields, every earlier attempt of the same call yielded nothing and raised, there are at
      most `max_retries` retries, and the items are complete exactly when that attempt ran to its end. */
  lemma {:induction false} AtMostOneAttemptDelivers<T>(config: Config, run: nat -> Stream<T>, w: World, attempt: nat)
    requires attempt < Attempts(config)
    ensures
      var o := ExecuteStream(config, run, w, true, attempt);
      var last := run(o.lastAttempt);
      && attempt <= o.lastAttempt
      && o.lastAttempt <= config.maxRetries
      && o.log <= last.items
      && (forall a :: attempt <= a < o.lastAttempt ==> run(a).items == [] && run(a).raises)
      && (o.verdict.Finished? <==>
          (&& o.log == last.items && !last.raises
           && (forall k :: 0 <= k <= |o.log| ==> !w.cancelled(o.lastAttempt, k))
           && (forall k :: 0 <= k < |o.log| ==> !w.sinkRaises(k))))
      && (o.verdict.Cancelled? ==> w.cancelled(o.lastAttempt, |o.log|))
      && (forall k :: 0 <= k < |o.log| ==> !w.cancelled(o.lastAttempt, k))
      && o.stats.retries <= config.maxRetries
    decreases Attempts(config) - attempt
  {
    DrainReach(run(attempt), w, attempt, true, 0);
    var d := Drain(run(attempt), w, attempt, true, 0);
    if d.end.Broke? && d.count == 0 && attempt + 1 < Attempts(config) && !w.stopping(attempt) {
      AtMostOneAttemptDelivers(config, run, w, attempt + 1);
    }
  }

  // ---------- accounting ----------

  /** One `execute` call, plain or streaming, with everything the world does during it. */
  datatype Job<T, R> =
    | PlainJob(plain: nat -> Plain<R>, w: World)
    | StreamJob(stream: nat -> Stream<T>, w: World, streamed: bool)

  /** How one call ended and what it added. */
  datatype Entry = Entry(verdict: Verdict, stats: Stats)

  function EntryOf<T, R>(config: Config, job: Job<T, R>): Entry {
    match job
    case PlainJob(plain, w) => var o := ExecutePlain(config, plain, w, 0); Entry(o.verdict, o.stats)
    case StreamJob(stream, w, streamed) =>
      var o := ExecuteStream(config, stream, w, streamed, 0);
      Entry(o.verdict, o.stats)
  }

  function Ledger<T, R>(config: Config, jobs: seq<Job<T, R>>): (entries: seq<Entry>)
    ensures |entries| == |jobs|
  {
    seq(|jobs|, i requires 0 <= i < |jobs| => EntryOf(config, jobs[i]))
  }

  function Total(entries: seq<Entry>): Stats {
    if entries == [] then ZERO else Total(entries[..|entries| - 1]).Plus(entries[|entries| - 1].stats)
  }

  function CountOf(entries: seq<Entry>, verdict: Verdict): nat {
    if entries == [] then 0
    else CountOf(entries[..|entries| - 1], verdict) + if entries[|entries| - 1].verdict == verdict then 1 else 0
  }

  lemma {:induction false} PlainBill<R>(config: Config, run: nat -> Plain<R>, w: World, attempt: nat)
    returns (retries: nat)
    requires attempt < Attempts(config)
    ensures var o := ExecutePlain(config, run, w, attempt); o.stats == Bill(config, o.verdict, retries)
    decreases Attempts(config) - attempt
  {
    var o := ExecutePlain(config, run, w, attempt);
    retries := if o.verdict.StoppedInBackoff? then o.lastAttempt + 1 else o.lastAttempt;
    if run(attempt).Raised? && attempt + 1 < Attempts(config) && !w.stopping(attempt) {
      retries := PlainBill(config, run, w, attempt + 1);
    }
  }

  lemma {:induction false} StreamBill<T>(config: Config, run: nat -> Stream<T>, w: World, streamed: bool, attempt: nat)
    returns (retries: nat)
    requires attempt < Attempts(config)
    ensures var o := ExecuteStream(config, run, w, streamed, attempt); o.stats == Bill(config, o.verdict, retries)
    decreases Attempts(config) - attempt
  {
    var o := ExecuteStream(config, run, w, streamed, attempt);
    retries := if o.verdict.StoppedInBackoff? then o.lastAttempt + 1 else o.lastAttempt;
    var d := Drain(run(attempt), w, attempt, streamed, 0);
    if d.end.Broke? && d.count == 0 && attempt + 1 < Attempts(config) && !w.stopping(attempt) {
      retries := StreamBill(config, run, w, streamed, attempt + 1);
    }
  }

  /** A single call adds one to exactly one of processed, dropped and failed, and so on. */
  lemma EntryBalances<T, R>(config: Config, job: Job<T, R>)
    ensures
      var e := EntryOf(config, job);
      var gaveUp := if e.verdict.GaveUp? then 1 else 0;
      && e.stats.processed + e.stats.dropped + e.stats.failures == 1
      && e.stats.errors == e.stats.retries + gaveUp
      && e.stats.deadLettered == (if config.hasSink then gaveUp else 0)
      && e.stats.failures == (if config.onError.Fail? then gaveUp else 0)
      && e.stats.dropped ==
           (if e.verdict.StoppedInBackoff? then 1 else 0) + (if config.onError.Fail? then 0 else gaveUp)
  {
    match job
    case PlainJob(plain, w) => var r := PlainBill(config, plain, w, 0);
    case StreamJob(stream, w, streamed) => var r := StreamBill(config, stream, w, streamed, 0);
  }

  /** The accounting law, over any sequence of calls: every call is processed, dropped or failed; every
      error is a retry or a give-up; exactly the give-ups reach a configured sink; and a drop that is
      not a give-up is a stop during backoff. */
  lemma {:induction false} AccountingLaw<T, R>(config: Config, jobs: seq<Job<T, R>>)
    ensures
      var entries := Ledger(config, jobs);
      var t := Total(entries);
      var giveUps := CountOf(entries, GaveUp);
      && t.processed + t.dropped + t.failures == |jobs|
      && t.errors == t.retries + giveUps
      && t.deadLettered == (if config.hasSink then giveUps else 0)
      && t.failures == (if config.onError.Fail? then giveUps else 0)
      && t.dropped == CountOf(entries, StoppedInBackoff) + (if config.onError.Fail? then 0 else giveUps)
  {
    if jobs != [] {
      var n := |jobs| - 1;
      AccountingLaw(config, jobs[..n]);
      assert Ledger(config, jobs)[..n] == Ledger(config, jobs[..n]);
      EntryBalances(config, jobs[n]);
    }
  }

  // ---------- the policy object ----------

  class Policy<T(!new), R(!new)> {
    const config: Config
    var stats: Stats

    constructor (config: Config)
      ensures this.config == config && stats == ZERO
    {
      this.config := config;
      stats := ZERO;
    }

    /** Dead-letters the message and applies the terminal action; `failed` is `NodeFailure`. */
    method GiveUp() returns (failed: bool)
      modifies this
      ensures failed <==> config.onError.Fail?
      ensures stats == old(stats).(
        deadLettered := old(stats.deadLettered) + if config.hasSink then 1 else 0,
        failures := old(stats.failures) + if config.onError.Fail? then 1 else 0,
        dropped := old(stats.dropped) + if config.onError.Fail? then 0 else 1)
    {
      if config.hasSink {
        stats := stats.(deadLettered := stats.deadLettered + 1);
      }
      if config.onError.Fail? {
        stats := stats.(failures := stats.failures + 1);
        return true;
      }
      stats := stats.(dropped := stats.dropped + 1);
      failed := false;
    }

    method Execute(run: nat -> Plain<R>, w: World) returns (returned: Option<R>, failed: bool)
      modifies this
      ensures
        var o := ExecutePlain(config, run, w, 0);
        returned == o.returned && failed == RaisesNodeFailure(config, o) && stats == old(stats).Plus(o.stats)
    {
      var attempts := Attempts(config);
      var attempt := 0;
      while attempt < attempts
        invariant attempt < attempts
        invariant ExecutePlain(config, run, w, 0) == ExecutePlain(config, run, w, attempt)
        invariant stats == old(stats).(errors := old(stats.errors) + attempt, retries := old(stats.retries) + attempt)
        decreases attempts - attempt
      {
        match run(attempt)
        case Returned(value) =>
          stats := stats.(processed := stats.processed + 1);
          return Some(value), false;
        case Raised =>
          stats := stats.(errors := stats.errors + 1);
          if attempts - attempt - 1 == 0 {
            break;
          }
          stats := stats.(retries := stats.retries + 1);
          if w.stopping(attempt) {
            stats := stats.(dropped := stats.dropped + 1);
            return None, false;
          }
          attempt := attempt + 1;
      }
      failed := GiveUp();
      returned := None;
    }

    /** Drains one attempt, handing each item over as it comes. */
    method DrainAttempt(gen: Stream<T>, w: World, attempt: nat, streamed: bool)
      returns (items: seq<T>, end: DrainEnd)
      ensures |items| <= |gen.items| && items == gen.items[..|items|]
      ensures Drained(|items|, end) == Drain(gen, w, attempt, streamed, 0)
    {
      items := [];
      while true
        invariant |items| <= |gen.items| && items == gen.items[..|items|]
        invariant Drain(gen, w, attempt, streamed, 0) == Drain(gen, w, attempt, streamed, |items|)
        decreases |gen.items| - |items|
      {
        if w.cancelled(attempt, |items|) {
          return items, if |items| > 0 && gen.closeRaises then Broke else Closed;
        }
        if |items| == |gen.items| {
          return items, if gen.raises then Broke else Exhausted;
        }
        var i := |items|;
        items := items + [gen.items[i]];
        if streamed && w.sinkRaises(i) {
          return items, Broke;
        }
      }
    }

    /** The streaming form. `log` is what `on_item` was called with. */
    method ExecuteGenerator(run: nat -> Stream<T>, w: World, streamed: bool)
      returns (log: seq<T>, returned: Option<seq<T>>, failed: bool)
      modifies this
      ensures
        var o := ExecuteStream(config, run, w, streamed, 0);
        log == o.log && returned == o.returned && failed == RaisesNodeFailure(config, o)
        && stats == old(stats).Plus(o.stats)
    {
      hide Drain, Attempts, ExecuteStream;
      var attempts := Attempts(config);
      var attempt := 0;
      while attempt < attempts
        invariant attempt < attempts
        invariant ExecuteStream(config, run, w, streamed, 0) == ExecuteStream(config, run, w, streamed, attempt)
        invariant stats == old(stats).(errors := old(stats.errors) + attempt, retries := old(stats.retries) + attempt)
        decreases attempts - attempt
      {
        StreamAttempt(config, run, w, streamed, attempt);
        var items, end := DrainAttempt(run(attempt), w, attempt, streamed);
        log := if streamed then items else [];
        if !end.Broke? {
          stats := stats.(processed := stats.processed + 1);
          return log, if streamed then None else Some(items), false;
        }
        stats := stats.(errors := stats.errors + 1);
        if |items| > 0 {
          failed := GiveUp();
          return log, None, failed;
        }
        if attempts - attempt - 1 == 0 {
          break;
        }
        stats := stats.(retries := stats.retries + 1);
        if w.stopping(attempt) {
          stats := stats.(dropped := stats.dropped + 1);
          return [], None, false;
        }
        attempt := attempt + 1;
      }
      failed := GiveUp();
      log, returned := [], None;
    }
  }
}
