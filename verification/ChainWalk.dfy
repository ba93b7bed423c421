/**
 * The walk over a chain of models: retries inside each model, fallback between models, one deadline over
 * everything. The clock, the provider, the wallet and the jitter are parameters.
 */
module ChainWalk {
  import opened Text
  import opened Errors
  import opened Pricing

  datatype Backoff = NoBackoff | Fixed | Exponential

  datatype RetryPolicy = RetryPolicy(maxAttempts: nat, backoff: Backoff, initialDelayMs: nat, jitter: bool)

  /** One provider call: an answer, whose settlement may still fail, or a classified error. */
  datatype Reply = Answer(usage: UsageUnits, settles: bool) | Error(cls: FailureClass)

  /** `clock(k)` is the k-th reading, `reply(k)` what the k-th call meets, `random(k)` the jitter drawn after it. */
  datatype World = World(clock: nat -> int, reply: nat -> Reply, random: nat -> real, usable: string -> bool)

  /** The deadline is fixed once; positions index the chain and attempts count from one. */
  datatype Walk = Walk(chain: seq<string>, policy: RetryPolicy, deadline: int, usable: string -> bool)

  datatype Event =
    | Skipped(pos: nat)
    | Attempt(pos: nat, nth: nat, at: int, reply: Reply)
    | Waited(pos: nat, nth: nat, cls: FailureClass, from: int, delay: int)
    | NoRoom(pos: nat, nth: nat, cls: FailureClass, from: int, delay: int)
    | DeadlinePassed(pos: nat, nth: nat, at: int)

  datatype Outcome =
    | Succeeded(pos: nat, charge: nat)
    | Failed(cls: FailureClass, providerReached: bool)
    | PricingThrew

  predicate SettledAnswer(r: Reply) {
    r.Answer? && r.settles
  }

  /** The class a failed attempt ends with; a settlement that throws is UNKNOWN. */
  function ClassOf(r: Reply): FailureClass {
    match r
    case Answer(_, _) => Unknown
    case Error(cls) => cls
  }

  // --- What a well-formed trace is -----------------------------------------------------------------

  /** The event ends its model and hands over to the next one. */
  predicate FallsBack(w: Walk, e: Event) {
    match e
    case Skipped(_) => true
    case Attempt(_, nth, _, reply) =>
      !SettledAnswer(reply) && IsFallbackEligible(ClassOf(reply))
      && !(IsRetryable(ClassOf(reply)) && nth < w.policy.maxAttempts)
    case NoRoom(_, _, cls, _, _) => IsFallbackEligible(cls)
    case _ => false
  }

  /** A model may begin: the chain starts here, or its predecessor fell back. */
  predicate MayStart(w: Walk, last: Option<Event>, pos: nat) {
    match last
    case None => pos == 0
    case Some(e) => pos == e.pos + 1 && FallsBack(w, e)
  }

  predicate MayAttempt(w: Walk, last: Option<Event>, pos: nat, nth: nat) {
    if nth == 1 then MayStart(w, last, pos)
    else last.Some? && last.value.Waited? && last.value.pos == pos && last.value.nth + 1 == nth
  }

  /** The last event is a failed attempt of this model, of a retryable class, with attempts left. */
  predicate MayBackOff(w: Walk, last: Option<Event>, pos: nat, nth: nat, cls: FailureClass) {
    && last.Some? && last.value.Attempt?
    && last.value.pos == pos && last.value.nth == nth
    && !SettledAnswer(last.value.reply) && ClassOf(last.value.reply) == cls
    && IsRetryable(cls) && nth < w.policy.maxAttempts
  }

  predicate Legal(w: Walk, last: Option<Event>, e: Event) {
    && e.pos < |w.chain|
    && match e
       case Skipped(pos) => MayStart(w, last, pos) && !w.usable(w.chain[pos])
       case Attempt(pos, nth, at, _) =>
         w.usable(w.chain[pos]) && 1 <= nth <= w.policy.maxAttempts && MayAttempt(w, last, pos, nth) && at < w.deadline
       case DeadlinePassed(pos, nth, at) =>
         w.usable(w.chain[pos]) && 1 <= nth <= w.policy.maxAttempts && MayAttempt(w, last, pos, nth) && w.deadline <= at
       case Waited(pos, nth, cls, from, delay) => MayBackOff(w, last, pos, nth, cls) && from + delay < w.deadline
       case NoRoom(pos, nth, cls, from, delay) => MayBackOff(w, last, pos, nth, cls) && w.deadline <= from + delay
  }

  function Before(trace: seq<Event>, k: nat): Option<Event>
    requires k <= |trace|
  {
    if k == 0 then None else Some(trace[k - 1])
  }

  predicate LegalAt(w: Walk, trace: seq<Event>, k: nat)
    requires k < |trace|
  {
    Legal(w, Before(trace, k), trace[k])
  }

  ghost predicate WellFormed(w: Walk, trace: seq<Event>) {
    forall k {:trigger LegalAt(w, trace, k)} :: 0 <= k < |trace| ==> LegalAt(w, trace, k)
  }

  /** A walk that stops short of success had a reason to: the deadline, an ineligible class, or the chain's end. */
  predicate MustStop(w: Walk, trace: seq<Event>) {
    if trace == [] then w.chain == []
    else
      var e := trace[|trace| - 1];
      match e
      case DeadlinePassed(_, _, _) => true
      case Skipped(pos) => pos + 1 == |w.chain|
      case Attempt(pos, nth, _, reply) =>
        !SettledAnswer(reply) && !(IsRetryable(ClassOf(reply)) && nth < w.policy.maxAttempts)
        && (!IsFallbackEligible(ClassOf(reply)) || pos + 1 == |w.chain|)
      case NoRoom(pos, _, cls, _, _) => !IsFallbackEligible(cls) || pos + 1 == |w.chain|
      case Waited(_, _, _, _, _) => false
  }

  function FinalClass(trace: seq<Event>): FailureClass {
    if trace == [] then Unknown
    else
      match trace[|trace| - 1]
      case DeadlinePassed(_, _, _) => Timeout
      case Skipped(_) => ModelUnavailable
      case Attempt(_, _, _, reply) => ClassOf(reply)
      case NoRoom(_, _, cls, _, _) => cls
      case Waited(_, _, cls, _, _) => cls
  }

  /** The models tried, in order, with one entry an attempt and one for every unusable entry. */
  function AttemptedKeys(chain: seq<string>, trace: seq<Event>): seq<string> {
    if trace == [] then []
    else
      var e := trace[|trace| - 1];
      AttemptedKeys(chain, trace[..|trace| - 1])
      + (if (e.Skipped? || e.Attempt?) && e.pos < |chain| then [chain[e.pos]] else [])
  }

  function RetryCount(trace: seq<Event>): nat {
    if trace == [] then 0
    else RetryCount(trace[..|trace| - 1]) + (if trace[|trace| - 1].Waited? || trace[|trace| - 1].NoRoom? then 1 else 0)
  }

  lemma ExtendWellFormed(w: Walk, trace: seq<Event>, e: Event)
    requires WellFormed(w, trace) && Legal(w, Before(trace, |trace|), e)
    ensures WellFormed(w, trace + [e])
  {
    var all := trace + [e];
    forall k | 0 <= k < |all|
      ensures LegalAt(w, all, k)
    {
      assert Before(all, k) == Before(trace, k);
      if k < |trace| {
        assert LegalAt(w, trace, k);
      }
    }
  }

  lemma ExtendCounts(chain: seq<string>, trace: seq<Event>, e: Event)
    requires e.pos < |chain|
    ensures AttemptedKeys(chain, trace + [e]) == AttemptedKeys(chain, trace) + (if e.Skipped? || e.Attempt? then [chain[e.pos]] else [])
    ensures RetryCount(trace + [e]) == RetryCount(trace) + (if e.Waited? || e.NoRoom? then 1 else 0)
  {
    assert (trace + [e])[..|trace|] == trace;
  }

  // --- What the world has to do with it ------------------------------------------------------------------

  function Pow2(n: nat): (p: nat)
    ensures 0 < p
  {
    if n == 0 then 1 else 2 * Pow2(n - 1)
  }

  /** The pause before jitter. */
  function PlainDelay(policy: RetryPolicy, attempt: nat): nat
    requires 1 <= attempt
  {
    match policy.backoff
    case NoBackoff => 0
    case Fixed => policy.initialDelayMs
    case Exponential => Times(policy.initialDelayMs, Pow2(attempt - 1))
  }

  function Times(a: nat, b: nat): nat {
    a * b
  }

  function Jittered(delay: nat, random: real): int {
    (delay as real * (0.5 + random * 0.5)).Floor
  }

  function BackoffDelay(policy: RetryPolicy, attempt: nat, random: real): int
    requires 1 <= attempt
  {
    var delay := PlainDelay(policy, attempt);
    if policy.jitter && 0 < delay then Jittered(delay, random) else delay
  }

  /** The pauses of a policy before jitter: none; the same each time; or the initial one, doubled after every attempt. */
  lemma PausesOfAPolicy(policy: RetryPolicy, attempt: nat, random: real)
    requires 1 <= attempt
    ensures policy.backoff == NoBackoff ==> BackoffDelay(policy, attempt, random) == 0
    ensures policy.backoff == Fixed && !policy.jitter ==> BackoffDelay(policy, attempt, random) == policy.initialDelayMs
    ensures policy.backoff == Exponential && !policy.jitter ==>
              && BackoffDelay(policy, 1, random) == policy.initialDelayMs
              && BackoffDelay(policy, attempt + 1, random) == 2 * BackoffDelay(policy, attempt, random)
  {
    if policy.backoff == Exponential {
      var d, p := policy.initialDelayMs, Pow2(attempt - 1);
      assert Pow2(attempt) == 2 * p && Pow2(0) == 1;
      assert Times(d, 2 * p) == 2 * Times(d, p) && Times(d, 1) == d;
    }
  }

  /** With jitter a pause is half of that, and the other half times the number drawn, rounded down. */
  lemma JitterOfAPolicy(policy: RetryPolicy, attempt: nat, random: real)
    requires 1 <= attempt && 0.0 <= random < 1.0 && policy.jitter
    ensures var plain := BackoffDelay(policy.(jitter := false), attempt, random);
            var pause := BackoffDelay(policy, attempt, random);
            && 0 <= plain / 2 <= pause <= plain
            && 2.0 * pause as real <= plain as real + plain as real * random < 2.0 * pause as real + 2.0
  {
    var d := PlainDelay(policy, attempt);
    JitterBounds(d, random);
  }

  lemma JitterBounds(d: nat, random: real)
    requires 0.0 <= random < 1.0
    ensures d / 2 <= Jittered(d, random) <= d
    ensures 2.0 * Jittered(d, random) as real <= d as real + d as real * random < 2.0 * Jittered(d, random) as real + 2.0
  {
    var part := d as real * random;
    assert d as real * (0.5 + random * 0.5) == d as real * 0.5 + part * 0.5;
    assert 0.0 <= part by {
      ProductIsPositive(d as real, random);
    }
    assert 0.0 <= d as real - part by {
      ProductIsPositive(d as real, 1.0 - random);
      assert d as real * (1.0 - random) == d as real - part;
    }
    var h := d / 2;
    assert d == 2 * h || d == 2 * h + 1;
    assert h as real <= d as real * 0.5;
  }

  lemma ProductIsPositive(a: real, b: real)
    requires 0.0 <= a && 0.0 <= b
    ensures 0.0 <= a * b
  {
  }

  /** The clock readings of a walk: one when it starts, one before every call, one before every pause. */
  function Ticks(trace: seq<Event>): nat {
    if trace == [] then 1 else Ticks(trace[..|trace| - 1]) + if trace[|trace| - 1].Skipped? then 0 else 1
  }

  function Calls(trace: seq<Event>): nat {
    if trace == [] then 0 else Calls(trace[..|trace| - 1]) + if trace[|trace| - 1].Attempt? then 1 else 0
  }

  /** An event is what the world made it: the clock as it was read, the reply that call met, the pause the policy drew. */
  predicate Real(w: Walk, world: World, tick: nat, call: nat, e: Event) {
    match e
    case Skipped(_) => true
    case Attempt(_, _, at, reply) => at == world.clock(tick) && reply == world.reply(call)
    case DeadlinePassed(_, _, at) => at == world.clock(tick)
    case Waited(_, nth, _, from, delay) =>
      1 <= nth && from == world.clock(tick) && delay == BackoffDelay(w.policy, nth, world.random(call))
    case NoRoom(_, nth, _, from, delay) =>
      1 <= nth && from == world.clock(tick) && delay == BackoffDelay(w.policy, nth, world.random(call))
  }

  predicate RealAt(w: Walk, world: World, trace: seq<Event>, k: nat)
    requires k < |trace|
  {
    Real(w, world, Ticks(trace[..k]), Calls(trace[..k]), trace[k])
  }

  ghost predicate AllReal(w: Walk, world: World, trace: seq<Event>) {
    forall k {:trigger RealAt(w, world, trace, k)} :: 0 <= k < |trace| ==> RealAt(w, world, trace, k)
  }

  lemma ExtendReal(w: Walk, world: World, trace: seq<Event>, e: Event)
    requires AllReal(w, world, trace) && Real(w, world, Ticks(trace), Calls(trace), e)
    ensures AllReal(w, world, trace + [e])
    ensures Ticks(trace + [e]) == Ticks(trace) + (if e.Skipped? then 0 else 1)
    ensures Calls(trace + [e]) == Calls(trace) + (if e.Attempt? then 1 else 0)
  {
    var all := trace + [e];
    assert all[..|trace|] == trace;
    forall k | 0 <= k < |all|
      ensures RealAt(w, world, all, k)
    {
      if k < |trace| {
        assert all[..k] == trace[..k] && RealAt(w, world, trace, k);
      }
    }
  }

  // --- The walk itself -------------------------------------------------------------------------------

  /** How one model ended: a settled answer, the deadline, or a class to decide on. */
  datatype ModelEnd = Settled(charge: nat) | OutOfTime | GaveUp(cls: FailureClass)

  /** What the walk has recorded so far, and how many clock readings and provider calls it has used. */
  datatype Progress = Progress(trace: seq<Event>, attempted: seq<string>, retries: nat, tick: nat, calls: nat)

  ghost predicate Consistent(w: Walk, world: World, p: Progress) {
    && WellFormed(w, p.trace) && AllReal(w, world, p.trace)
    && p.tick == Ticks(p.trace) && p.calls == Calls(p.trace)
    && p.attempted == AttemptedKeys(w.chain, p.trace)
    && p.retries == RetryCount(p.trace)
  }

  function Last(p: Progress): Option<Event> {
    Before(p.trace, |p.trace|)
  }

  /** Put one event on record, with what it adds to the tried models, the retries, the clock readings and the calls. */
  function Record(w: Walk, p: Progress, e: Event): Progress
    requires e.pos < |w.chain|
  {
    p.(trace := p.trace + [e],
       attempted := if e.Skipped? || e.Attempt? then p.attempted + [w.chain[e.pos]] else p.attempted,
       retries := if e.Waited? || e.NoRoom? then p.retries + 1 else p.retries,
       tick := if e.Skipped? then p.tick else p.tick + 1,
       calls := if e.Attempt? then p.calls + 1 else p.calls)
  }

  lemma RecordIsConsistent(w: Walk, world: World, p: Progress, e: Event)
    requires Consistent(w, world, p) && Legal(w, Last(p), e) && Real(w, world, p.tick, p.calls, e)
    ensures var q := Record(w, p, e);
            Consistent(w, world, q) && Last(q) == Some(e) && p.trace < q.trace && q.trace[|p.trace|] == e
  {
    ExtendWellFormed(w, p.trace, e);
    ExtendReal(w, world, p.trace, e);
    ExtendCounts(w.chain, p.trace, e);
  }

  /** The failed attempt, or the backoff it had no room for, after which a model is given up. */
  predicate Ends(w: Walk, e: Event, pos: nat, cls: FailureClass) {
    && e.pos == pos
    && match e
       case Attempt(_, nth, _, reply) =>
         !SettledAnswer(reply) && ClassOf(reply) == cls && !(IsRetryable(cls) && nth < w.policy.maxAttempts)
       case NoRoom(_, _, c, _, _) => c == cls
       case _ => false
  }

  /** What the record ends with when a model has ended. */
  ghost predicate EndsModel(w: Walk, pos: nat, rule: CreditRule, multiplier: nat, end: ModelEnd, p: Progress) {
    Last(p).Some? && match end
    case Settled(charge) =>
      && Last(p).value.Attempt? && SettledAnswer(Last(p).value.reply) && Last(p).value.pos == pos
      && CreditsChargedMilli(Last(p).value.reply.usage, rule, multiplier) == Some(charge)
    case OutOfTime => Last(p).value.DeadlinePassed?
    case GaveUp(cls) => Ends(w, Last(p).value, pos, cls)
  }

  /** One attempt: the deadline first, then the call. No outcome means the model may still be retried. */
  method AttemptOnce(w: Walk, pos: nat, nth: nat, rule: CreditRule, multiplier: nat, world: World, p0: Progress)
    returns (end: Option<ModelEnd>, p: Progress)
    requires Consistent(w, world, p0) && pos < |w.chain| && w.usable(w.chain[pos])
    requires 1 <= nth <= w.policy.maxAttempts && MayAttempt(w, Last(p0), pos, nth)
    ensures Consistent(w, world, p) && p0.trace < p.trace && !p.trace[|p0.trace|].Skipped?
    ensures end.None? ==> nth < w.policy.maxAttempts && MayAttempt(w, Last(p), pos, nth + 1)
    ensures end.Some? ==> EndsModel(w, pos, rule, multiplier, end.value, p)
  {
    var now := world.clock(p0.tick);
    if w.deadline - now <= 0 {
      RecordIsConsistent(w, world, p0, DeadlinePassed(pos, nth, now));
      return Some(OutOfTime), Record(w, p0, DeadlinePassed(pos, nth, now));
    }
    end, p := CallProvider(w, pos, nth, now, rule, multiplier, world, p0);
  }

  /** The call itself, and what follows from its reply. */
  method CallProvider(w: Walk, pos: nat, nth: nat, now: int, rule: CreditRule, multiplier: nat, world: World, p0: Progress)
    returns (end: Option<ModelEnd>, p: Progress)
    requires Consistent(w, world, p0) && pos < |w.chain| && w.usable(w.chain[pos]) && now == world.clock(p0.tick) < w.deadline
    requires 1 <= nth <= w.policy.maxAttempts && MayAttempt(w, Last(p0), pos, nth)
    ensures Consistent(w, world, p) && p0.trace < p.trace && !p.trace[|p0.trace|].Skipped?
    ensures end.None? ==> nth < w.policy.maxAttempts && MayAttempt(w, Last(p), pos, nth + 1)
    ensures end.Some? ==> EndsModel(w, pos, rule, multiplier, end.value, p)
  {
    var reply := world.reply(p0.calls);
    RecordIsConsistent(w, world, p0, Attempt(pos, nth, now, reply));
    var called := Record(w, p0, Attempt(pos, nth, now, reply));
    if SettledAnswer(reply) {
      var charge := CreditsChargedMilli(reply.usage, rule, multiplier);
      return Some(Settled(charge.value)), called;
    }
    end, p := BackOff(w, pos, nth, ClassOf(reply), world, called);
  }

  /** After a failed attempt: give the model up, or wait if the wait ends before the deadline. */
  method BackOff(w: Walk, pos: nat, nth: nat, cls: FailureClass, world: World, p0: Progress)
    returns (end: Option<ModelEnd>, p: Progress)
    requires Consistent(w, world, p0) && pos < |w.chain| && 1 <= nth <= w.policy.maxAttempts
    requires Last(p0).Some? && Last(p0).value.Attempt? && Last(p0).value.pos == pos && Last(p0).value.nth == nth
    requires !SettledAnswer(Last(p0).value.reply) && ClassOf(Last(p0).value.reply) == cls
    ensures Consistent(w, world, p) && p0.trace <= p.trace
    ensures end.None? ==> nth < w.policy.maxAttempts && MayAttempt(w, Last(p), pos, nth + 1)
    ensures end.Some? ==> end.value.GaveUp? && Last(p).Some? && Ends(w, Last(p).value, pos, end.value.cls)
  {
    if !IsRetryable(cls) || nth >= w.policy.maxAttempts {
      return Some(GaveUp(cls)), p0;
    }
    var delay := BackoffDelay(w.policy, nth, world.random(p0.calls));
    var from := world.clock(p0.tick);
    var slept := delay < w.deadline - from;
    var pause := if slept then Waited(pos, nth, cls, from, delay) else NoRoom(pos, nth, cls, from, delay);
    RecordIsConsistent(w, world, p0, pause);
    p := Record(w, p0, pause);
    return if slept then None else Some(GaveUp(cls)), p;
  }

  /** Attempts on one model until it settles, runs out of time, or is given up. */
  method TryModel(w: Walk, pos: nat, rule: CreditRule, multiplier: nat, world: World, p0: Progress)
    returns (end: ModelEnd, p: Progress)
    requires Consistent(w, world, p0) && pos < |w.chain| && w.usable(w.chain[pos])
    requires 1 <= w.policy.maxAttempts && MayStart(w, Last(p0), pos)
    ensures Consistent(w, world, p) && p0.trace < p.trace && !p.trace[|p0.trace|].Skipped?
    ensures EndsModel(w, pos, rule, multiplier, end, p)
  {
    var ended;
    ended, p := AttemptOnce(w, pos, 1, rule, multiplier, world, p0);
    var attempt := 2;
    while ended.None?
      invariant Consistent(w, world, p) && p0.trace < p.trace && !p.trace[|p0.trace|].Skipped?
      invariant ended.None? ==> 2 <= attempt <= w.policy.maxAttempts && MayAttempt(w, Last(p), pos, attempt)
      invariant ended.Some? ==> EndsModel(w, pos, rule, multiplier, ended.value, p)
      decreases ended.None?, w.policy.maxAttempts - attempt
    {
      ended, p := AttemptOnce(w, pos, attempt, rule, multiplier, world, p);
      attempt := attempt + 1;
    }
    return ended.value, p;
  }

  /** Some event of the trace is more than an unusable entry. */
  ghost predicate ProviderReached(trace: seq<Event>) {
    exists k :: 0 <= k < |trace| && !trace[k].Skipped?
  }

  lemma ReachedOnceMore(before: seq<Event>, after: seq<Event>)
    requires before < after && !after[|before|].Skipped?
    ensures ProviderReached(after)
  {
  }

  lemma SkipReachesNothing(before: seq<Event>, pos: nat)
    ensures ProviderReached(before + [Skipped(pos)]) <==> ProviderReached(before)
  {
    if ProviderReached(before) {
      var k :| 0 <= k < |before| && !before[k].Skipped?;
      assert (before + [Skipped(pos)])[k] == before[k];
    }
  }

  /** How a walk ended: charged by the rule of the model that answered, or stopped with the class it stopped on. */
  ghost predicate EndsWalk(w: Walk, rules: seq<CreditRule>, task: string, multiplier: nat, outcome: Outcome, p: Progress) {
    match outcome
    case Succeeded(pos, charge) =>
      && Last(p).Some? && Last(p).value.Attempt? && SettledAnswer(Last(p).value.reply)
      && pos < |w.chain| && pos == Last(p).value.pos
      && ChargeOn(rules, task, w.chain[pos], Last(p).value.reply.usage, multiplier) == Some(charge)
    case Failed(cls, reached) =>
      MustStop(w, p.trace) && cls == FinalClass(p.trace) && (reached <==> ProviderReached(p.trace))
    case PricingThrew => false
  }

  /** One entry of the chain: unusable, or a model that ends the walk or hands over to the next. */
  method VisitEntry(w: Walk, pos: nat, rules: seq<CreditRule>, task: string, worst: UsageUnits, multiplier: nat, world: World,
                    p0: Progress) returns (outcome: Option<Outcome>, cls: FailureClass, p: Progress)
    requires Consistent(w, world, p0) && pos < |w.chain| && MayStart(w, Last(p0), pos)
    requires 1 <= w.policy.maxAttempts && world.usable == w.usable && Priced(rules, task, w.chain, worst, multiplier)
    ensures Consistent(w, world, p) && p0.trace < p.trace
    ensures outcome.Some? ==> EndsWalk(w, rules, task, multiplier, outcome.value, p)
    ensures outcome.None? ==> Last(p).Some? && Last(p).value.pos == pos && FallsBack(w, Last(p).value) && cls == FinalClass(p.trace)
    ensures ProviderReached(p.trace) <==> ProviderReached(p0.trace) || world.usable(w.chain[pos])
  {
    if !world.usable(w.chain[pos]) {
      RecordIsConsistent(w, world, p0, Skipped(pos));
      SkipReachesNothing(p0.trace, pos);
      return None, ModelUnavailable, Record(w, p0, Skipped(pos));
    }
    assert w.chain[pos] in w.chain && ChargeOn(rules, task, w.chain[pos], worst, multiplier).Some?;
    var rule := FindCreditRule(rules, task, w.chain[pos]);
    var end;
    end, p := TryModel(w, pos, rule.value, multiplier, world, p0);
    ReachedOnceMore(p0.trace, p.trace);
    match end {
      case Settled(charge) => outcome, cls := Some(Succeeded(pos, charge)), Unknown;
      case OutOfTime => outcome, cls := Some(Failed(Timeout, true)), Timeout;
      case GaveUp(c) => outcome, cls := if IsFallbackEligible(c) then None else Some(Failed(c, true)), c;
    }
  }

  /**
   * Walk the chain. The rules priced every model of the chain when the reservation was sized, so the lookup
   * inside the walk cannot fail. The trace records everything the walk did, in order.
   */
  method RunChain(chain: seq<string>, policy: RetryPolicy, timeoutMs: int, rules: seq<CreditRule>, task: string,
                  worst: UsageUnits, multiplier: nat, world: World)
    returns (outcome: Outcome, w: Walk, p: Progress)
    requires 1 <= policy.maxAttempts
    requires Priced(rules, task, chain, worst, multiplier)
    ensures w == Walk(chain, policy, world.clock(0) + timeoutMs, world.usable) && Consistent(w, world, p)
    ensures EndsWalk(w, rules, task, multiplier, outcome, p)
  {
    w := Walk(chain, policy, world.clock(0) + timeoutMs, world.usable);
    p := Progress([], [], 0, 1, 0);
    var lastClass, reached := Unknown, false;
    for pos := 0 to |chain|
      invariant Consistent(w, world, p)
      invariant (pos == 0 ==> p.trace == []) && lastClass == FinalClass(p.trace)
      invariant 0 < pos ==> Last(p).Some? && Last(p).value.pos == pos - 1 && FallsBack(w, Last(p).value)
      invariant reached <==> ProviderReached(p.trace)
    {
      reached := reached || world.usable(chain[pos]);
      var end;
      end, lastClass, p := VisitEntry(w, pos, rules, task, worst, multiplier, world, p);
      if end.Some? {
        return end.value, w, p;
      }
    }
    return Failed(lastClass, reached), w, p;
  }

  // --- What a well-formed trace implies about the whole walk ---------------------------------------------

  lemma StepOrStay(w: Walk, trace: seq<Event>, k: nat)
    requires WellFormed(w, trace) && k + 1 < |trace|
    ensures trace[k].pos <= trace[k + 1].pos <= trace[k].pos + 1
    ensures trace[k + 1].pos == trace[k].pos + 1 ==> FallsBack(w, trace[k])
    ensures Legal(w, Some(trace[k]), trace[k + 1])
  {
    assert LegalAt(w, trace, k + 1);
  }

  /** The trace visits the chain front to back without skipping an entry: it is a prefix of the chain. */
  lemma {:induction false} VisitsAPrefix(w: Walk, trace: seq<Event>, k: nat)
    requires WellFormed(w, trace) && k < |trace|
    ensures forall p: nat {:trigger Visited(trace, k, p)} :: p <= trace[k].pos ==> Visited(trace, k, p)
    ensures forall j :: 0 <= j <= k ==> trace[j].pos <= trace[k].pos
  {
    if k == 0 {
      assert LegalAt(w, trace, 0);
      assert Visited(trace, 0, 0);
    } else {
      VisitsAPrefix(w, trace, k - 1);
      StepOrStay(w, trace, k - 1);
      forall p: nat | p <= trace[k].pos
        ensures Visited(trace, k, p)
      {
        if p <= trace[k - 1].pos {
          assert Visited(trace, k - 1, p);
        } else {
          assert trace[k].pos == p;
        }
      }
    }
  }

  ghost predicate Visited(trace: seq<Event>, k: nat, p: nat)
    requires k < |trace|
  {
    exists j :: 0 <= j <= k && trace[j].pos == p
  }

  function Nth(e: Event): nat {
    if e.Skipped? then 0 else e.nth
  }

  /** Attempts at one model are numbered upwards, so there are at most maxAttempts of them. */
  lemma {:induction false} AttemptsAreNumbered(w: Walk, trace: seq<Event>, a: nat, b: nat)
    requires WellFormed(w, trace) && a < b < |trace|
    requires trace[a].pos == trace[b].pos
    ensures Nth(trace[a]) <= Nth(trace[b])
    ensures trace[a].Attempt? && trace[b].Attempt? ==> 1 <= trace[a].nth < trace[b].nth <= w.policy.maxAttempts
    decreases b
  {
    VisitsAPrefix(w, trace, b - 1);
    StepOrStay(w, trace, b - 1);
    assert LegalAt(w, trace, a);
    if a < b - 1 {
      AttemptsAreNumbered(w, trace, a, b - 1);
    }
  }

  /** A provider that answered is never followed by another call, even when settling its answer throws. */
  lemma NothingFollowsAnAnswer(w: Walk, trace: seq<Event>, k: nat)
    requires WellFormed(w, trace) && k < |trace| && trace[k].Attempt? && trace[k].reply.Answer?
    ensures k == |trace| - 1
  {
    if k + 1 < |trace| {
      StepOrStay(w, trace, k);
    }
  }

  /**
   * Between two consecutive provider calls: on the same model, the first failed with a retryable class and
   * a backoff that ended before the deadline; on a later model, the first failed with a fallback-eligible
   * class, and every entry in between was unusable. The same holds up to the event that ends the walk.
   */
  lemma {:induction false} BetweenTwoCalls(w: Walk, trace: seq<Event>, a: nat, b: nat)
    requires WellFormed(w, trace) && a < b < |trace| && trace[a].Attempt?
    requires forall j :: a < j < b ==> !trace[j].Attempt?
    requires trace[b].Attempt? || trace[b].DeadlinePassed? || trace[b].Skipped?
    ensures trace[a].reply.Error?
    ensures trace[b].pos == trace[a].pos ==> IsRetryable(trace[a].reply.cls) && b == a + 2 && trace[a + 1].Waited?
    ensures trace[b].pos != trace[a].pos ==> IsFallbackEligible(trace[a].reply.cls)
    ensures trace[b].pos < |w.chain| && forall p :: trace[a].pos < p < trace[b].pos ==> !w.usable(w.chain[p])
    decreases b
  {
    StepOrStay(w, trace, a);
    StepOrStay(w, trace, b - 1);
    VisitsAPrefix(w, trace, b - 1);
    if a < b - 1 {
      StepOrStay(w, trace, b - 2);
      if trace[b - 1].Skipped? {
        BetweenTwoCalls(w, trace, a, b - 1);
      }
    }
  }

  // --- And it is the only one --------------------------------------------------------------------------------

  /** The world and what came before leave no choice of the next event. */
  lemma NextIsDetermined(w: Walk, world: World, last: Option<Event>, tick: nat, call: nat, a: Event, b: Event)
    requires Legal(w, last, a) && Real(w, world, tick, call, a)
    requires Legal(w, last, b) && Real(w, world, tick, call, b)
    ensures a == b
  {
  }

  predicate Finished(w: Walk, trace: seq<Event>) {
    MustStop(w, trace) || (trace != [] && trace[|trace| - 1].Attempt? && SettledAnswer(trace[|trace| - 1].reply))
  }

  lemma NothingFollowsAFinish(w: Walk, trace: seq<Event>, n: nat)
    requires WellFormed(w, trace) && n < |trace|
    ensures !Finished(w, trace[..n])
  {
    assert LegalAt(w, trace, n);
    assert n > 0 ==> trace[..n][n - 1] == trace[n - 1];
  }

  lemma {:induction false} SamePrefix(w: Walk, world: World, a: seq<Event>, b: seq<Event>, n: nat)
    requires WellFormed(w, a) && AllReal(w, world, a) && WellFormed(w, b) && AllReal(w, world, b)
    requires n <= |a| && n <= |b|
    ensures a[..n] == b[..n]
    decreases n
  {
    if n > 0 {
      SamePrefix(w, world, a, b, n - 1);
      var k := n - 1;
      assert LegalAt(w, a, k) && LegalAt(w, b, k) && RealAt(w, world, a, k) && RealAt(w, world, b, k);
      assert n > 1 ==> a[k - 1] == a[..k][k - 1] && b[k - 1] == b[..k][k - 1];
      NextIsDetermined(w, world, Before(a, k), Ticks(a[..k]), Calls(a[..k]), a[k], b[k]);
      assert a[..n] == a[..k] + [a[k]] && b[..n] == b[..k] + [b[k]];
    }
  }

  /** Clock, replies and jitter decide a walk altogether: there is one finished trace that fits them, and no other. */
  lemma WalkIsDetermined(w: Walk, world: World, a: seq<Event>, b: seq<Event>)
    requires WellFormed(w, a) && AllReal(w, world, a) && Finished(w, a)
    requires WellFormed(w, b) && AllReal(w, world, b) && Finished(w, b)
    ensures a == b
  {
    var n := if |a| < |b| then |a| else |b|;
    SamePrefix(w, world, a, b, n);
    assert a[..|a|] == a && b[..|b|] == b;
    if |a| < |b| {
      NothingFollowsAFinish(w, b, n);
    } else if |b| < |a| {
      NothingFollowsAFinish(w, a, n);
    }
  }

  /** A first model that is usable, is called in time and gives an answer that settles: the walk is that one call. */
  lemma FirstAnswerSucceeds(w: Walk, world: World, rules: seq<CreditRule>, task: string, worst: UsageUnits, multiplier: nat, outcome: Outcome, p: Progress)
    requires Consistent(w, world, p) && EndsWalk(w, rules, task, multiplier, outcome, p)
    requires w.chain != [] && w.usable(w.chain[0]) && world.clock(1) < w.deadline && SettledAnswer(world.reply(0))
    ensures outcome.Succeeded? && outcome.pos == 0 && p.trace == [Attempt(0, 1, world.clock(1), world.reply(0))]
    ensures Some(outcome.charge) == ChargeOn(rules, task, w.chain[0], world.reply(0).usage, multiplier)
  {
    var t := p.trace;
    assert t != [];
    assert LegalAt(w, t, 0) && RealAt(w, world, t, 0);
    assert t[..0] == [];
    NothingFollowsAnAnswer(w, t, 0);
  }

  /** No model that can be called in time: the walk ends in a timeout, and no provider is asked. */
  lemma NoTimeNoCall(w: Walk, world: World, rules: seq<CreditRule>, task: string, multiplier: nat, outcome: Outcome, p: Progress)
    requires Consistent(w, world, p) && EndsWalk(w, rules, task, multiplier, outcome, p)
    requires w.chain != [] && w.usable(w.chain[0]) && w.deadline <= world.clock(1)
    ensures outcome == Failed(Timeout, true) && p.trace == [DeadlinePassed(0, 1, world.clock(1))] && p.attempted == []
  {
    var t := p.trace;
    assert t != [];
    assert LegalAt(w, t, 0) && RealAt(w, world, t, 0);
    assert t[..0] == [];
    assert |t| > 1 ==> LegalAt(w, t, 1);
    assert AttemptedKeys(w.chain, t[..0]) == [];
  }
}
