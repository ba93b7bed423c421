/** The analytics cursor: leased claims, one pull at a time through its window, and a backfill that walks backwards. */
module Ingestion {
  import opened Text

  const DAY := 86_400_000

  function StartOfDay(t: int): (d: int)
    ensures d <= t < d + DAY && d % DAY == 0
  {
    t - t % DAY
  }

  function Min(a: int, b: int): int {
    if a < b then a else b
  }

  function Max(a: int, b: int): int {
    if a < b then b else a
  }

  /** `adapterDays` is the adapter's own limit; a pass covers at least a day. */
  datatype Policy = Policy(refreshDays: nat, backfillEnabled: bool, maxDays: nat, adapterDays: nat, daysPerPass: nat,
                           leaseMs: nat, intervalMs: nat)

  datatype Window = Window(start: int, end: int)
  datatype Kind = Scheduled | Backfill

  datatype Cursor = Cursor(claimedAt: Option<int>, nextAttemptAt: Option<int>, lastCovered: Option<int>,
                           lastSucceededAt: Option<int>, backfillCursor: Option<int>, completedAt: Option<int>, failures: nat)

  datatype RunKey = RunKey(kind: Kind, window: Window)
  datatype RunStatus = Running | Succeeded | Partial | Failed | Skipped

  type Runs = map<RunKey, RunStatus>

  datatype Fetch = Threw | RateLimited | OtherFailure | Answered(partial: bool)

  /** What a pull meets, in the order it asks: the connection, the shared budget, the credential, the provider. */
  datatype World = World(active: bool, budget: bool, credential: bool, fetch: Fetch, retryAfterMs: int, backoffMs: int)

  datatype PullStatus = PullSucceeded | PullPartial | PullFailed | PullRateLimited

  // --- Claims ----------------------------------------------------------------------------------------

  /** The claim's `WHERE`: due, and unclaimed or past its lease. */
  predicate Claimable(p: Policy, c: Cursor, now: int) {
    && (c.nextAttemptAt.Some? ==> c.nextAttemptAt.value <= now)
    && (c.claimedAt.Some? ==> c.claimedAt.value < now - p.leaseMs)
  }

  function TryClaim(p: Policy, c: Cursor, now: int): Cursor {
    if Claimable(p, c, now) then c.(claimedAt := Some(now)) else c
  }

  function AfterAttempts(p: Policy, c: Cursor, nows: seq<int>): Cursor {
    if nows == [] then c else TryClaim(p, AfterAttempts(p, c, nows[..|nows| - 1]), nows[|nows| - 1])
  }

  predicate Wins(p: Policy, c: Cursor, nows: seq<int>, i: nat)
    requires i < |nows|
  {
    Claimable(p, AfterAttempts(p, c, nows[..i]), nows[i])
  }

  lemma {:induction false} ClaimIsRemembered(p: Policy, c: Cursor, nows: seq<int>, i: nat)
    requires i < |nows| && Wins(p, c, nows, i)
    ensures AfterAttempts(p, c, nows).claimedAt.Some? && nows[i] <= AfterAttempts(p, c, nows).claimedAt.value
    decreases |nows|
  {
    var front := nows[..|nows| - 1];
    if i < |front| {
      assert front[..i] == nows[..i];
      ClaimIsRemembered(p, c, front, i);
    } else {
      assert nows[..i] == front;
    }
  }

  /** Whoever else tries in between, two claims with no release between them are more than the lease apart. */
  lemma ClaimsAreLeaseApart(p: Policy, c: Cursor, nows: seq<int>, i: nat, j: nat)
    requires i < j < |nows| && Wins(p, c, nows, i) && Wins(p, c, nows, j)
    ensures nows[j] - nows[i] > p.leaseMs
  {
    assert nows[..j][..i] == nows[..i];
    assert Wins(p, c, nows[..j], i);
    ClaimIsRemembered(p, c, nows[..j], i);
  }

  // --- Windows ----------------------------------------------------------------------------------------

  function Horizon(p: Policy, now: int): int {
    StartOfDay(now - Min(p.maxDays, p.adapterDays) * DAY)
  }

  function RefreshStart(p: Policy, now: int): int {
    StartOfDay(now - p.refreshDays * DAY)
  }

  /** Where the backfill stands: its cursor, or where the refreshed window begins. */
  function BackfillEnd(p: Policy, c: Cursor, now: int): int {
    if c.backfillCursor.Some? then c.backfillCursor.value else RefreshStart(p, now)
  }

  function WindowFor(p: Policy, c: Cursor, kind: Kind, now: int): Option<Window> {
    if kind == Scheduled then Some(Window(RefreshStart(p, now), now))
    else if !p.backfillEnabled || c.completedAt.Some? then None
    else
      var end := BackfillEnd(p, c, now);
      if end <= Horizon(p, now) then None
      else Some(Window(Max(Horizon(p, now), end - p.daysPerPass * DAY), end))
  }

  /** A day boundary in the last day before so many days ago. */
  predicate DaysBack(t: int, now: int, days: nat) {
    t % DAY == 0 && t <= now - days * DAY < t + DAY
  }

  /**
   * A scheduled window runs from the day boundary the refreshed days begin at up to now. A backfill window ends where
   * the backfill stands and covers a whole pass, or what is left before the horizon, which neither limit on the days
   * reaches behind; there is none exactly when the backfill is off, done or at the horizon.
   */
  lemma WindowsExactly(p: Policy, c: Cursor, now: int)
    ensures var w := WindowFor(p, c, Scheduled, now);
            w.Some? && w.value.end == now && DaysBack(w.value.start, now, p.refreshDays) && (0 < p.refreshDays ==> w.value.start < now)
    ensures DaysBack(Horizon(p, now), now, if p.maxDays <= p.adapterDays then p.maxDays else p.adapterDays)
    ensures c.backfillCursor.None? ==> DaysBack(BackfillEnd(p, c, now), now, p.refreshDays)
    ensures c.backfillCursor.Some? ==> BackfillEnd(p, c, now) == c.backfillCursor.value
    ensures var w := WindowFor(p, c, Backfill, now);
            && (w.None? <==> !p.backfillEnabled || c.completedAt.Some? || BackfillEnd(p, c, now) <= Horizon(p, now))
            && (w.Some? ==>
                  && w.value.end == BackfillEnd(p, c, now)
                  && (w.value.end - w.value.start == p.daysPerPass * DAY || w.value.start == Horizon(p, now))
                  && w.value.end - w.value.start <= p.daysPerPass * DAY && Horizon(p, now) <= w.value.start)
  {
  }

  lemma HorizonOnlyAdvances(p: Policy, a: int, b: int)
    requires a <= b
    ensures Horizon(p, a) <= Horizon(p, b)
  {
    var x, y := a - Min(p.maxDays, p.adapterDays) * DAY, b - Min(p.maxDays, p.adapterDays) * DAY;
    assert StartOfDay(x) == DAY * (x / DAY) && StartOfDay(y) == DAY * (y / DAY);
    assert x / DAY <= y / DAY;
  }

  // --- One pull -----------------------------------------------------------------------------------------

  /** Released, with a backoff: the failure count goes on from what the pull read. */
  function ReleaseFailed(stored: Cursor, read: Cursor, later: int, w: World): Cursor {
    stored.(claimedAt := None, failures := read.failures + 1, nextAttemptAt := Some(later + w.backoffMs))
  }

  function ReleaseRateLimited(stored: Cursor, later: int, w: World): Cursor {
    stored.(claimedAt := None, nextAttemptAt := Some(later + w.retryAfterMs))
  }

  /** Released after a success; `covered` is absent when there was nothing to do. Only a backfill moves the backfill. */
  function ReleaseOk(p: Policy, stored: Cursor, kind: Kind, covered: Option<Window>, later: int): Cursor {
    var c := stored.(claimedAt := None, failures := 0, lastSucceededAt := Some(later), nextAttemptAt := Some(later + p.intervalMs),
                     lastCovered := if covered.Some? then Some(covered.value.end) else stored.lastCovered);
    if kind == Scheduled || covered.None? then c
    else c.(backfillCursor := Some(covered.value.start),
            completedAt := if covered.value.start <= Horizon(p, later) then Some(later) else c.completedAt)
  }

  datatype Pulled = Pulled(cursor: Cursor, runs: Runs, status: PullStatus, run: Option<RunKey>)

  /**
   * A pull from the cursor row it read. `later` is the clock at its release; the row may have moved on since the
   * read. A closed run for the same window counts as done, whatever it closed with.
   */
  function Pull(p: Policy, read: Cursor, stored: Cursor, runs: Runs, kind: Kind, now: int, later: int, w: World): Pulled {
    var window := WindowFor(p, read, kind, now);
    if window.None? then Pulled(ReleaseOk(p, stored, Scheduled, None, later), runs, PullSucceeded, None)
    else if !w.active then Pulled(ReleaseFailed(stored, read, later, w), runs, PullFailed, None)
    else if !w.budget then Pulled(ReleaseRateLimited(stored, later, w), runs, PullRateLimited, None)
    else
      var key := RunKey(kind, window.value);
      if key in runs && runs[key] != Running then
        Pulled(ReleaseOk(p, stored, kind, window, later), runs, if runs[key] == Partial then PullPartial else PullSucceeded, Some(key))
      else if !w.credential then Pulled(ReleaseFailed(stored, read, later, w), runs[key := Failed], PullFailed, Some(key))
      else
        match w.fetch
        case Threw => Pulled(ReleaseFailed(stored, read, later, w), runs[key := Failed], PullFailed, Some(key))
        case RateLimited => Pulled(ReleaseRateLimited(stored, later, w), runs[key := Skipped], PullRateLimited, Some(key))
        case OtherFailure => Pulled(ReleaseFailed(stored, read, later, w), runs[key := Failed], PullFailed, Some(key))
        case Answered(partial) =>
          Pulled(ReleaseOk(p, stored, kind, window, later), runs[key := if partial then Partial else Succeeded],
                 if partial then PullPartial else PullSucceeded, Some(key))
  }

  /** Every return leaves the claim released and the run it names closed; a scheduled pull leaves the backfill alone. */
  lemma EveryReturnReleases(p: Policy, read: Cursor, stored: Cursor, runs: Runs, kind: Kind, now: int, later: int, w: World)
    ensures var r := Pull(p, read, stored, runs, kind, now, later, w);
            && r.cursor.claimedAt.None? && r.cursor.nextAttemptAt.Some?
            && (r.run.Some? ==> r.run.value in r.runs && r.runs[r.run.value] != Running)
            && (forall k :: k in runs && r.run != Some(k) ==> k in r.runs && r.runs[k] == runs[k])
            && (kind == Scheduled ==> r.cursor.backfillCursor == stored.backfillCursor && r.cursor.completedAt == stored.completedAt)
  {
  }

  /** A pull gets as far as its run: a window, an active connection and budget left. */
  predicate Starts(p: Policy, read: Cursor, kind: Kind, now: int, w: World) {
    WindowFor(p, read, kind, now).Some? && w.active && w.budget
  }

  /** And that window's run is already closed, so the provider is not asked. */
  predicate Repeats(p: Policy, read: Cursor, runs: Runs, kind: Kind, now: int, w: World) {
    Starts(p, read, kind, now, w) &&
    var key := RunKey(kind, WindowFor(p, read, kind, now).value);
    key in runs && runs[key] != Running
  }

  /** What a pull answers, case by case, in terms of what it met. */
  lemma PullAnswers(p: Policy, read: Cursor, stored: Cursor, runs: Runs, kind: Kind, now: int, later: int, w: World)
    ensures var r := Pull(p, read, stored, runs, kind, now, later, w);
            var window := WindowFor(p, read, kind, now);
            var asked := Starts(p, read, kind, now, w) && !Repeats(p, read, runs, kind, now, w);
            && (r.run.Some? <==> Starts(p, read, kind, now, w)) && (r.run.Some? ==> r.run.value == RunKey(kind, window.value))
            && (r.status == PullRateLimited <==>
                  (window.Some? && w.active && !w.budget) || (asked && w.credential && w.fetch == RateLimited))
            && (r.status == PullFailed <==>
                  (window.Some? && !w.active) || (asked && (!w.credential || w.fetch == Threw || w.fetch == OtherFailure)))
            && (r.status == PullPartial <==>
                  || (Repeats(p, read, runs, kind, now, w) && runs[RunKey(kind, window.value)] == Partial)
                  || (asked && w.credential && w.fetch == Answered(true)))
  {
  }

  /** A run already closed keeps its status; any other is closed with the one its answer calls for. */
  lemma PullCloses(p: Policy, read: Cursor, stored: Cursor, runs: Runs, kind: Kind, now: int, later: int, w: World)
    ensures var r := Pull(p, read, stored, runs, kind, now, later, w);
            && (!Starts(p, read, kind, now, w) || Repeats(p, read, runs, kind, now, w) ==> r.runs == runs)
            && (Starts(p, read, kind, now, w) && !Repeats(p, read, runs, kind, now, w) ==>
                  && r.run.Some? && r.run.value in r.runs
                  && (r.runs[r.run.value] == Failed <==> r.status == PullFailed)
                  && (r.runs[r.run.value] == Skipped <==> r.status == PullRateLimited)
                  && (r.runs[r.run.value] == Partial <==> r.status == PullPartial)
                  && (r.runs[r.run.value] == Succeeded <==> r.status == PullSucceeded))
  {
  }

  /**
   * When the cursor is due again, by the answer: after the interval, after the backoff, or when the provider said.
   * Only a success clears the failures and moves the mark of what is covered; only a failure counts one more.
   */
  lemma NextAttemptByAnswer(p: Policy, read: Cursor, stored: Cursor, runs: Runs, kind: Kind, now: int, later: int, w: World)
    ensures var r := Pull(p, read, stored, runs, kind, now, later, w);
            var window := WindowFor(p, read, kind, now);
            && (r.status in {PullSucceeded, PullPartial} ==>
                  && r.cursor.nextAttemptAt == Some(later + p.intervalMs) && r.cursor.failures == 0
                  && r.cursor.lastSucceededAt == Some(later)
                  && r.cursor.lastCovered == if window.Some? then Some(window.value.end) else stored.lastCovered)
            && (r.status == PullFailed ==> r.cursor.nextAttemptAt == Some(later + w.backoffMs) && r.cursor.failures == read.failures + 1)
            && (r.status == PullRateLimited ==> r.cursor.nextAttemptAt == Some(later + w.retryAfterMs) && r.cursor.failures == stored.failures)
            && (r.status in {PullFailed, PullRateLimited} ==>
                  r.cursor.lastSucceededAt == stored.lastSucceededAt && r.cursor.lastCovered == stored.lastCovered)
  {
  }

  /** The window a pull walks the backfill over, if it does: it had one, and the run for it ended as a success. */
  function Advance(p: Policy, read: Cursor, runs: Runs, kind: Kind, now: int, w: World): Option<Window> {
    var window := WindowFor(p, read, kind, now);
    if kind == Scheduled || window.None? || !w.active || !w.budget then None
    else
      var key := RunKey(kind, window.value);
      if (key in runs && runs[key] != Running) || (w.credential && w.fetch.Answered?) then window else None
  }

  /**
   * The backfill cursor moves exactly when a pull advances, and then to the start of a window no longer than a pass
   * that reaches no further back than the horizon. As long as no other pull moved it since the row was read, that
   * is strictly earlier than where it stood; and it is complete once the start is at the horizon in force.
   */
  lemma BackfillMovesExactlyByAdvancing(p: Policy, read: Cursor, stored: Cursor, runs: Runs, kind: Kind, now: int, later: int, w: World)
    requires 1 <= p.daysPerPass
    ensures var r := Pull(p, read, stored, runs, kind, now, later, w);
            var step := Advance(p, read, runs, kind, now, w);
            && (step.None? ==> r.cursor.backfillCursor == stored.backfillCursor && r.cursor.completedAt == stored.completedAt)
            && (step.Some? ==>
                  && r.cursor.backfillCursor == Some(step.value.start) && step.value.end == BackfillEnd(p, read, now)
                  && Horizon(p, now) <= step.value.start < step.value.end
                  && step.value.end - step.value.start <= p.daysPerPass * DAY
                  && (stored.backfillCursor == read.backfillCursor ==> r.cursor.backfillCursor.value < BackfillEnd(p, stored, now))
                  && (stored.completedAt.None? ==> (r.cursor.completedAt.Some? <==> step.value.start <= Horizon(p, later))))
  {
  }

  /** The two ways a run can close without an answer, and the two with one. */
  predicate Unanswered(runs: Runs, key: RunKey) {
    key in runs && runs[key] in {Failed, Skipped}
  }

  predicate Answers(runs: Runs, key: RunKey) {
    key in runs && runs[key] in {Succeeded, Partial}
  }

  /**
   * A pull that advances has its window answered for if and only if it did not find the run already closed as failed
   * or rate-limited: such a window is walked over without the provider ever being asked again.
   */
  lemma AdvanceIsAnsweredIff(p: Policy, read: Cursor, stored: Cursor, runs: Runs, now: int, later: int, w: World)
    requires Advance(p, read, runs, Backfill, now, w).Some?
    ensures var key := RunKey(Backfill, Advance(p, read, runs, Backfill, now, w).value);
            var after := Pull(p, read, stored, runs, Backfill, now, later, w).runs;
            && key in after && after[key] != Running
            && (Answers(after, key) <==> key !in runs || runs[key] in {Running, Succeeded, Partial})
  {
    var key := RunKey(Backfill, Advance(p, read, runs, Backfill, now, w).value);
    if key in runs && runs[key] != Running {
      assert Pull(p, read, stored, runs, Backfill, now, later, w).runs == runs;
    }
  }

  // --- A whole backfill ---------------------------------------------------------------------------------

  datatype Event = Event(kind: Kind, now: int, later: int, world: World)

  datatype State = State(cursor: Cursor, runs: Runs)

  /** Pulls one after another, each from the row the last one left. */
  function After(p: Policy, s: State, e: Event): State {
    var r := Pull(p, s.cursor, s.cursor, s.runs, e.kind, e.now, e.later, e.world);
    State(r.cursor, r.runs)
  }

  function Exec(p: Policy, s: State, events: seq<Event>): State
    decreases |events|
  {
    if events == [] then s else Exec(p, After(p, s, events[0]), events[1..])
  }

  /** The windows the backfill walked over, in the order it did. */
  function Tiles(p: Policy, s: State, events: seq<Event>): seq<Window>
    decreases |events|
  {
    if events == [] then []
    else
      var step := Advance(p, s.cursor, s.runs, events[0].kind, events[0].now, events[0].world);
      Prepended(step, Tiles(p, After(p, s, events[0]), events[1..]))
  }

  /** A clock that never goes back. */
  ghost predicate InOrder(events: seq<Event>, from: int) {
    && (forall i :: 0 <= i < |events| ==> from <= events[i].now <= events[i].later)
    && (forall i, j :: 0 <= i < j < |events| ==> events[i].later <= events[j].now)
  }

  ghost predicate Abut(tiles: seq<Window>) {
    && (forall i :: 0 <= i < |tiles| ==> tiles[i].start < tiles[i].end)
    && (forall i :: 0 < i < |tiles| ==> tiles[i].end == tiles[i - 1].start)
  }

  lemma AbutPrepend(w: Window, rest: seq<Window>)
    requires Abut(rest) && w.start < w.end && (rest != [] ==> rest[0].end == w.start)
    ensures Abut([w] + rest)
  {
    var tiles := [w] + rest;
    forall i | 0 < i < |tiles|
      ensures tiles[i].end == tiles[i - 1].start
    {
      if 1 < i {
        assert rest[i - 1].end == rest[i - 2].start;
      }
    }
  }

  /** Where the walked windows leave the backfill cursor. */
  function Reached(from: Option<int>, tiles: seq<Window>): Option<int> {
    if tiles == [] then from else Some(tiles[|tiles| - 1].start)
  }

  /** What one pull contributes: a window that ends where the cursor stood, and the cursor at its start. */
  ghost predicate Contributes(before: Option<int>, step: Option<Window>, after: Option<int>) {
    match step
    case None => after == before
    case Some(w) => w.start < w.end && after == Some(w.start) && (before.Some? ==> before.value == w.end)
  }

  lemma PullContributes(p: Policy, s: State, e: Event)
    requires 1 <= p.daysPerPass
    ensures Contributes(s.cursor.backfillCursor, Advance(p, s.cursor, s.runs, e.kind, e.now, e.world), After(p, s, e).cursor.backfillCursor)
  {
    BackfillMovesExactlyByAdvancing(p, s.cursor, s.cursor, s.runs, e.kind, e.now, e.later, e.world);
  }

  function Prepended(step: Option<Window>, rest: seq<Window>): seq<Window> {
    if step.Some? then [step.value] + rest else rest
  }

  ghost predicate WalksBack(before: Option<int>, tiles: seq<Window>, after: Option<int>) {
    && Abut(tiles) && after == Reached(before, tiles)
    && (tiles != [] && before.Some? ==> tiles[0].end == before.value)
  }

  lemma OneMoreTile(before: Option<int>, step: Option<Window>, middle: Option<int>, rest: seq<Window>, after: Option<int>)
    requires Contributes(before, step, middle) && WalksBack(middle, rest, after)
    ensures WalksBack(before, Prepended(step, rest), after)
  {
    if step.Some? {
      AbutPrepend(step.value, rest);
    }
  }

  /**
   * Whatever pulls of either kind come one after another, failing or not, the windows the backfill walked tile
   * backwards: each ends where the one before began, the first where the cursor stood.
   */
  lemma {:induction false} TilesWalkBack(p: Policy, s: State, events: seq<Event>)
    requires 1 <= p.daysPerPass
    ensures WalksBack(s.cursor.backfillCursor, Tiles(p, s, events), Exec(p, s, events).cursor.backfillCursor)
    decreases |events|
  {
    if events != [] {
      var e := events[0];
      PullContributes(p, s, e);
      TilesWalkBack(p, After(p, s, e), events[1..]);
      OneMoreTile(s.cursor.backfillCursor, Advance(p, s.cursor, s.runs, e.kind, e.now, e.world), After(p, s, e).cursor.backfillCursor,
                  Tiles(p, After(p, s, e), events[1..]), Exec(p, After(p, s, e), events[1..]).cursor.backfillCursor);
    }
  }

  // --- Which walked windows were answered for ---------------------------------------------------------------

  /** The backfill window a pull asked for and got no answer to: its run is closed as failed or rate-limited. */
  function Lapse(p: Policy, s: State, e: Event): Option<Window> {
    var window := WindowFor(p, s.cursor, e.kind, e.now);
    if e.kind == Scheduled || window.None? || !e.world.active || !e.world.budget then None
    else
      var key := RunKey(Backfill, window.value);
      if (key in s.runs && s.runs[key] != Running) || (e.world.credential && e.world.fetch.Answered?) then None else window
  }

  function Lapses(p: Policy, s: State, events: seq<Event>): seq<Window>
    decreases |events|
  {
    if events == [] then [] else Prepended(Lapse(p, s, events[0]), Lapses(p, After(p, s, events[0]), events[1..]))
  }

  lemma InPrepended(step: Option<Window>, rest: seq<Window>, w: Window)
    ensures w in Prepended(step, rest) <==> step == Some(w) || w in rest
  {
    if step.Some? {
      assert Prepended(step, rest)[0] == step.value;
      assert forall x :: x in rest ==> x in [step.value] + rest;
    }
  }

  /** One pull closes a backfill run without an answer exactly by lapsing, and never reopens a closed one. */
  lemma PullAndTheRun(p: Policy, s: State, e: Event, w: Window)
    ensures var key := RunKey(Backfill, w);
            && (Unanswered(After(p, s, e).runs, key) <==> Unanswered(s.runs, key) || Lapse(p, s, e) == Some(w))
            && (Answers(s.runs, key) ==> Answers(After(p, s, e).runs, key))
  {
    EveryReturnReleases(p, s.cursor, s.cursor, s.runs, e.kind, e.now, e.later, e.world);
  }

  lemma {:induction false} UnansweredExactlyByLapse(p: Policy, s: State, events: seq<Event>, w: Window)
    ensures Unanswered(Exec(p, s, events).runs, RunKey(Backfill, w)) <==>
            Unanswered(s.runs, RunKey(Backfill, w)) || w in Lapses(p, s, events)
    ensures Answers(s.runs, RunKey(Backfill, w)) ==> Answers(Exec(p, s, events).runs, RunKey(Backfill, w))
    decreases |events|
  {
    if events != [] {
      PullAndTheRun(p, s, events[0], w);
      UnansweredExactlyByLapse(p, After(p, s, events[0]), events[1..], w);
      InPrepended(Lapse(p, s, events[0]), Lapses(p, After(p, s, events[0]), events[1..]), w);
    }
  }

  /** A walked window's run is closed, one way or the other. */
  lemma {:induction false} TilesAreClosed(p: Policy, s: State, events: seq<Event>, w: Window)
    requires w in Tiles(p, s, events)
    ensures var runs := Exec(p, s, events).runs; Answers(runs, RunKey(Backfill, w)) || Unanswered(runs, RunKey(Backfill, w))
    decreases |events|
  {
    var e := events[0];
    var step, s' := Advance(p, s.cursor, s.runs, e.kind, e.now, e.world), After(p, s, e);
    InPrepended(step, Tiles(p, s', events[1..]), w);
    if step == Some(w) {
      AdvanceIsAnsweredIff(p, s.cursor, s.cursor, s.runs, e.now, e.later, e.world);
      UnansweredExactlyByLapse(p, s', events[1..], w);
    } else {
      TilesAreClosed(p, s', events[1..], w);
    }
  }

  /**
   * Over any sequence of pulls, a window the backfill walked was answered for by the provider if and only if no pull
   * over it closed its run as failed or rate-limited.
   */
  lemma WalkedWindowIsAnsweredIff(p: Policy, s: State, events: seq<Event>, w: Window)
    requires w in Tiles(p, s, events)
    ensures Answers(Exec(p, s, events).runs, RunKey(Backfill, w)) <==>
            !Unanswered(s.runs, RunKey(Backfill, w)) && w !in Lapses(p, s, events)
  {
    TilesAreClosed(p, s, events, w);
    UnansweredExactlyByLapse(p, s, events, w);
  }

  /** A pull that gets no answer and any later one over the same window, from every cursor: it is walked over unanswered. */
  lemma FailedWindowIsPassedOver(p: Policy, s: State, first: Event, second: Event)
    requires Lapse(p, s, first).Some? && first.kind == second.kind == Backfill
    requires WindowFor(p, s.cursor, Backfill, second.now) == Lapse(p, s, first)
    requires second.world.active && second.world.budget
    ensures var w := Lapse(p, s, first).value;
            Tiles(p, s, [first, second]) == [w] && Unanswered(Exec(p, s, [first, second]).runs, RunKey(Backfill, w))
  {
    var events, w, s' := [first, second], Lapse(p, s, first).value, After(p, s, first);
    PullAndTheRun(p, s, first, w);
    PullAndTheRun(p, s', second, w);
    assert events[1..] == [second] && [second][1..] == [];
    assert Tiles(p, After(p, s', second), []) == [];
    assert Advance(p, s'.cursor, s'.runs, Backfill, second.now, second.world) == Some(w);
    assert Exec(p, s', [second]) == After(p, s', second);
  }

  /** Windows that abut cover every instant between their ends once. */
  lemma {:induction false} EveryInstantOnce(tiles: seq<Window>, t: int)
    requires Abut(tiles) && tiles != [] && tiles[|tiles| - 1].start <= t < tiles[0].end
    ensures exists i :: 0 <= i < |tiles| && tiles[i].start <= t < tiles[i].end
    ensures forall i, j :: 0 <= i < |tiles| && 0 <= j < |tiles| && tiles[i].start <= t < tiles[i].end && tiles[j].start <= t < tiles[j].end ==> i == j
    decreases |tiles|
  {
    if |tiles| > 1 {
      var rest := tiles[1..];
      assert rest[|rest| - 1] == tiles[|tiles| - 1];
      forall i | 0 < i < |rest|
        ensures rest[i].end == rest[i - 1].start
      {
        assert tiles[i + 1].end == tiles[i].start;
      }
      LaterTilesAreEarlier(tiles, |tiles| - 1);
      if t < rest[0].end {
        EveryInstantOnce(rest, t);
        var k :| 0 <= k < |rest| && rest[k].start <= t < rest[k].end;
        assert tiles[k + 1].start <= t < tiles[k + 1].end;
        forall i, j | 0 <= i < |tiles| && 0 <= j < |tiles| && tiles[i].start <= t < tiles[i].end && tiles[j].start <= t < tiles[j].end
          ensures i == j
        {
          assert 0 < i && 0 < j;
          assert rest[i - 1] == tiles[i] && rest[j - 1] == tiles[j];
        }
      }
    }
  }

  lemma {:induction false} LaterTilesAreEarlier(tiles: seq<Window>, n: nat)
    requires Abut(tiles) && n < |tiles|
    ensures forall i :: 0 < i <= n ==> tiles[i].end <= tiles[0].start
  {
    if n > 0 {
      LaterTilesAreEarlier(tiles, n - 1);
      if n > 1 {
        assert tiles[n].end == tiles[n - 1].start < tiles[n - 1].end;
      }
    }
  }

  /** Passes needed to walk from `end` down to `horizon`: the quotient, rounded up. */
  function PassesLeft(end: int, horizon: int, step: int): (n: nat)
    requires 0 < step
    ensures (n - 1) * step < Max(end - horizon, 1) && end - horizon <= n * step
  {
    if end <= horizon then 0
    else
      var n := (end - horizon + step - 1) / step;
      assert end - horizon + step - 1 == n * step + (end - horizon + step - 1) % step;
      assert (n - 1) * step == n * step - step;
      n
  }

  lemma Scale(a: int, b: int, c: int)
    requires a <= b && 0 <= c
    ensures a * c <= b * c
  {
    assert b * c - a * c == (b - a) * c;
  }

  lemma Cancel(a: int, b: int, step: int)
    requires 0 < step && a * step < b * step
    ensures a < b
  {
    if b <= a {
      Scale(b, a, step);
    }
  }

  lemma FewerPasses(e: int, h: int, e': int, h': int, step: int)
    requires 0 < step && h <= h' && h < e && (e' <= e - step || e' <= h')
    ensures PassesLeft(e', h', step) < PassesLeft(e, h, step)
  {
    var n, n' := PassesLeft(e, h, step), PassesLeft(e', h', step);
    assert 0 * step < n * step;
    Cancel(0, n, step);
    if h' < e' {
      assert (n - 1) * step == n * step - step;
      assert (n' - 1) * step < (n - 1) * step;
      Cancel(n' - 1, n - 1, step);
    }
  }

  /** However many other pulls come between, no more advancing passes follow than the distance to the horizon takes. */
  lemma {:induction false} BackfillEnds(p: Policy, s: State, events: seq<Event>, from: int)
    requires 1 <= p.daysPerPass && s.cursor.backfillCursor.Some? && InOrder(events, from)
    ensures |Tiles(p, s, events)| <= PassesLeft(s.cursor.backfillCursor.value, Horizon(p, from), p.daysPerPass * DAY)
    decreases |events|
  {
    if events != [] {
      var e, step := events[0], p.daysPerPass * DAY;
      var s' := After(p, s, e);
      var tile := Advance(p, s.cursor, s.runs, e.kind, e.now, e.world);
      BackfillMovesExactlyByAdvancing(p, s.cursor, s.cursor, s.runs, e.kind, e.now, e.later, e.world);
      HorizonOnlyAdvances(p, from, e.now);
      assert InOrder(events[1..], e.now);
      BackfillEnds(p, s', events[1..], e.now);
      if tile.Some? {
        FewerPasses(s.cursor.backfillCursor.value, Horizon(p, from), tile.value.start, Horizon(p, e.now), step);
      } else {
        PassesShrinkWithHorizon(s.cursor.backfillCursor.value, Horizon(p, from), Horizon(p, e.now), step);
      }
    }
  }

  lemma PassesShrinkWithHorizon(e: int, h: int, h': int, step: int)
    requires 0 < step && h <= h'
    ensures PassesLeft(e, h', step) <= PassesLeft(e, h, step)
  {
    var n, n' := PassesLeft(e, h, step), PassesLeft(e, h', step);
    if h' < e {
      assert (n' - 1) * step < n * step;
      Cancel(n' - 1, n, step);
    }
  }

  // --- Pulls that overtake each other -------------------------------------------------------------------------

  /** A pull that read the cursor row as it was after `read` releases, and meets these runs; it commits after the last. */
  datatype Overlapping = Overlapping(read: nat, runs: Runs, event: Event)

  /** The cursor row after each release so far. */
  function Released(p: Policy, history: seq<Cursor>, o: Overlapping): Cursor
    requires o.read < |history|
  {
    Pull(p, history[o.read], history[|history| - 1], o.runs, o.event.kind, o.event.now, o.event.later, o.event.world).cursor
  }

  function Walked(p: Policy, history: seq<Cursor>, o: Overlapping): Option<Window>
    requires o.read < |history|
  {
    Advance(p, history[o.read], o.runs, o.event.kind, o.event.now, o.event.world)
  }

  predicate CanOverlap(n: nat, overlaps: seq<Overlapping>) {
    forall i :: 0 <= i < |overlaps| ==> overlaps[i].read < n + i
  }

  function History(p: Policy, history: seq<Cursor>, overlaps: seq<Overlapping>): (h: seq<Cursor>)
    requires CanOverlap(|history|, overlaps)
    ensures |history| <= |h|
    decreases |overlaps|
  {
    if overlaps == [] then history
    else
      assert forall i :: 0 <= i < |overlaps[1..]| ==> overlaps[1..][i] == overlaps[i + 1];
      History(p, history + [Released(p, history, overlaps[0])], overlaps[1..])
  }

  function AllWalked(p: Policy, history: seq<Cursor>, overlaps: seq<Overlapping>): seq<Window>
    requires CanOverlap(|history|, overlaps)
    decreases |overlaps|
  {
    if overlaps == [] then []
    else
      assert forall i :: 0 <= i < |overlaps[1..]| ==> overlaps[1..][i] == overlaps[i + 1];
      Prepended(Walked(p, history, overlaps[0]), AllWalked(p, history + [Released(p, history, overlaps[0])], overlaps[1..]))
  }

  /** An overtaken pull sets the backfill back exactly when it advances over a window that starts after where it stands. */
  lemma SetBackExactly(p: Policy, history: seq<Cursor>, o: Overlapping)
    requires 1 <= p.daysPerPass && o.read < |history| && history[|history| - 1].backfillCursor.Some?
    ensures var stands, after := history[|history| - 1].backfillCursor.value, Released(p, history, o).backfillCursor;
            after.Some? && (after.value > stands <==> Walked(p, history, o).Some? && Walked(p, history, o).value.start > stands)
  {
    BackfillMovesExactlyByAdvancing(p, history[o.read], history[|history| - 1], o.runs, o.event.kind, o.event.now, o.event.later, o.event.world);
  }

  ghost predicate CoveredBy(walked: seq<Window>, t: int) {
    exists w :: w in walked && w.start <= t < w.end
  }

  /** Everything between where this row stands and the top is in one of the windows. */
  ghost predicate NoGap(c: Cursor, walked: seq<Window>, top: int) {
    c.backfillCursor.Some? ==> forall t :: c.backfillCursor.value <= t < top ==> CoveredBy(walked, t)
  }

  ghost predicate NoGaps(history: seq<Cursor>, walked: seq<Window>, top: int) {
    forall i :: 0 <= i < |history| ==> NoGap(history[i], walked, top)
  }

  /** No pull of the sequence refreshes from before the top. */
  ghost predicate RefreshesFrom(p: Policy, overlaps: seq<Overlapping>, top: int) {
    forall i :: 0 <= i < |overlaps| ==> top <= RefreshStart(p, overlaps[i].event.now)
  }

  lemma OneMoreWithoutGap(p: Policy, history: seq<Cursor>, walked: seq<Window>, o: Overlapping, top: int)
    requires 1 <= p.daysPerPass && o.read < |history| && NoGaps(history, walked, top) && top <= RefreshStart(p, o.event.now)
    ensures var step := Walked(p, history, o);
            NoGaps(history + [Released(p, history, o)], walked + (if step.Some? then [step.value] else []), top)
  {
    var read, step, after := history[o.read], Walked(p, history, o), Released(p, history, o);
    var more := walked + if step.Some? then [step.value] else [];
    BackfillMovesExactlyByAdvancing(p, read, history[|history| - 1], o.runs, o.event.kind, o.event.now, o.event.later, o.event.world);
    forall t | CoveredBy(walked, t)
      ensures CoveredBy(more, t)
    {
      var w :| w in walked && w.start <= t < w.end;
      assert w in more;
    }
    if step.Some? {
      assert step.value == more[|walked|];
      forall t | after.backfillCursor.value <= t < top
        ensures CoveredBy(more, t)
      {
        if t >= step.value.end {
          assert NoGap(read, walked, top) && CoveredBy(walked, t);
        }
      }
    } else {
      assert NoGap(history[|history| - 1], walked, top);
    }
    forall i | 0 <= i < |history|
      ensures NoGap(history[i], more, top)
    {
      assert NoGap(history[i], walked, top);
    }
  }

  lemma {:induction false} OverlapsLeaveNoGap(p: Policy, history: seq<Cursor>, walked: seq<Window>, overlaps: seq<Overlapping>, top: int)
    requires 1 <= p.daysPerPass && CanOverlap(|history|, overlaps) && NoGaps(history, walked, top) && RefreshesFrom(p, overlaps, top)
    ensures NoGaps(History(p, history, overlaps), walked + AllWalked(p, history, overlaps), top)
    decreases |overlaps|
  {
    if overlaps == [] {
      assert walked + [] == walked;
    } else {
      assert forall i :: 0 <= i < |overlaps[1..]| ==> overlaps[1..][i] == overlaps[i + 1];
      var o, step := overlaps[0], Walked(p, history, overlaps[0]);
      var more := walked + if step.Some? then [step.value] else [];
      OneMoreWithoutGap(p, history, walked, o, top);
      OverlapsLeaveNoGap(p, history + [Released(p, history, o)], more, overlaps[1..], top);
      assert more + AllWalked(p, history + [Released(p, history, o)], overlaps[1..]) == walked + AllWalked(p, history, overlaps);
    }
  }

  /**
   * However pulls overtake each other, each releasing over a row it read any number of releases ago: wherever the
   * backfill stood or stands, every instant from there up to where it began lies in a window that was walked.
   */
  lemma OvertakingLeavesNoGap(p: Policy, start: Cursor, overlaps: seq<Overlapping>, top: int, i: nat, t: int)
    requires 1 <= p.daysPerPass && CanOverlap(1, overlaps) && RefreshesFrom(p, overlaps, top)
    requires start.backfillCursor.Some? ==> top <= start.backfillCursor.value
    requires i < |History(p, [start], overlaps)| && History(p, [start], overlaps)[i].backfillCursor.Some?
    requires History(p, [start], overlaps)[i].backfillCursor.value <= t < top
    ensures CoveredBy(AllWalked(p, [start], overlaps), t)
  {
    OverlapsLeaveNoGap(p, [start], [], overlaps, top);
    assert [] + AllWalked(p, [start], overlaps) == AllWalked(p, [start], overlaps);
    assert NoGap(History(p, [start], overlaps)[i], AllWalked(p, [start], overlaps), top);
  }

  /** The run that does set it back: two pulls walk on while a third, which read the row first, is still under way. */
  lemma OvertakenSetsBack(p: Policy, start: Cursor, now: int, w: World) returns (overlaps: seq<Overlapping>)
    requires 1 <= p.daysPerPass && p.backfillEnabled && start.completedAt.None? && start.backfillCursor.Some?
    requires Horizon(p, now) < start.backfillCursor.value - p.daysPerPass * DAY
    requires w.active && w.budget && w.credential && w.fetch.Answered?
    ensures CanOverlap(1, overlaps)
    ensures var h := History(p, [start], overlaps);
            && |h| == 4 && h[2].backfillCursor.Some? && h[3].backfillCursor.Some?
            && h[2].backfillCursor.value < h[3].backfillCursor.value < start.backfillCursor.value
  {
    var e := Event(Backfill, now, now, w);
    var a, b, c := Overlapping(0, map[], e), Overlapping(1, map[], e), Overlapping(0, map[], e);
    overlaps := [a, b, c];
    var h1 := [start, Released(p, [start], a)];
    var h2 := h1 + [Released(p, h1, b)];
    var h3 := h2 + [Released(p, h2, c)];
    assert [start] + [Released(p, [start], a)] == h1;
    assert overlaps[1..] == [b, c] && [b, c][1..] == [c] && [c][1..] == [];
    assert History(p, h2, [c]) == h3;
    assert History(p, h1, [b, c]) == h3;
    assert History(p, [start], overlaps) == h3;
  }

  /** Once the horizon is reached the backfill stays there. */
  lemma ReachedIsReached(p: Policy, c: Cursor, now: int, later: int)
    requires now <= later && c.backfillCursor.Some? && c.backfillCursor.value <= Horizon(p, now)
    ensures WindowFor(p, c, Backfill, later).None?
  {
    HorizonOnlyAdvances(p, now, later);
  }

  class Service {
    const policy: Policy
    var cursor: Cursor
    var runs: Runs

    constructor (p: Policy, c: Cursor)
      ensures policy == p && cursor == c && runs == map[]
    {
      policy, cursor, runs := p, c, map[];
    }

    method Claim(now: int) returns (won: bool)
      modifies `cursor
      ensures won == Claimable(policy, old(cursor), now) && cursor == TryClaim(policy, old(cursor), now)
      ensures var due := old(cursor.nextAttemptAt).Some? ==> old(cursor.nextAttemptAt).value <= now;
              var free := old(cursor.claimedAt).Some? ==> now - old(cursor.claimedAt).value > policy.leaseMs;
              won <==> due && free
      ensures cursor == if won then old(cursor).(claimedAt := Some(now)) else old(cursor)
    {
      won := (cursor.nextAttemptAt.None? || cursor.nextAttemptAt.value <= now)
             && (cursor.claimedAt.None? || cursor.claimedAt.value < now - policy.leaseMs);
      if won {
        cursor := cursor.(claimedAt := Some(now));
      }
    }

    method Release(read: Cursor, later: int, w: World)
      modifies `cursor
      ensures cursor == ReleaseFailed(old(cursor), read, later, w)
    {
      cursor := cursor.(claimedAt := None, failures := read.failures + 1);
      cursor := cursor.(nextAttemptAt := Some(later + w.backoffMs));
    }

    method ReleaseDone(kind: Kind, covered: Option<Window>, later: int)
      modifies `cursor
      ensures cursor == ReleaseOk(policy, old(cursor), kind, covered, later)
    {
      cursor := cursor.(claimedAt := None, failures := 0, lastSucceededAt := Some(later), nextAttemptAt := Some(later + policy.intervalMs));
      if covered.Some? {
        cursor := cursor.(lastCovered := Some(covered.value.end));
        if kind == Backfill {
          cursor := cursor.(backfillCursor := Some(covered.value.start));
          if covered.value.start <= Horizon(policy, later) {
            cursor := cursor.(completedAt := Some(later));
          }
        }
      }
    }

    /** The unit of ingestion, from the row the job read to the release every path ends with. */
    method PullWindow(read: Cursor, kind: Kind, now: int, later: int, w: World) returns (status: PullStatus, run: Option<RunKey>)
      modifies `cursor, `runs
      ensures var r := Pull(policy, read, old(cursor), old(runs), kind, now, later, w);
              cursor == r.cursor && runs == r.runs && status == r.status && run == r.run
      ensures cursor.claimedAt.None? && (run.Some? ==> run.value in runs && runs[run.value] != Running)
    {
      var window := WindowFor(policy, read, kind, now);
      if window.None? {
        ReleaseDone(Scheduled, None, later);
        return PullSucceeded, None;
      }
      if !w.active {
        Release(read, later, w);
        return PullFailed, None;
      }
      if !w.budget {
        cursor := ReleaseRateLimited(cursor, later, w);
        return PullRateLimited, None;
      }
      var key := RunKey(kind, window.value);
      if key in runs && runs[key] != Running {
        ReleaseDone(kind, window, later);
        return if runs[key] == Partial then PullPartial else PullSucceeded, Some(key);
      }
      runs := runs[key := Running];
      if !w.credential {
        runs := runs[key := Failed];
        Release(read, later, w);
        return PullFailed, Some(key);
      }
      match w.fetch {
        case RateLimited =>
          runs := runs[key := Skipped];
          cursor := ReleaseRateLimited(cursor, later, w);
          return PullRateLimited, Some(key);
        case Answered(partial) =>
          runs := runs[key := if partial then Partial else Succeeded];
          ReleaseDone(kind, window, later);
          return if partial then PullPartial else PullSucceeded, Some(key);
        case _ =>
          runs := runs[key := Failed];
          Release(read, later, w);
          return PullFailed, Some(key);
      }
    }
  }
}
