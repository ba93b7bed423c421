/** What a scan verdict means for an asset: which bytes CLEAN stands for, and how often a pass is retried. */
module AssetVerdicts {
  import opened Text
  import opened StorageKeys
  import opened AssetLifecycle
  import opened AssetHistory

  // --- A clean asset and the scan that cleared it ----------------------------------------------------------

  /** The asset row says CLEAN only about bytes some scan returned clean for. */
  ghost predicate CleanIsCleared(s: State, id: string) {
    id in s.assets && s.assets[id].scan == Clean ==> s.assets[id].content in s.cleared
  }

  /** A clean verdict about to be committed although the asset's bytes have changed since the pass read them. */
  predicate StaleVerdict(s: State, st: Step, id: string) {
    && st.FinishProcess? && st.flight in s.flights && st.flight.asset == id && id in s.assets && st.flight.job in s.jobs
    && FailureOf(st.flight, st.verdict, st.signatureOk).None?
    && s.assets[id].content != st.flight.bytes.value
  }

  /** Some pass of the run scanned these very bytes and was told they are clean. */
  predicate ScannedClean(workspace: string, s: State, steps: seq<Step>, content: int)
    decreases |steps|
  {
    steps != [] &&
    ((steps[0].FinishProcess? && Accepted(workspace, s, steps[0]) && steps[0].verdict == SaysClean && steps[0].flight.bytes == Some(content))
     || ScannedClean(workspace, Next(workspace, s, steps[0]), steps[1..], content))
  }

  lemma {:induction false} ClearedExactlyByScans(workspace: string, s: State, steps: seq<Step>, content: int)
    ensures content in Run(workspace, s, steps).cleared <==> content in s.cleared || ScannedClean(workspace, s, steps, content)
    decreases |steps|
  {
    if steps != [] {
      ClearedExactlyByScans(workspace, Next(workspace, s, steps[0]), steps[1..], content);
    }
  }

  lemma OtherCallsKeepCleared(workspace: string, s: State, st: Step, id: string)
    requires Accepted(workspace, s, st) && id in s.assets && !st.FinishProcess? && CleanIsCleared(s, id)
    requires VersionsCleared(s.cleared, s.assets[id])
    ensures RowAfter(workspace, s, st, id).scan == Clean ==> RowAfter(workspace, s, st, id).content in s.cleared
  {
  }

  lemma VerdictKeepsClearedIff(a: Asset, f: Flight, verdict: Verdict, ok: bool, job: Job, cleared: set<int>)
    requires a.scan == Clean ==> a.content in cleared
    ensures var b := ProcessedAsset(a, f, verdict, ok, job);
            var after := if f.bytes.Some? && verdict == SaysClean then cleared + {f.bytes.value} else cleared;
            (b.scan == Clean ==> b.content in after) <==>
            !(FailureOf(f, verdict, ok).None? && a.content != f.bytes.value && a.content !in cleared)
  {
  }

  lemma StepKeepsClearedIff(workspace: string, s: State, st: Step, id: string)
    requires Inv(workspace, s) && CleanIsCleared(s, id)
    ensures CleanIsCleared(Next(workspace, s, st), id) <==> !(StaleVerdict(s, st, id) && s.assets[id].content !in s.cleared)
  {
    if Accepted(workspace, s, st) && id in s.assets {
      NextRow(workspace, s, st, id);
      assert AssetInv(workspace, s.objects, s.cleared, id, s.assets[id]);
      if !st.FinishProcess? {
        OtherCallsKeepCleared(workspace, s, st, id);
      } else if st.flight.asset == id {
        var f := st.flight;
        VerdictKeepsClearedIff(s.assets[id], f, st.verdict, st.signatureOk,
                               ProcessedJob(s.jobs[f.job], f, st.verdict, st.signatureOk), s.cleared);
      }
    }
  }

  /**
   * Exactly one step of a run can break it: a clean verdict on bytes that were replaced while they were being scanned,
   * by bytes no pass of the run has had a clean verdict on.
   */
  lemma CleanIsClearedIff(workspace: string, steps: seq<Step>, st: Step, id: string)
    requires Plain(workspace) && CleanIsCleared(Run(workspace, EMPTY, steps), id)
    ensures var s := Run(workspace, EMPTY, steps);
            CleanIsCleared(Next(workspace, s, st), id) <==>
            !(StaleVerdict(s, st, id) && !ScannedClean(workspace, EMPTY, steps, s.assets[id].content))
  {
    RunKeepsInv(workspace, EMPTY, steps);
    var s := Run(workspace, EMPTY, steps);
    StepKeepsClearedIff(workspace, s, st, id);
    if id in s.assets {
      ClearedExactlyByScans(workspace, EMPTY, steps, s.assets[id].content);
    }
  }

  /** A pass that commits before any other call does is never stale. */
  lemma UninterruptedPassIsNeverStale(workspace: string, s: State, job: int, verdict: Verdict, signatureOk: bool, id: string)
    requires Inv(workspace, s) && Accepted(workspace, s, BeginProcess(job))
    ensures var t := Next(workspace, s, BeginProcess(job));
            var a := s.assets[s.jobs[job].asset];
            exists f :: f in t.flights && f.job == job && f.version == a.current
              && !StaleVerdict(t, FinishProcess(f, verdict, signatureOk), id)
  {
    var t, of := Next(workspace, s, BeginProcess(job)), s.jobs[job].asset;
    var a := s.assets[of];
    CurrentObject(workspace, s, of);
    var f := Flight(job, of, a.current, a.key, if a.key.Some? && a.key.value in s.objects then Some(s.objects[a.key.value]) else None);
    assert f in t.flights && t.assets[of] == a;
  }

  /** The version rows never have that problem: the verdict is written to the version that was read. */
  lemma CleanVersionsAreCleared(workspace: string, steps: seq<Step>, id: string, n: nat)
    requires Plain(workspace) && id in Run(workspace, EMPTY, steps).assets
    requires n in Run(workspace, EMPTY, steps).assets[id].versions
    requires Run(workspace, EMPTY, steps).assets[id].versions[n].scan == Clean
    ensures Run(workspace, EMPTY, steps).assets[id].versions[n].content in Run(workspace, EMPTY, steps).cleared
  {
    RunKeepsInv(workspace, EMPTY, steps);
    var s := Run(workspace, EMPTY, steps);
    assert AssetInv(workspace, s.objects, s.cleared, id, s.assets[id]);
  }

  /** No step commits a stale verdict for bytes nobody has cleared. */
  predicate NeverStale(workspace: string, s: State, steps: seq<Step>, id: string)
    decreases |steps|
  {
    steps == [] || (!(StaleVerdict(s, steps[0], id) && s.assets[id].content !in s.cleared) && NeverStale(workspace, Next(workspace, s, steps[0]), steps[1..], id))
  }

  lemma {:induction false} NeverStaleKeepsCleared(workspace: string, s: State, steps: seq<Step>, id: string)
    requires Inv(workspace, s) && CleanIsCleared(s, id) && NeverStale(workspace, s, steps, id)
    ensures CleanIsCleared(Run(workspace, s, steps), id)
    decreases |steps|
  {
    if steps != [] {
      StepKeepsClearedIff(workspace, s, steps[0], id);
      StepKeepsInv(workspace, s, steps[0]);
      NeverStaleKeepsCleared(workspace, Next(workspace, s, steps[0]), steps[1..], id);
    }
  }

  /** What another module is handed: bytes that are there, and that a scan returned clean for. */
  lemma SelectableIsSafeToUse(workspace: string, steps: seq<Step>, id: string)
    requires Plain(workspace) && NeverStale(workspace, EMPTY, steps, id)
    requires id in Run(workspace, EMPTY, steps).assets && Selectable(Run(workspace, EMPTY, steps).assets[id])
    ensures var s := Run(workspace, EMPTY, steps);
            s.assets[id].key.Some? && var key := s.assets[id].key.value;
            key in s.objects && s.objects[key] == s.assets[id].content && s.objects[key] in s.cleared
  {
    RunKeepsInv(workspace, EMPTY, steps);
    NeverStaleKeepsCleared(workspace, EMPTY, steps, id);
    var s := Run(workspace, EMPTY, steps);
    var a := s.assets[id];
    assert AssetInv(workspace, s.objects, s.cleared, id, a);
  }

  /**
   * A pass that fails leaves nothing another module could pick up: the asset is not selectable, no version row
   * has gained a verdict, and it is quarantined exactly when the scan was the problem. It is retried exactly
   * when the failure was operational and the job has attempts left.
   */
  lemma FailedPassIsNotUsable(workspace: string, s: State, st: Step)
    requires Inv(workspace, s) && st.FinishProcess? && Accepted(workspace, s, st)
    requires FailureOf(st.flight, st.verdict, st.signatureOk).Some?
    ensures var t, id, job := Next(workspace, s, st), st.flight.asset, st.flight.job;
            var reason := FailureOf(st.flight, st.verdict, st.signatureOk).value;
            && id in t.assets && job in t.jobs
            && !Selectable(t.assets[id]) && t.assets[id].versions == s.assets[id].versions
            && (t.assets[id].scan == Clean ==> s.assets[id].scan == Clean && reason !in {IsInfected, ScanFailed})
            && (t.assets[id].status == Quarantined <==> reason !in {ObjectMissing, ContentTypeMismatch})
            && (t.jobs[job].stage == Queued <==> reason in {ScanFailed, ScanUnavailable} && s.jobs[job].attempts + 1 < s.jobs[job].maxAttempts)
  {
    var f := st.flight;
    var job := ProcessedJob(s.jobs[f.job], f, st.verdict, st.signatureOk);
    assert Next(workspace, s, st).jobs[f.job] == job;
    assert Next(workspace, s, st).assets[f.asset] == ProcessedAsset(s.assets[f.asset], f, st.verdict, st.signatureOk, job);
  }

  lemma First(workspace: string, s: State, st: Step, rest: seq<Step>)
    ensures Run(workspace, s, [st] + rest) == Run(workspace, Next(workspace, s, st), rest)
  {
    assert ([st] + rest)[1..] == rest;
  }

  /** A first version uploaded and a pass over it under way. */
  function Scanning(workspace: string, session: string, id: string, bytes: int): State {
    var key := KeyFor(workspace, None, id, 1);
    State(map[id := UploadedAsset(workspace, None, id, bytes)], map[1 := Job(id, Queued, 0, 1)], map[session := Session(None, Used)],
          map[key := bytes], {Pass(workspace, id, bytes)}, {})
  }

  lemma InitiatedState(workspace: string, session: string)
    requires Plain(session)
    ensures Next(workspace, EMPTY, Initiate(session, None)) == State(map[], map[], map[session := Session(None, Open)], map[], {}, {})
  {
  }

  lemma CompletedState(workspace: string, session: string, id: string, bytes: int)
    requires Plain(id)
    ensures Next(workspace, State(map[], map[], map[session := Session(None, Open)], map[], {}, {}), Complete(session, id, bytes, 1, 1))
         == Scanning(workspace, session, id, bytes).(flights := {})
  {
  }

  lemma BegunState(workspace: string, session: string, id: string, bytes: int)
    ensures Next(workspace, Scanning(workspace, session, id, bytes).(flights := {}), BeginProcess(1))
         == Scanning(workspace, session, id, bytes)
  {
  }

  lemma UploadAndBegin(workspace: string, session: string, id: string, bytes: int, rest: seq<Step>)
    requires Plain(session) && Plain(id)
    ensures Run(workspace, EMPTY, [Initiate(session, None)] + ([Complete(session, id, bytes, 1, 1)] + ([BeginProcess(1)] + rest)))
         == Run(workspace, Scanning(workspace, session, id, bytes), rest)
  {
    var begun := State(map[], map[], map[session := Session(None, Open)], map[], {}, {});
    var scanning := Scanning(workspace, session, id, bytes);
    var uploaded := scanning.(flights := {});
    InitiatedState(workspace, session);
    CompletedState(workspace, session, id, bytes);
    BegunState(workspace, session, id, bytes);
    First(workspace, EMPTY, Initiate(session, None), [Complete(session, id, bytes, 1, 1)] + ([BeginProcess(1)] + rest));
    First(workspace, begun, Complete(session, id, bytes, 1, 1), [BeginProcess(1)] + rest);
    First(workspace, uploaded, BeginProcess(1), rest);
  }

  /** The only pass under way over these bytes. */
  function Pass(workspace: string, id: string, bytes: int): Flight {
    Flight(1, id, 1, Some(KeyFor(workspace, None, id, 1)), Some(bytes))
  }

  lemma ReplacedState(workspace: string, session: string, id: string, first: int, second: int)
    ensures var s := Next(workspace, Scanning(workspace, session, id, first), Step.AddVersion(id, second, 2, 1, 10));
            && id in s.assets && s.assets[id].content == second && !s.assets[id].deleted
            && s.flights == {Pass(workspace, id, first)} && 1 in s.jobs && s.cleared == {}
  {
    var scanning := Scanning(workspace, session, id, first);
    var s := Next(workspace, scanning, Step.AddVersion(id, second, 2, 1, 10));
    assert s.assets[id] == Appended(workspace, id, scanning.assets[id], second);
  }

  lemma CleanVerdictCommits(workspace: string, s: State, f: Flight)
    requires f in s.flights && f.job in s.jobs && f.asset in s.assets && !s.assets[f.asset].deleted && f.bytes.Some?
    ensures var t := Next(workspace, s, FinishProcess(f, SaysClean, true));
            && f.asset in t.assets && Selectable(t.assets[f.asset]) && t.assets[f.asset].content == s.assets[f.asset].content
            && t.cleared == s.cleared + {f.bytes.value}
  {
    var t := Next(workspace, s, FinishProcess(f, SaysClean, true));
    assert t.assets[f.asset] == ProcessedAsset(s.assets[f.asset], f, SaysClean, true, ProcessedJob(s.jobs[f.job], f, SaysClean, true));
  }

  /** Other bytes are uploaded meanwhile, and get the verdict on the first ones. */
  lemma ReplaceAndFinish(workspace: string, session: string, id: string, first: int, second: int) returns (rest: seq<Step>)
    ensures var s := Run(workspace, Scanning(workspace, session, id, first), rest);
            id in s.assets && Selectable(s.assets[id]) && s.assets[id].content == second && s.cleared == {first}
  {
    var add, finish := Step.AddVersion(id, second, 2, 1, 10), FinishProcess(Pass(workspace, id, first), SaysClean, true);
    var replaced := Next(workspace, Scanning(workspace, session, id, first), add);
    ReplacedState(workspace, session, id, first, second);
    CleanVerdictCommits(workspace, replaced, Pass(workspace, id, first));
    First(workspace, replaced, finish, []);
    First(workspace, Scanning(workspace, session, id, first), add, [finish]);
    assert [finish] + [] == [finish];
    rest := [add] + [finish];
  }

  /** The run, for any two contents: a second version uploaded while the first is being scanned ends READY and CLEAN unscanned. */
  lemma NewVersionGetsTheOldVerdict(workspace: string, session: string, id: string, first: int, second: int) returns (steps: seq<Step>)
    requires Plain(workspace) && Plain(session) && Plain(id) && first != second
    ensures var s := Run(workspace, EMPTY, steps);
            && id in s.assets && Selectable(s.assets[id]) && s.assets[id].content == second && s.cleared == {first}
            && !CleanIsCleared(s, id)
  {
    var rest := ReplaceAndFinish(workspace, session, id, first, second);
    UploadAndBegin(workspace, session, id, first, rest);
    steps := [Initiate(session, None)] + ([Complete(session, id, first, 1, 1)] + ([BeginProcess(1)] + rest));
  }

  // --- Bounded retries ---------------------------------------------------------------------------------

  predicate Commits(workspace: string, s: State, st: Step, job: int) {
    st.FinishProcess? && st.flight.job == job && Accepted(workspace, s, st)
  }

  /** A pass fails and its job is put back in the queue. */
  predicate Requeues(workspace: string, s: State, st: Step, job: int) {
    && Commits(workspace, s, st, job)
    && FailureOf(st.flight, st.verdict, st.signatureOk).Some?
    && ProcessedJob(s.jobs[job], st.flight, st.verdict, st.signatureOk).stage == Queued
  }

  function Passes(workspace: string, s: State, steps: seq<Step>, job: int): nat
    decreases |steps|
  {
    if steps == [] then 0
    else Passes(workspace, Next(workspace, s, steps[0]), steps[1..], job) + if Commits(workspace, s, steps[0], job) then 1 else 0
  }

  function Requeued(workspace: string, s: State, steps: seq<Step>, job: int): nat
    decreases |steps|
  {
    if steps == [] then 0
    else Requeued(workspace, Next(workspace, s, steps[0]), steps[1..], job) + if Requeues(workspace, s, steps[0], job) then 1 else 0
  }

  function Least(a: int, b: int): int {
    if a < b then a else b
  }

  lemma JobStep(workspace: string, s: State, st: Step, job: int)
    requires job in s.jobs
    ensures var t := Next(workspace, s, st);
            && job in t.jobs && t.jobs[job].maxAttempts == s.jobs[job].maxAttempts
            && t.jobs[job].attempts == s.jobs[job].attempts + (if Commits(workspace, s, st, job) then 1 else 0)
            && (Requeues(workspace, s, st, job) ==> s.jobs[job].attempts + 1 < s.jobs[job].maxAttempts)
  {
    match st {
      case FinishProcess(_, _, _) =>
      case Complete(_, _, _, _, _) =>
      case AddVersion(_, _, _, _, _) =>
      case _ => assert Next(workspace, s, st).jobs == s.jobs;
    }
  }

  /** Each requeue is an attempt short of the last one allowed. */
  lemma {:induction false} RequeuesAreAttempts(workspace: string, s: State, steps: seq<Step>, job: int)
    requires job in s.jobs
    ensures var t := Run(workspace, s, steps);
            var last := s.jobs[job].maxAttempts - 1;
            && job in t.jobs && t.jobs[job].maxAttempts == s.jobs[job].maxAttempts
            && t.jobs[job].attempts == s.jobs[job].attempts + Passes(workspace, s, steps, job)
            && Requeued(workspace, s, steps, job) <= Least(t.jobs[job].attempts, last) - Least(s.jobs[job].attempts, last)
    decreases |steps|
  {
    if steps != [] {
      JobStep(workspace, s, steps[0], job);
      RequeuesAreAttempts(workspace, Next(workspace, s, steps[0]), steps[1..], job);
    }
  }

  /**
   * However passes overlap, stop half-way or are delivered twice: a job counts exactly the passes that committed, and
   * failures put it back in the queue fewer times than its limit.
   */
  lemma RetriesAreBounded(workspace: string, s: State, steps: seq<Step>, job: int)
    requires job in s.jobs && s.jobs[job].attempts == 0 && 1 <= s.jobs[job].maxAttempts
    ensures job in Run(workspace, s, steps).jobs
    ensures Run(workspace, s, steps).jobs[job].attempts == Passes(workspace, s, steps, job)
    ensures Requeued(workspace, s, steps, job) < s.jobs[job].maxAttempts
  {
    RequeuesAreAttempts(workspace, s, steps, job);
  }
}
