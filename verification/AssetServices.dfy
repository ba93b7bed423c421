/** The upload, version, processing and maintenance services: their writes, in order, against the asset lifecycle. */
module AssetServices {
  import opened Text
  import opened StorageKeys
  import opened AssetLifecycle

  function Purges(ids: seq<string>): seq<Step> {
    seq(|ids|, i requires 0 <= i < |ids| => Step.Purge(ids[i]))
  }

  function Expiries(ids: seq<string>): seq<Step> {
    seq(|ids|, i requires 0 <= i < |ids| => Step.ExpireSession(ids[i]))
  }

  lemma {:induction false} RunSnoc(workspace: string, s: State, steps: seq<Step>, last: Step)
    ensures Run(workspace, s, steps + [last]) == Next(workspace, Run(workspace, s, steps), last)
    decreases |steps|
  {
    if steps == [] {
      assert [] + [last] == [last] && [last][1..] == [];
    } else {
      assert (steps + [last])[1..] == steps[1..] + [last];
      RunSnoc(workspace, Next(workspace, s, steps[0]), steps[1..], last);
    }
  }

  class Services {
    const workspace: string
    var assets: map<string, Asset>
    var jobs: map<int, Job>
    var sessions: map<string, Session>
    var objects: map<Location, int>
    ghost var flights: set<Flight>
    ghost var cleared: set<int>

    ghost function View(): State
      reads this
    {
      State(assets, jobs, sessions, objects, flights, cleared)
    }

    constructor (ws: string)
      requires Plain(ws)
      ensures workspace == ws && View() == EMPTY && Inv(workspace, View())
    {
      workspace := ws;
      assets, jobs, sessions, objects := map[], map[], map[], map[];
      flights, cleared := {}, {};
    }

    /** The first version of a new asset, quarantined until scanned. */
    method Complete(session: string, id: string, bytes: int, job: int, maxAttempts: nat) returns (ok: bool)
      modifies this
      ensures ok == Accepted(workspace, old(View()), Step.Complete(session, id, bytes, job, maxAttempts))
      ensures View() == Next(workspace, old(View()), Step.Complete(session, id, bytes, job, maxAttempts))
    {
      ghost var st := Step.Complete(session, id, bytes, job, maxAttempts);
      if session !in sessions || sessions[session].status != Open || id in assets || '/' in id || job in jobs || maxAttempts < 1 {
        return false;
      }
      var brand := sessions[session].brand;
      var key := KeyFor(workspace, brand, id, 1);
      var asset := Asset(brand, Some(key), bytes, 1, Pending, Processing, false, map[1 := FreshVersion(key, bytes)]);
      objects := objects[key := bytes];
      assets := assets[id := asset];
      jobs := jobs[job := Job(id, Queued, 0, maxAttempts)];
      sessions := sessions[session := sessions[session].(status := Used)];
      assert assets == AssetsAfter(workspace, old(View()), st);
      return true;
    }

    /** New bytes are a new object and a new version; the asset goes back to quarantine. */
    method AddVersion(id: string, bytes: int, job: int, maxAttempts: nat, maxVersions: nat) returns (ok: bool)
      modifies this
      ensures ok == Accepted(workspace, old(View()), Step.AddVersion(id, bytes, job, maxAttempts, maxVersions))
      ensures View() == Next(workspace, old(View()), Step.AddVersion(id, bytes, job, maxAttempts, maxVersions))
    {
      ghost var st := Step.AddVersion(id, bytes, job, maxAttempts, maxVersions);
      if id !in assets || assets[id].deleted || |assets[id].versions| >= maxVersions {
        return false;
      }
      var a := assets[id];
      var number := a.current + 1;
      if number in a.versions || job in jobs || maxAttempts < 1 {
        return false;
      }
      var key := KeyFor(workspace, a.brand, id, number);
      objects := objects[key := bytes];
      a := a.(versions := a.versions[number := Version(key, bytes, Pending)]);
      a := a.(current := number, key := Some(key), content := bytes, scan := Pending, status := Processing);
      assets := assets[id := a];
      jobs := jobs[job := Job(id, Queued, 0, maxAttempts)];
      assert assets == AssetsAfter(workspace, old(View()), st);
      return true;
    }

    /** Going back is a forward version on the old object, with the old verdict. */
    method RestoreVersion(id: string, number: nat, maxVersions: nat) returns (ok: bool)
      modifies this
      ensures ok == Accepted(workspace, old(View()), Step.RestoreVersion(id, number, maxVersions))
      ensures View() == Next(workspace, old(View()), Step.RestoreVersion(id, number, maxVersions))
    {
      ghost var st := Step.RestoreVersion(id, number, maxVersions);
      if id !in assets || assets[id].deleted || number !in assets[id].versions || |assets[id].versions| >= maxVersions {
        return false;
      }
      var a := assets[id];
      var source, next := a.versions[number], a.current + 1;
      if next in a.versions {
        return false;
      }
      a := a.(versions := a.versions[next := Version(source.key, source.content, source.scan)]);
      a := a.(current := next, key := Some(source.key), content := source.content, scan := source.scan,
              status := if source.scan == Clean then Ready else Quarantined);
      assets := assets[id := a];
      assert assets == AssetsAfter(workspace, old(View()), st);
      return true;
    }

    /** The reads of a processing pass. A finished job stops here. */
    method BeginProcess(job: int) returns (flight: Option<Flight>)
      modifies this
      ensures flight.Some? == Accepted(workspace, old(View()), Step.BeginProcess(job))
      ensures View() == Next(workspace, old(View()), Step.BeginProcess(job))
      ensures flight.Some? ==> flight.value in flights && flight.value.job == job
    {
      ghost var st := Step.BeginProcess(job);
      if job !in jobs || jobs[job].stage != Queued || jobs[job].asset !in assets {
        return None;
      }
      var id := jobs[job].asset;
      var a := assets[id];
      var bytes := if a.key.Some? && a.key.value in objects then Some(objects[a.key.value]) else None;
      var f := Flight(job, id, a.current, a.key, bytes);
      flights := flights + {f};
      assert assets == AssetsAfter(workspace, old(View()), st);
      return Some(f);
    }

    /** Record a failure: retry while it is operational and attempts are left, and say quarantine when the scan is the problem. */
    method Fail(job: int, id: string, reason: Reason)
      requires job in jobs && id in assets && 1 <= jobs[job].attempts
      modifies `jobs, `assets
      ensures jobs == old(jobs)[job := FailedJob(old(jobs[job]).(attempts := old(jobs[job]).attempts - 1), reason)]
      ensures assets == old(assets)[id := FailedAsset(old(assets[id]), reason, jobs[job])]
    {
      var terminal := reason in {ObjectMissing, IsInfected, ContentTypeMismatch};
      var retryable := !terminal && reason in {ScanFailed, ScanUnavailable} && jobs[job].attempts < jobs[job].maxAttempts;
      jobs := jobs[job := jobs[job].(stage := if retryable then Queued else GaveUp)];
      var status := if reason in {IsInfected, ScanFailed, ScanUnavailable} then Quarantined
                    else if retryable then Processing else ProcessingFailed;
      assets := assets[id := assets[id].(status := status)];
    }

    /** A clean file: the asset row, the version row that was read, then READY and the job. */
    method MarkReady(f: Flight)
      requires f.job in jobs && f.asset in assets
      modifies `jobs, `assets
      ensures jobs == old(jobs)[f.job := old(jobs[f.job]).(stage := AssetLifecycle.Completed)]
      ensures assets == old(assets)[f.asset := old(assets[f.asset]).(scan := Clean, status := Ready,
                                      versions := CleanedVersions(old(assets[f.asset]).versions, f.version))]
    {
      assets := assets[f.asset := assets[f.asset].(scan := Clean)];
      var versions := assets[f.asset].versions;
      if f.version in versions {
        versions := versions[f.version := versions[f.version].(scan := Clean)];
      }
      assets := assets[f.asset := assets[f.asset].(versions := versions)];
      assets := assets[f.asset := assets[f.asset].(status := Ready)];
      jobs := jobs[f.job := jobs[f.job].(stage := AssetLifecycle.Completed)];
    }

    /** The verdict on the bytes that were read, written before anything else looks at them. `job` is the job before this attempt. */
    method ApplyVerdict(f: Flight, verdict: Verdict, signatureOk: bool, job: Job)
      requires f.job in jobs && f.asset in assets && jobs[f.job] == job.(attempts := job.attempts + 1)
      modifies `jobs, `assets
      ensures jobs == old(jobs)[f.job := ProcessedJob(job, f, verdict, signatureOk)]
      ensures assets == old(assets)[f.asset := ProcessedAsset(old(assets[f.asset]), f, verdict, signatureOk,
                                                              ProcessedJob(job, f, verdict, signatureOk))]
    {
      if f.bytes.None? {
        Fail(f.job, f.asset, ObjectMissing);
        return;
      }
      match verdict {
        case Unavailable => Fail(f.job, f.asset, ScanUnavailable);
        case SaysInfected =>
          assets := assets[f.asset := assets[f.asset].(scan := Infected)];
          Fail(f.job, f.asset, IsInfected);
        case SaysFailed =>
          assets := assets[f.asset := assets[f.asset].(scan := Failed)];
          Fail(f.job, f.asset, ScanFailed);
        case SaysClean =>
          if !signatureOk {
            Fail(f.job, f.asset, ContentTypeMismatch);
          } else {
            MarkReady(f);
          }
      }
    }

    lemma FinishedState(s: State, f: Flight, verdict: Verdict, ok: bool)
      requires Accepted(workspace, s, Step.FinishProcess(f, verdict, ok))
      ensures var job := ProcessedJob(s.jobs[f.job], f, verdict, ok);
              Next(workspace, s, Step.FinishProcess(f, verdict, ok))
                == State(s.assets[f.asset := ProcessedAsset(s.assets[f.asset], f, verdict, ok, job)], s.jobs[f.job := job],
                         s.sessions, s.objects, s.flights, ClearedAfter(s, Step.FinishProcess(f, verdict, ok)))
    {
      var st, job := Step.FinishProcess(f, verdict, ok), ProcessedJob(s.jobs[f.job], f, verdict, ok);
      assert AssetsAfter(workspace, s, st) == s.assets[f.asset := ProcessedAsset(s.assets[f.asset], f, verdict, ok, job)];
    }

    /** The rest of the pass, in its one transaction: one more attempt, the verdict, and what follows from it. */
    method FinishProcess(f: Flight, verdict: Verdict, signatureOk: bool)
      requires Accepted(workspace, View(), Step.FinishProcess(f, verdict, signatureOk))
      modifies this
      ensures View() == Next(workspace, old(View()), Step.FinishProcess(f, verdict, signatureOk))
    {
      FinishedState(View(), f, verdict, signatureOk);
      var job := jobs[f.job];
      jobs := jobs[f.job := job.(attempts := job.attempts + 1)];
      cleared := if f.bytes.Some? && verdict == SaysClean then cleared + {f.bytes.value} else cleared;
      ApplyVerdict(f, verdict, signatureOk, job);
    }

    method DeleteObjects(keys: set<Location>)
      modifies `objects
      ensures objects == old(objects) - keys
    {
      var left := keys;
      while left != {}
        invariant left <= keys && objects == old(objects) - (keys - left)
        decreases |left|
      {
        var key :| key in left;
        objects := objects - {key};
        left := left - {key};
      }
      assert keys - left == keys;
    }

    /** Every object of one deleted asset, each once however many versions share it; the rows stay. */
    method PurgeAsset(id: string) returns (ok: bool)
      modifies this
      ensures ok == Accepted(workspace, old(View()), Step.Purge(id))
      ensures View() == Next(workspace, old(View()), Step.Purge(id))
    {
      ghost var st := Step.Purge(id);
      if id !in assets || !assets[id].deleted || assets[id].key.None? {
        return false;
      }
      DeleteObjects(ObjectKeys(assets[id]));
      assets := assets[id := assets[id].(key := None)];
      assert assets == AssetsAfter(workspace, old(View()), st);
      return true;
    }

    /** One sweep over the rows its query returned. */
    method PurgeDeletedAssets(due: seq<string>) returns (purged: nat)
      modifies this
      ensures View() == Run(workspace, old(View()), Purges(due)) && purged <= |due|
    {
      purged := 0;
      for i := 0 to |due|
        invariant View() == Run(workspace, old(View()), Purges(due[..i])) && purged <= i
      {
        RunSnoc(workspace, old(View()), Purges(due[..i]), Step.Purge(due[i]));
        assert Purges(due[..i + 1]) == Purges(due[..i]) + [Step.Purge(due[i])];
        var ok := PurgeAsset(due[i]);
        purged := purged + if ok then 1 else 0;
      }
      assert due[..|due|] == due;
    }

    /** The session moves first, and only if it is still open; its staged bytes go after it. */
    method ExpireStaleSessions(stale: seq<string>)
      modifies this
      ensures View() == Run(workspace, old(View()), Expiries(stale))
    {
      for i := 0 to |stale|
        invariant View() == Run(workspace, old(View()), Expiries(stale[..i]))
      {
        ghost var before, st := View(), Step.ExpireSession(stale[i]);
        RunSnoc(workspace, old(View()), Expiries(stale[..i]), st);
        assert Expiries(stale[..i + 1]) == Expiries(stale[..i]) + [st];
        if stale[i] in sessions && sessions[stale[i]].status == Open {
          sessions := sessions[stale[i] := sessions[stale[i]].(status := Expired)];
          objects := objects - {Staging(workspace, stale[i])};
          assert assets == AssetsAfter(workspace, before, st);
        }
        assert View() == Next(workspace, before, st);
      }
      assert stale[..|stale|] == stale;
    }
  }
}
