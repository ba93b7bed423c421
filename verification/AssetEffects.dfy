/** What each call of the asset services does to the rows and the objects, row by row, and what it leaves alone. */
module AssetEffects {
  import opened Text
  import opened StorageKeys
  import opened AssetLifecycle
  import opened AssetHistory

  /** Only this asset's row is touched. */
  ghost predicate OnlyAsset(s: State, t: State, id: string) {
    t.assets.Keys == s.assets.Keys && forall x :: x in s.assets && x != id ==> t.assets[x] == s.assets[x]
  }

  ghost predicate SameElsewhere(s: State, t: State) {
    t.sessions == s.sessions && t.objects == s.objects && t.jobs == s.jobs && t.flights == s.flights && t.cleared == s.cleared
  }

  /** One more version row, after the old ones. */
  ghost predicate OneMoreVersion(a: Asset, b: Asset, v: Version) {
    && b.current == a.current + 1 && b.versions.Keys == a.versions.Keys + {b.current}
    && (forall n :: n in a.versions ==> n != b.current && b.versions[n] == a.versions[n])
    && b.versions[b.current] == v
    && b.key == Some(v.key) && b.content == v.content && b.scan == v.scan
    && b.brand == a.brand && b.deleted == a.deleted
  }

  lemma NextIsUnused(workspace: string, s: State, id: string)
    requires Inv(workspace, s) && id in s.assets
    ensures s.assets[id].current + 1 !in s.assets[id].versions
  {
    assert AssetInv(workspace, s.objects, s.cleared, id, s.assets[id]);
  }

  /**
   * Going back to version n appends a row with the key, the content and the verdict that version n had; no object is
   * written, and the asset is READY exactly when version n was CLEAN.
   */
  lemma RestoreBringsBackThatVersion(workspace: string, s: State, id: string, n: nat, maxVersions: nat)
    requires Inv(workspace, s)
    ensures var st, t := Step.RestoreVersion(id, n, maxVersions), Next(workspace, s, Step.RestoreVersion(id, n, maxVersions));
            && (Accepted(workspace, s, st) <==>
                  id in s.assets && !s.assets[id].deleted && n in s.assets[id].versions && |s.assets[id].versions| < maxVersions)
            && (Accepted(workspace, s, st) ==>
                  && id in t.assets && OneMoreVersion(s.assets[id], t.assets[id], s.assets[id].versions[n])
                  && t.assets[id].status == (if s.assets[id].versions[n].scan == Clean then Ready else Quarantined)
                  && (Selectable(t.assets[id]) <==> s.assets[id].versions[n].scan == Clean)
                  && OnlyAsset(s, t, id) && SameElsewhere(s, t))
  {
    if id in s.assets {
      NextIsUnused(workspace, s, id);
    }
  }

  /** New bytes are stored under a key of their own, where nothing was, and start over unscanned, with a job of their own. */
  lemma AddedVersionHoldsTheBytes(workspace: string, s: State, id: string, bytes: int, job: int, maxAttempts: nat, maxVersions: nat)
    requires Inv(workspace, s)
    ensures var st := Step.AddVersion(id, bytes, job, maxAttempts, maxVersions);
            var t := Next(workspace, s, st);
            && (Accepted(workspace, s, st) <==>
                  id in s.assets && !s.assets[id].deleted && |s.assets[id].versions| < maxVersions && job !in s.jobs && 1 <= maxAttempts)
            && (Accepted(workspace, s, st) ==>
                  && id in t.assets
                  && var key := AssetObject(workspace, s.assets[id].brand, id, s.assets[id].current + 1);
                     && OneMoreVersion(s.assets[id], t.assets[id], Version(key, bytes, Pending))
                     && t.objects == s.objects[key := bytes] && t.assets[id].status == Processing
                     && t.jobs == s.jobs[job := Job(id, Queued, 0, maxAttempts)]
                     && OnlyAsset(s, t, id) && t.sessions == s.sessions && t.flights == s.flights && t.cleared == s.cleared)
  {
    if id in s.assets {
      NextIsUnused(workspace, s, id);
    }
  }

  /** A completed upload is a new asset of the session's brand, with one unscanned version that holds the bytes. */
  lemma CompletedUploadHoldsTheBytes(workspace: string, s: State, session: string, id: string, bytes: int, job: int, maxAttempts: nat)
    ensures var st := Complete(session, id, bytes, job, maxAttempts);
            var t := Next(workspace, s, st);
            && (Accepted(workspace, s, st) <==>
                  && session in s.sessions && s.sessions[session].status == Open
                  && id !in s.assets && Plain(id) && job !in s.jobs && 1 <= maxAttempts)
            && (Accepted(workspace, s, st) ==>
                  var key := AssetObject(workspace, s.sessions[session].brand, id, 1);
                  && t.assets == s.assets[id := Asset(s.sessions[session].brand, Some(key), bytes, 1, Pending, Processing, false,
                                                      map[1 := Version(key, bytes, Pending)])]
                  && t.objects == s.objects[key := bytes]
                  && t.jobs == s.jobs[job := Job(id, Queued, 0, maxAttempts)]
                  && t.sessions == s.sessions[session := s.sessions[session].(status := Used)]
                  && t.flights == s.flights && t.cleared == s.cleared)
  {
  }

  /** A pass reads the current version, its key, and the bytes there, or that there are none. */
  lemma PassReadsTheCurrentVersion(workspace: string, s: State, job: int)
    ensures var st, t := BeginProcess(job), Next(workspace, s, BeginProcess(job));
            && (Accepted(workspace, s, st) <==> job in s.jobs && s.jobs[job].stage == Queued && s.jobs[job].asset in s.assets)
            && (Accepted(workspace, s, st) ==>
                  && t == s.(flights := t.flights)
                  && exists f :: t.flights == s.flights + {f} && f.job == job && f.asset == s.jobs[job].asset
                       && f.version == s.assets[f.asset].current && f.key == s.assets[f.asset].key
                       && (f.bytes.Some? <==> f.key.Some? && f.key.value in s.objects)
                       && (f.bytes.Some? ==> f.bytes.value == s.objects[f.key.value]))
  {
    if Accepted(workspace, s, BeginProcess(job)) {
      var id := s.jobs[job].asset;
      var a := s.assets[id];
      var f := Flight(job, id, a.current, a.key, if a.key.Some? && a.key.value in s.objects then Some(s.objects[a.key.value]) else None);
      assert Next(workspace, s, BeginProcess(job)).flights == s.flights + {f};
      assert Next(workspace, s, BeginProcess(job)).assets == s.assets;
    }
  }

  /** Why a pass fails, in the order it looks: no object, no answer, a bad answer, or bytes that are not what they claim. */
  lemma WhyAPassFails(f: Flight, verdict: Verdict, signatureOk: bool)
    ensures var why := FailureOf(f, verdict, signatureOk);
            && (why.None? <==> f.bytes.Some? && verdict == SaysClean && signatureOk)
            && (why == Some(ObjectMissing) <==> f.bytes.None?)
            && (f.bytes.Some? ==>
                  && (why == Some(ScanUnavailable) <==> verdict == Unavailable) && (why == Some(IsInfected) <==> verdict == SaysInfected)
                  && (why == Some(ScanFailed) <==> verdict == SaysFailed)
                  && (why == Some(ContentTypeMismatch) <==> verdict == SaysClean && !signatureOk))
  {
  }

  /** A clean pass makes the asset row CLEAN and READY and the version it read CLEAN, and completes the job. */
  lemma CleanPassMarksWhatItRead(workspace: string, s: State, f: Flight)
    requires Accepted(workspace, s, FinishProcess(f, SaysClean, true)) && f.bytes.Some?
    ensures var t, a := Next(workspace, s, FinishProcess(f, SaysClean, true)), s.assets[f.asset];
            && f.asset in t.assets && f.job in t.jobs
            && t.assets[f.asset] == a.(scan := Clean, status := Ready, versions := t.assets[f.asset].versions)
            && (Selectable(t.assets[f.asset]) <==> !a.deleted)
            && t.assets[f.asset].versions.Keys == a.versions.Keys
            && (forall n :: n in a.versions ==> t.assets[f.asset].versions[n] == if n == f.version then a.versions[n].(scan := Clean) else a.versions[n])
            && t.jobs == s.jobs[f.job := s.jobs[f.job].(attempts := s.jobs[f.job].attempts + 1, stage := AssetLifecycle.Completed)]
            && t.cleared == s.cleared + {f.bytes.value}
            && OnlyAsset(s, t, f.asset) && t.objects == s.objects && t.sessions == s.sessions
  {
  }

  /** A failed pass counts as an attempt, and is tried again only for want of an answer, as long as attempts are left. */
  lemma FailedPassRequeuesItsJob(workspace: string, s: State, f: Flight, verdict: Verdict, signatureOk: bool)
    requires Accepted(workspace, s, FinishProcess(f, verdict, signatureOk)) && FailureOf(f, verdict, signatureOk).Some?
    ensures var t, j := Next(workspace, s, FinishProcess(f, verdict, signatureOk)), s.jobs[f.job];
            var again := f.bytes.Some? && verdict in {SaysFailed, Unavailable} && j.attempts + 1 < j.maxAttempts;
            t.jobs == s.jobs[f.job := j.(attempts := j.attempts + 1, stage := if again then Queued else GaveUp)]
  {
  }

  /** A bad verdict is written to the asset row alone; no verdict, and other failures, leave it as it was. */
  lemma FailedPassWritesItsVerdict(workspace: string, s: State, f: Flight, verdict: Verdict, signatureOk: bool)
    requires Accepted(workspace, s, FinishProcess(f, verdict, signatureOk)) && FailureOf(f, verdict, signatureOk).Some?
    ensures var t, a := Next(workspace, s, FinishProcess(f, verdict, signatureOk)), s.assets[f.asset];
            && f.asset in t.assets && t.assets[f.asset] == a.(scan := t.assets[f.asset].scan, status := t.assets[f.asset].status)
            && t.assets[f.asset].scan == (if f.bytes.None? then a.scan else
                                            match verdict case SaysInfected => Infected case SaysFailed => Scan.Failed case _ => a.scan)
            && t.assets[f.asset].status == (if f.bytes.Some? && verdict != SaysClean then Quarantined else ProcessingFailed)
            && OnlyAsset(s, t, f.asset) && t.objects == s.objects && t.sessions == s.sessions
  {
  }

  /** Archiving, restoring and deleting a live asset: its status, by its verdict when it comes back, and the mark of deletion. */
  lemma ArchivedRow(workspace: string, s: State, id: string)
    requires id in s.assets
    ensures Accepted(workspace, s, Archive(id)) <==> !s.assets[id].deleted
    ensures !s.assets[id].deleted ==> RowsAfter(s, Next(workspace, s, Archive(id)), id, s.assets[id].(status := Archived), s.objects)
  {
  }

  lemma RestoredRow(workspace: string, s: State, id: string)
    requires id in s.assets
    ensures Accepted(workspace, s, Restore(id)) <==> !s.assets[id].deleted
    ensures !s.assets[id].deleted ==>
              RowsAfter(s, Next(workspace, s, Restore(id)), id,
                        s.assets[id].(status := if s.assets[id].scan == Clean then Ready else Quarantined), s.objects)
  {
  }

  lemma DeletedRow(workspace: string, s: State, id: string)
    requires id in s.assets
    ensures Accepted(workspace, s, Delete(id)) <==> !s.assets[id].deleted
    ensures !s.assets[id].deleted ==>
              RowsAfter(s, Next(workspace, s, Delete(id)), id, s.assets[id].(status := Archived, deleted := true), s.objects)
  {
  }

  /** Purging a deleted asset takes its key and the objects of all its versions; the version rows stay. */
  lemma PurgedRow(workspace: string, s: State, id: string)
    requires id in s.assets
    ensures Accepted(workspace, s, Purge(id)) <==> s.assets[id].deleted && s.assets[id].key.Some?
    ensures s.assets[id].deleted && s.assets[id].key.Some? ==>
              RowsAfter(s, Next(workspace, s, Purge(id)), id, s.assets[id].(key := None),
                        s.objects - (set n | n in s.assets[id].versions :: s.assets[id].versions[n].key))
  {
    assert ObjectKeys(s.assets[id]) == set n | n in s.assets[id].versions :: s.assets[id].versions[n].key;
  }

  ghost predicate RowsAfter(s: State, t: State, id: string, row: Asset, objects: map<Location, int>)
    requires id in s.assets
  {
    t == s.(assets := s.assets[id := row], objects := objects)
  }

  /** Upload sessions: opened once, and aborted or expired only while open; only an expiry removes the staged bytes. */
  lemma LifeOfASession(workspace: string, s: State, session: string, brand: Option<string>)
    ensures var open := session in s.sessions && s.sessions[session].status == Open;
            && (Accepted(workspace, s, Initiate(session, brand)) <==>
                  session !in s.sessions && Plain(session) && (brand.Some? ==> Plain(brand.value)))
            && (Accepted(workspace, s, Initiate(session, brand)) ==>
                  Next(workspace, s, Initiate(session, brand)) == s.(sessions := s.sessions[session := Session(brand, Open)]))
            && (Accepted(workspace, s, AbortSession(session)) <==> open) && (Accepted(workspace, s, ExpireSession(session)) <==> open)
            && (open ==> Next(workspace, s, AbortSession(session)) ==
                           s.(sessions := s.sessions[session := s.sessions[session].(status := Aborted)]))
            && (open ==> Next(workspace, s, ExpireSession(session)) ==
                           s.(sessions := s.sessions[session := s.sessions[session].(status := SessionStatus.Expired)],
                              objects := s.objects - {Staging(workspace, session)}))
  {
    SessionCallsKeepAssets(workspace, s, Initiate(session, brand));
    SessionCallsKeepAssets(workspace, s, AbortSession(session));
    SessionCallsKeepAssets(workspace, s, ExpireSession(session));
  }

  lemma SessionCallsKeepAssets(workspace: string, s: State, st: Step)
    requires st.Initiate? || st.AbortSession? || st.ExpireSession?
    ensures Accepted(workspace, s, st) ==> Next(workspace, s, st).assets == s.assets
  {
  }
}
