/** What every call of every asset service keeps: numbered versions, each resolving to its bytes, and a history that only grows. */
module AssetHistory {
  import opened Text
  import opened StorageKeys
  import opened AssetLifecycle

  lemma NextRow(workspace: string, s: State, st: Step, id: string)
    requires Accepted(workspace, s, st) && id in s.assets && (st.Complete? ==> st.id != id)
    ensures id in Next(workspace, s, st).assets && Next(workspace, s, st).assets[id] == RowAfter(workspace, s, st, id)
  {
  }

  /** One asset's objects are never another's, nor a staged upload's, nor those of versions it does not have yet. */
  lemma KeysOfOthers(workspace: string, id: string, a: Asset, key: Location, other: Location)
    requires Plain(workspace) && Plain(id) && (a.brand.Some? ==> Plain(a.brand.value)) && PlainLocation(other)
    requires OwnKey(workspace, id, a, key)
    requires other.Staging? || (other.AssetObject? && (other.asset != id || other.version > a.current))
    ensures key != other && KeyOf(key) != KeyOf(other)
  {
    var m: nat :| m <= a.current && key == KeyFor(workspace, a.brand, id, m);
    KeysAreDistinct(key, other);
  }

  /** Objects may come and go as long as none of them is one of the asset's own. */
  lemma ObjectsElsewhere(workspace: string, objects: map<Location, int>, objects': map<Location, int>, cleared: set<int>, id: string, a: Asset)
    requires AssetInv(workspace, objects, cleared, id, a)
    requires forall n :: n in a.versions && a.versions[n].key in objects ==>
               a.versions[n].key in objects' && objects'[a.versions[n].key] == objects[a.versions[n].key]
    ensures AssetInv(workspace, objects', cleared, id, a)
  {
  }

  lemma PutElsewhere(workspace: string, objects: map<Location, int>, cleared: set<int>, id: string, a: Asset, at: Location, bytes: int)
    requires Plain(workspace) && AssetInv(workspace, objects, cleared, id, a) && PlainLocation(at)
    requires at.AssetObject? && (at.asset != id || at.version > a.current)
    ensures AssetInv(workspace, objects[at := bytes], cleared, id, a)
  {
    forall n | n in a.versions
      ensures a.versions[n].key != at
    {
      KeysOfOthers(workspace, id, a, a.versions[n].key, at);
    }
    ObjectsElsewhere(workspace, objects, objects[at := bytes], cleared, id, a);
  }

  lemma NewAsset(workspace: string, objects: map<Location, int>, cleared: set<int>, id: string, brand: Option<string>, bytes: int)
    requires Plain(id) && (brand.Some? ==> Plain(brand.value))
    ensures var key := KeyFor(workspace, brand, id, 1);
            AssetInv(workspace, objects[key := bytes], cleared, id, UploadedAsset(workspace, brand, id, bytes))
  {
    var key := KeyFor(workspace, brand, id, 1);
    var a := UploadedAsset(workspace, brand, id, bytes);
    assert OwnKey(workspace, id, a, key) by {
      assert 1 <= a.current && key == KeyFor(workspace, a.brand, id, 1);
    }
  }

  lemma OwnKeysStay(workspace: string, id: string, a: Asset, b: Asset)
    requires History(workspace, id, a) && b.brand == a.brand && a.current <= b.current
    ensures forall n :: n in a.versions ==> OwnKey(workspace, id, b, a.versions[n].key)
  {
    forall n | n in a.versions
      ensures OwnKey(workspace, id, b, a.versions[n].key)
    {
      var m: nat :| m <= a.current && a.versions[n].key == KeyFor(workspace, a.brand, id, m);
      assert m <= b.current && a.versions[n].key == KeyFor(workspace, b.brand, id, m);
    }
  }

  lemma AppendKeepsAsset(workspace: string, objects: map<Location, int>, cleared: set<int>, id: string, a: Asset, bytes: int)
    requires Plain(workspace) && AssetInv(workspace, objects, cleared, id, a) && !a.deleted
    ensures var b := Appended(workspace, id, a, bytes);
            AssetInv(workspace, objects[b.key.value := bytes], cleared, id, b)
  {
    var b := Appended(workspace, id, a, bytes);
    PutElsewhere(workspace, objects, cleared, id, a, AssetObject(workspace, a.brand, id, a.current + 1), bytes);
    OwnKeysStay(workspace, id, a, b);
    assert OwnKey(workspace, id, b, b.key.value) by {
      assert b.current <= b.current && b.key.value == KeyFor(workspace, b.brand, id, b.current);
    }
  }

  lemma ReinstateKeepsAsset(workspace: string, objects: map<Location, int>, cleared: set<int>, id: string, a: Asset, number: nat)
    requires Plain(workspace) && AssetInv(workspace, objects, cleared, id, a) && !a.deleted && number in a.versions
    ensures AssetInv(workspace, objects, cleared, id, Reinstated(a, number))
  {
    OwnKeysStay(workspace, id, a, Reinstated(a, number));
  }

  /** Marking verdicts and statuses moves no key, no bytes and no version, and only marks what was cleared. */
  lemma MarkKeepsAsset(workspace: string, objects: map<Location, int>, cleared: set<int>, cleared': set<int>, id: string, a: Asset, b: Asset)
    requires AssetInv(workspace, objects, cleared, id, a) && cleared <= cleared'
    requires b.(scan := a.scan, status := a.status, deleted := a.deleted, versions := a.versions) == a && (a.deleted ==> b.deleted)
    requires b.versions.Keys == a.versions.Keys
    requires forall n :: n in a.versions ==>
               b.versions[n].(scan := a.versions[n].scan) == a.versions[n]
               && (b.versions[n].scan == Clean ==> a.versions[n].scan == Clean || a.versions[n].content in cleared')
    requires b.status == Ready ==> b.scan == Clean
    ensures AssetInv(workspace, objects, cleared', id, b)
  {
    OwnKeysStay(workspace, id, a, b);
  }

  lemma PurgeKeepsAsset(workspace: string, objects: map<Location, int>, cleared: set<int>, id: string, a: Asset)
    requires AssetInv(workspace, objects, cleared, id, a) && a.deleted
    ensures AssetInv(workspace, objects - ObjectKeys(a), cleared, id, a.(key := None))
  {
    OwnKeysStay(workspace, id, a, a.(key := None));
  }

  /** Two assets share no object. */
  lemma AssetsShareNothing(workspace: string, objects: map<Location, int>, cleared: set<int>, id: string, a: Asset, other: string, b: Asset)
    requires Plain(workspace) && id != other
    requires AssetInv(workspace, objects, cleared, id, a) && AssetInv(workspace, objects, cleared, other, b)
    ensures forall n :: n in a.versions ==> a.versions[n].key !in ObjectKeys(b)
  {
    forall n, m | n in a.versions && m in b.versions
      ensures a.versions[n].key != b.versions[m].key
    {
      assert OwnKey(workspace, other, b, b.versions[m].key);
      var k: nat :| k <= b.current && b.versions[m].key == KeyFor(workspace, b.brand, other, k);
      KeysOfOthers(workspace, id, a, a.versions[n].key, AssetObject(workspace, b.brand, other, k));
    }
  }

  /** Expiring an upload removes no object of any asset; purging an asset removes none of any other. */
  lemma RemovalSparesOthers(workspace: string, s: State, st: Step, id: string)
    requires Inv(workspace, s) && Accepted(workspace, s, st) && id in s.assets
    requires st.ExpireSession? || (st.Purge? && st.id != id)
    ensures forall n :: n in s.assets[id].versions && s.assets[id].versions[n].key in s.objects ==>
              s.assets[id].versions[n].key in Next(workspace, s, st).objects
    ensures AssetInv(workspace, Next(workspace, s, st).objects, s.cleared, id, s.assets[id])
  {
    var a, s' := s.assets[id], Next(workspace, s, st);
    assert AssetInv(workspace, s.objects, s.cleared, id, a);
    if st.ExpireSession? {
      assert SessionInv(st.session, s.sessions[st.session]);
      forall n | n in a.versions
        ensures a.versions[n].key != Staging(workspace, st.session)
      {
        KeysOfOthers(workspace, id, a, a.versions[n].key, Staging(workspace, st.session));
      }
    } else {
      assert AssetInv(workspace, s.objects, s.cleared, st.id, s.assets[st.id]);
      AssetsShareNothing(workspace, s.objects, s.cleared, id, a, st.id, s.assets[st.id]);
    }
    ObjectsElsewhere(workspace, s.objects, s'.objects, s.cleared, id, a);
  }

  lemma ProcessedMarks(a: Asset, f: Flight, verdict: Verdict, ok: bool, job: Job)
    ensures var b := ProcessedAsset(a, f, verdict, ok, job);
            && b.(scan := a.scan, status := a.status, versions := a.versions) == a && b.versions.Keys == a.versions.Keys
            && (forall n :: n in a.versions ==> b.versions[n].(scan := a.versions[n].scan) == a.versions[n])
            && (forall n :: n in a.versions && b.versions[n].scan == Clean ==>
                  a.versions[n].scan == Clean || (n == f.version && FailureOf(f, verdict, ok).None?))
            && (b.status == Ready ==> b.scan == Clean)
  {
  }

  ghost predicate AssetInvAfter(workspace: string, s: State, st: Step, id: string) {
    var t := Next(workspace, s, st);
    id in t.assets ==> AssetInv(workspace, t.objects, t.cleared, id, t.assets[id])
  }

  lemma CompleteStep(workspace: string, s: State, st: Step, id: string)
    requires Inv(workspace, s) && st.Complete? && Accepted(workspace, s, st)
    ensures AssetInvAfter(workspace, s, st, id)
  {
    var brand := s.sessions[st.session].brand;
    assert SessionInv(st.session, s.sessions[st.session]);
    if id == st.id {
      NewAsset(workspace, s.objects, s.cleared, id, brand, st.bytes);
    } else if id in s.assets {
      PutElsewhere(workspace, s.objects, s.cleared, id, s.assets[id], AssetObject(workspace, brand, st.id, 1), st.bytes);
    }
  }

  lemma AddVersionNext(workspace: string, s: State, st: Step)
    requires st.AddVersion? && Accepted(workspace, s, st)
    ensures var a, t := s.assets[st.id], Next(workspace, s, st);
            && t.objects == s.objects[AssetObject(workspace, a.brand, st.id, a.current + 1) := st.bytes]
            && t.cleared == s.cleared && t.assets.Keys == s.assets.Keys
            && t.assets[st.id] == Appended(workspace, st.id, a, st.bytes)
  {
  }

  lemma AddVersionToOther(workspace: string, s: State, st: Step, id: string)
    requires Inv(workspace, s) && st.AddVersion? && Accepted(workspace, s, st) && id in s.assets && id != st.id
    ensures AssetInvAfter(workspace, s, st, id)
  {
    var a := s.assets[st.id];
    assert AssetInv(workspace, s.objects, s.cleared, st.id, a);
    assert AssetInv(workspace, s.objects, s.cleared, id, s.assets[id]);
    AddVersionNext(workspace, s, st);
    NextRow(workspace, s, st, id);
    PutElsewhere(workspace, s.objects, s.cleared, id, s.assets[id], AssetObject(workspace, a.brand, st.id, a.current + 1), st.bytes);
  }

  lemma AddVersionStep(workspace: string, s: State, st: Step, id: string)
    requires Inv(workspace, s) && st.AddVersion? && Accepted(workspace, s, st)
    ensures AssetInvAfter(workspace, s, st, id)
  {
    AddVersionNext(workspace, s, st);
    if id == st.id {
      assert AssetInv(workspace, s.objects, s.cleared, id, s.assets[id]);
      AppendKeepsAsset(workspace, s.objects, s.cleared, id, s.assets[id], st.bytes);
    } else if id in s.assets {
      AddVersionToOther(workspace, s, st, id);
    }
  }

  lemma RemovalStep(workspace: string, s: State, st: Step, id: string)
    requires Inv(workspace, s) && (st.Purge? || st.ExpireSession?) && Accepted(workspace, s, st)
    ensures AssetInvAfter(workspace, s, st, id)
  {
    if id in s.assets {
      if st.Purge? && id == st.id {
        PurgeKeepsAsset(workspace, s.objects, s.cleared, id, s.assets[id]);
      } else {
        RemovalSparesOthers(workspace, s, st, id);
      }
    }
  }

  lemma QuietRowMarks(workspace: string, s: State, st: Step, id: string)
    requires Accepted(workspace, s, st) && id in s.assets
    requires st.Initiate? || st.AbortSession? || st.BeginProcess? || st.Archive? || st.Restore? || st.Delete?
    requires s.assets[id].status == Ready ==> s.assets[id].scan == Clean
    ensures var a, b := s.assets[id], RowAfter(workspace, s, st, id);
            b.(status := a.status, deleted := a.deleted) == a && (a.deleted ==> b.deleted) && (b.status == Ready ==> b.scan == Clean)
  {
  }

  lemma QuietStep(workspace: string, s: State, st: Step, id: string)
    requires Inv(workspace, s) && Accepted(workspace, s, st)
    requires st.Initiate? || st.AbortSession? || st.BeginProcess? || st.Archive? || st.Restore? || st.Delete? || st.RestoreVersion?
    ensures AssetInvAfter(workspace, s, st, id)
  {
    if id in s.assets {
      var a, t := s.assets[id], Next(workspace, s, st);
      assert AssetInv(workspace, s.objects, s.cleared, id, a);
      NextRow(workspace, s, st, id);
      assert t.objects == s.objects && t.cleared == s.cleared;
      if !st.RestoreVersion? {
        QuietRowMarks(workspace, s, st, id);
        MarkKeepsAsset(workspace, s.objects, s.cleared, s.cleared, id, a, t.assets[id]);
      } else if id == st.id {
        ReinstateKeepsAsset(workspace, s.objects, s.cleared, id, a, st.number);
      }
    }
  }

  /** The rows of one asset after any accepted call. */
  lemma AssetStep(workspace: string, s: State, st: Step, id: string)
    requires Inv(workspace, s) && Accepted(workspace, s, st)
    ensures AssetInvAfter(workspace, s, st, id)
  {
    match st {
      case Complete(_, _, _, _, _) => CompleteStep(workspace, s, st, id);
      case AddVersion(_, _, _, _, _) => AddVersionStep(workspace, s, st, id);
      case FinishProcess(f, verdict, ok) => FinishStep(workspace, s, f, verdict, ok, id);
      case Purge(_) => RemovalStep(workspace, s, st, id);
      case ExpireSession(_) => RemovalStep(workspace, s, st, id);
      case _ => QuietStep(workspace, s, st, id);
    }
  }

  lemma ProcessedKeepsAsset(workspace: string, s: State, f: Flight, verdict: Verdict, ok: bool, job: Job, cleared': set<int>)
    requires FlightInv(s.assets, s.jobs, f) && AssetInv(workspace, s.objects, s.cleared, f.asset, s.assets[f.asset])
    requires s.cleared <= cleared' && (FailureOf(f, verdict, ok).None? ==> f.bytes.value in cleared')
    ensures AssetInv(workspace, s.objects, cleared', f.asset, ProcessedAsset(s.assets[f.asset], f, verdict, ok, job))
  {
    ProcessedMarks(s.assets[f.asset], f, verdict, ok, job);
    MarkKeepsAsset(workspace, s.objects, s.cleared, cleared', f.asset, s.assets[f.asset], ProcessedAsset(s.assets[f.asset], f, verdict, ok, job));
  }

  lemma MoreClearedKeepsAsset(workspace: string, objects: map<Location, int>, cleared: set<int>, cleared': set<int>, id: string, a: Asset)
    requires AssetInv(workspace, objects, cleared, id, a) && cleared <= cleared'
    ensures AssetInv(workspace, objects, cleared', id, a)
  {
  }

  lemma FinishStep(workspace: string, s: State, f: Flight, verdict: Verdict, ok: bool, id: string)
    requires Inv(workspace, s) && f in s.flights
    ensures AssetInvAfter(workspace, s, FinishProcess(f, verdict, ok), id)
  {
    assert FlightInv(s.assets, s.jobs, f);
    if id in s.assets {
      var t := Next(workspace, s, FinishProcess(f, verdict, ok));
      assert AssetInv(workspace, s.objects, s.cleared, id, s.assets[id]);
      NextRow(workspace, s, FinishProcess(f, verdict, ok), id);
      assert t.objects == s.objects && t.cleared == ClearedAfter(s, FinishProcess(f, verdict, ok));
      if id == f.asset {
        ProcessedKeepsAsset(workspace, s, f, verdict, ok, ProcessedJob(s.jobs[f.job], f, verdict, ok), t.cleared);
      } else {
        MoreClearedKeepsAsset(workspace, s.objects, s.cleared, t.cleared, id, s.assets[id]);
      }
    }
  }

  lemma CurrentObject(workspace: string, s: State, id: string)
    requires Inv(workspace, s) && id in s.assets
    ensures s.assets[id].current in s.assets[id].versions
    ensures s.assets[id].key.Some? ==> s.assets[id].key.value in s.objects && s.objects[s.assets[id].key.value] == s.assets[id].content
    ensures s.assets[id].content == s.assets[id].versions[s.assets[id].current].content
  {
    assert AssetInv(workspace, s.objects, s.cleared, id, s.assets[id]);
  }

  /** The row of one version after a call: where it points never changes, nor does a clean verdict. */
  ghost predicate Extends(a: Asset, b: Asset, n: nat)
    requires n in a.versions
  {
    && n in b.versions && a.current <= b.current
    && b.versions[n].(scan := a.versions[n].scan) == a.versions[n]
    && (a.versions[n].scan == Clean ==> b.versions[n].scan == Clean)
  }

  lemma RowExtends(workspace: string, s: State, st: Step, id: string, n: nat)
    requires Accepted(workspace, s, st) && id in s.assets && n in s.assets[id].versions
    requires forall m :: m in s.assets[id].versions <==> 1 <= m <= s.assets[id].current
    ensures Extends(s.assets[id], RowAfter(workspace, s, st, id), n)
  {
    match st {
      case FinishProcess(f, verdict, ok) =>
        if f.asset == id {
          ProcessedMarks(s.assets[id], f, verdict, ok, ProcessedJob(s.jobs[f.job], f, verdict, ok));
        }
      case AddVersion(_, _, _, _, _) =>
      case RestoreVersion(_, _, _) =>
      case _ => assert RowAfter(workspace, s, st, id).versions == s.assets[id].versions;
    }
  }

  lemma FlightsStep(workspace: string, s: State, st: Step)
    requires Inv(workspace, s) && Accepted(workspace, s, st)
    ensures FlightsInv(Next(workspace, s, st))
  {
    var s' := Next(workspace, s, st);
    forall f | f in s'.flights
      ensures FlightInv(s'.assets, s'.jobs, f)
    {
      if f in s.flights {
        assert FlightInv(s.assets, s.jobs, f);
        assert AssetInv(workspace, s.objects, s.cleared, f.asset, s.assets[f.asset]);
        RowExtends(workspace, s, st, f.asset, f.version);
      } else {
        CurrentObject(workspace, s, s.jobs[st.job].asset);
      }
    }
  }

  lemma JobsStep(workspace: string, s: State, st: Step)
    requires Inv(workspace, s) && Accepted(workspace, s, st)
    ensures JobsInv(Next(workspace, s, st))
  {
    var s' := Next(workspace, s, st);
    forall j | j in s'.jobs
      ensures JobInv(s'.assets, s'.jobs[j])
    {
      if j in s.jobs {
        assert JobInv(s.assets, s.jobs[j]);
      }
    }
  }

  lemma SessionsStep(workspace: string, s: State, st: Step)
    requires Inv(workspace, s) && Accepted(workspace, s, st)
    ensures SessionsInv(Next(workspace, s, st))
  {
    var s' := Next(workspace, s, st);
    forall x | x in s'.sessions
      ensures SessionInv(x, s'.sessions[x])
    {
      if x in s.sessions {
        assert SessionInv(x, s.sessions[x]);
      }
    }
  }

  /** Every call of every service keeps the invariant, whatever is in flight. */
  lemma StepKeepsInv(workspace: string, s: State, st: Step)
    requires Inv(workspace, s)
    ensures Inv(workspace, Next(workspace, s, st))
  {
    if Accepted(workspace, s, st) {
      var t := Next(workspace, s, st);
      forall id | id in t.assets
        ensures AssetInv(workspace, t.objects, t.cleared, id, t.assets[id])
      {
        AssetStep(workspace, s, st, id);
      }
      FlightsStep(workspace, s, st);
      JobsStep(workspace, s, st);
      SessionsStep(workspace, s, st);
    }
  }

  lemma {:induction false} RunKeepsInv(workspace: string, s: State, steps: seq<Step>)
    requires Inv(workspace, s)
    ensures Inv(workspace, Run(workspace, s, steps))
    decreases |steps|
  {
    if steps != [] {
      StepKeepsInv(workspace, s, steps[0]);
      RunKeepsInv(workspace, Next(workspace, s, steps[0]), steps[1..]);
    }
  }

  /**
   * In every reachable state: version rows number exactly 1..current, each row of an unpurged asset resolves to
   * the bytes it was created with, the asset row repeats the current one, and READY implies CLEAN.
   */
  lemma EveryReachableAsset(workspace: string, steps: seq<Step>, id: string)
    requires Plain(workspace) && id in Run(workspace, EMPTY, steps).assets
    ensures var s := Run(workspace, EMPTY, steps);
            var a := s.assets[id];
            && (forall n :: n in a.versions <==> 1 <= n <= a.current)
            && a.current in a.versions
            && (a.key.Some? ==> a.key.value == a.versions[a.current].key && a.content == a.versions[a.current].content)
            && (a.key.None? ==> a.deleted)
            && (a.key.Some? ==> forall n :: n in a.versions ==>
                  a.versions[n].key in s.objects && s.objects[a.versions[n].key] == a.versions[n].content)
            && (a.status == Ready ==> a.scan == Clean)
  {
    RunKeepsInv(workspace, EMPTY, steps);
    var s := Run(workspace, EMPTY, steps);
    assert AssetInv(workspace, s.objects, s.cleared, id, s.assets[id]);
  }

  /** History is append-only: no run changes where a version points or what it was created with, or takes back its clean verdict. */
  lemma {:induction false} HistoryIsAppendOnly(workspace: string, s: State, steps: seq<Step>, id: string, n: nat)
    requires Inv(workspace, s) && id in s.assets && n in s.assets[id].versions
    ensures id in Run(workspace, s, steps).assets
    ensures Extends(s.assets[id], Run(workspace, s, steps).assets[id], n)
    decreases |steps|
  {
    if steps != [] {
      if Accepted(workspace, s, steps[0]) {
        assert AssetInv(workspace, s.objects, s.cleared, id, s.assets[id]);
        RowExtends(workspace, s, steps[0], id, n);
      }
      StepKeepsInv(workspace, s, steps[0]);
      HistoryIsAppendOnly(workspace, Next(workspace, s, steps[0]), steps[1..], id, n);
    }
  }
}
