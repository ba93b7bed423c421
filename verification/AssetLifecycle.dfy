/**
 * Assets, their append-only versions and the object store, from upload to purge. Each service call commits as
 * one step, except processing: it reads the asset and its bytes first and commits its verdict later, with any
 * other call in between.
 */
module AssetLifecycle {
  import opened Text
  import opened StorageKeys

  datatype Scan = Pending | Clean | Infected | Failed
  datatype Status = Processing | Ready | ProcessingFailed | Quarantined | Archived

  /** `content` stands for the bytes and for their checksum, which is taken to identify them. */
  datatype Version = Version(key: Location, content: int, scan: Scan)

  datatype Asset = Asset(brand: Option<string>, key: Option<Location>, content: int, current: nat, scan: Scan, status: Status,
                         deleted: bool, versions: map<nat, Version>)

  datatype Stage = Queued | Completed | GaveUp
  datatype Job = Job(asset: string, stage: Stage, attempts: nat, maxAttempts: nat)

  datatype SessionStatus = Open | Used | Aborted | Expired
  datatype Session = Session(brand: Option<string>, status: SessionStatus)

  /**
   * A processing pass between its reads and its commit: the version it read and the bytes it is scanning. The whole pass
   * is one transaction of its caller, so its attempt is counted with its verdict, and a pass that stops half-way leaves
   * nothing behind. A flight stays: the same job may be delivered any number of times before the first commit.
   */
  datatype Flight = Flight(job: int, asset: string, version: nat, key: Option<Location>, bytes: Option<int>)

  /** `cleared`: every content some scan has returned clean for. */
  datatype State = State(assets: map<string, Asset>, jobs: map<int, Job>, sessions: map<string, Session>,
                         objects: map<Location, int>, flights: set<Flight>, cleared: set<int>)

  datatype Verdict = SaysClean | SaysInfected | SaysFailed | Unavailable

  datatype Reason = ObjectMissing | ScanUnavailable | IsInfected | ScanFailed | ContentTypeMismatch

  datatype Step =
    | Initiate(session: string, brand: Option<string>)
    | AbortSession(session: string)
    | ExpireSession(session: string)
    | Complete(session: string, id: string, bytes: int, job: int, maxAttempts: nat)
    | AddVersion(id: string, bytes: int, job: int, maxAttempts: nat, maxVersions: nat)
    | RestoreVersion(id: string, number: nat, maxVersions: nat)
    | BeginProcess(job: int)
    | FinishProcess(flight: Flight, verdict: Verdict, signatureOk: bool)
    | Archive(id: string)
    | Restore(id: string)
    | Delete(id: string)
    | Purge(id: string)

  function KeyFor(workspace: string, brand: Option<string>, id: string, version: nat): Location {
    AssetObject(workspace, brand, id, version)
  }

  /** Live: what every customer-facing call on an asset checks first. */
  predicate Live(s: State, id: string) {
    id in s.assets && !s.assets[id].deleted
  }

  /** Whether the call goes through; a refused call changes nothing. */
  predicate Accepted(workspace: string, s: State, st: Step) {
    match st
    case Initiate(session, brand) => session !in s.sessions && Plain(session) && (brand.Some? ==> Plain(brand.value))
    case AbortSession(session) => session in s.sessions && s.sessions[session].status == Open
    case ExpireSession(session) => session in s.sessions && s.sessions[session].status == Open
    case Complete(session, id, _, job, max) =>
      session in s.sessions && s.sessions[session].status == Open && id !in s.assets && Plain(id) && job !in s.jobs && 1 <= max
    case AddVersion(id, _, job, max, maxVersions) =>
      Live(s, id) && |s.assets[id].versions| < maxVersions && s.assets[id].current + 1 !in s.assets[id].versions
      && job !in s.jobs && 1 <= max
    case RestoreVersion(id, number, maxVersions) =>
      Live(s, id) && number in s.assets[id].versions && |s.assets[id].versions| < maxVersions
      && s.assets[id].current + 1 !in s.assets[id].versions
    case BeginProcess(job) => job in s.jobs && s.jobs[job].stage == Queued && s.jobs[job].asset in s.assets
    case FinishProcess(flight, _, _) => flight in s.flights && flight.job in s.jobs && flight.asset in s.assets
    case Archive(id) => Live(s, id)
    case Restore(id) => Live(s, id)
    case Delete(id) => Live(s, id)
    case Purge(id) => id in s.assets && s.assets[id].deleted && s.assets[id].key.Some?
  }

  function FreshVersion(key: Location, bytes: int): Version {
    Version(key, bytes, Pending)
  }

  function Retryable(reason: Reason): bool {
    reason in {ScanFailed, ScanUnavailable}
  }

  function IsTerminal(reason: Reason): bool {
    reason in {ObjectMissing, IsInfected, ContentTypeMismatch}
  }

  /** Requeued while an operational failure has attempts left, otherwise given up. */
  function FailedJob(job: Job, reason: Reason): Job {
    var retry := !IsTerminal(reason) && Retryable(reason) && job.attempts + 1 < job.maxAttempts;
    job.(attempts := job.attempts + 1, stage := if retry then Queued else GaveUp)
  }

  function FailedAsset(a: Asset, reason: Reason, jobAfter: Job): Asset {
    a.(status := if reason in {IsInfected, ScanFailed, ScanUnavailable} then Quarantined
                 else if jobAfter.stage == Queued then Processing
                 else ProcessingFailed)
  }

  /** The reason a pass fails for, if it does: a missing object, no verdict, a bad one, or bytes that are not what they claim. */
  function FailureOf(f: Flight, verdict: Verdict, signatureOk: bool): Option<Reason> {
    if f.bytes.None? then Some(ObjectMissing)
    else
      match verdict
      case Unavailable => Some(ScanUnavailable)
      case SaysInfected => Some(IsInfected)
      case SaysFailed => Some(ScanFailed)
      case SaysClean => if signatureOk then None else Some(ContentTypeMismatch)
  }

  function CleanedVersions(versions: map<nat, Version>, number: nat): map<nat, Version> {
    if number in versions then versions[number := versions[number].(scan := Clean)] else versions
  }

  function ProcessedAsset(a: Asset, f: Flight, verdict: Verdict, signatureOk: bool, jobAfter: Job): Asset {
    match FailureOf(f, verdict, signatureOk)
    case None => a.(scan := Clean, versions := CleanedVersions(a.versions, f.version), status := Ready)
    case Some(IsInfected) => FailedAsset(a.(scan := Infected), IsInfected, jobAfter)
    case Some(ScanFailed) => FailedAsset(a.(scan := Failed), ScanFailed, jobAfter)
    case Some(reason) => FailedAsset(a, reason, jobAfter)
  }

  function ProcessedJob(job: Job, f: Flight, verdict: Verdict, signatureOk: bool): Job {
    match FailureOf(f, verdict, signatureOk)
    case None => job.(attempts := job.attempts + 1, stage := Completed)
    case Some(reason) => FailedJob(job, reason)
  }

  function ObjectKeys(a: Asset): (keys: set<Location>)
    ensures forall k :: k in keys <==> exists n :: n in a.versions && a.versions[n].key == k
  {
    set n | n in a.versions :: a.versions[n].key
  }

  function Appended(workspace: string, id: string, a: Asset, bytes: int): Asset {
    var number := a.current + 1;
    var key := KeyFor(workspace, a.brand, id, number);
    a.(current := number, key := Some(key), content := bytes, scan := Pending, status := Processing,
       versions := a.versions[number := FreshVersion(key, bytes)])
  }

  function Reinstated(a: Asset, number: nat): Asset
    requires number in a.versions
  {
    var source := a.versions[number];
    a.(current := a.current + 1, key := Some(source.key), content := source.content, scan := source.scan,
       status := if source.scan == Clean then Ready else Quarantined,
       versions := a.versions[a.current + 1 := source])
  }

  function SessionsAfter(s: State, st: Step): map<string, Session>
    requires st.AbortSession? || st.ExpireSession? || st.Complete? ==> st.session in s.sessions
  {
    match st
    case Initiate(session, brand) => s.sessions[session := Session(brand, Open)]
    case AbortSession(session) => s.sessions[session := s.sessions[session].(status := Aborted)]
    case ExpireSession(session) => s.sessions[session := s.sessions[session].(status := Expired)]
    case Complete(session, _, _, _, _) => s.sessions[session := s.sessions[session].(status := Used)]
    case _ => s.sessions
  }

  function JobsAfter(workspace: string, s: State, st: Step): map<int, Job>
    requires Accepted(workspace, s, st)
  {
    match st
    case Complete(_, id, _, job, max) => s.jobs[job := Job(id, Queued, 0, max)]
    case AddVersion(id, _, job, max, _) => s.jobs[job := Job(id, Queued, 0, max)]
    case FinishProcess(f, verdict, ok) => s.jobs[f.job := ProcessedJob(s.jobs[f.job], f, verdict, ok)]
    case _ => s.jobs
  }

  function UploadedAsset(workspace: string, brand: Option<string>, id: string, bytes: int): Asset {
    var key := KeyFor(workspace, brand, id, 1);
    Asset(brand, Some(key), bytes, 1, Pending, Processing, false, map[1 := FreshVersion(key, bytes)])
  }

  /** The row of an existing asset after a call. */
  function RowAfter(workspace: string, s: State, st: Step, id: string): Asset
    requires Accepted(workspace, s, st) && id in s.assets
  {
    var a := s.assets[id];
    match st
    case AddVersion(to, bytes, _, _, _) => if to == id then Appended(workspace, id, a, bytes) else a
    case RestoreVersion(to, number, _) => if to == id then Reinstated(a, number) else a
    case FinishProcess(f, verdict, ok) =>
      if f.asset == id then ProcessedAsset(a, f, verdict, ok, ProcessedJob(s.jobs[f.job], f, verdict, ok)) else a
    case Archive(x) => if x == id then a.(status := Archived) else a
    case Restore(x) => if x == id then a.(status := if a.scan == Clean then Ready else Quarantined) else a
    case Delete(x) => if x == id then a.(deleted := true, status := Archived) else a
    case Purge(x) => if x == id then a.(key := None) else a
    case _ => a
  }

  function AssetsAfter(workspace: string, s: State, st: Step): map<string, Asset>
    requires Accepted(workspace, s, st)
  {
    var kept := map id | id in s.assets :: RowAfter(workspace, s, st, id);
    if st.Complete? then kept[st.id := UploadedAsset(workspace, s.sessions[st.session].brand, st.id, st.bytes)] else kept
  }

  function ObjectsAfter(workspace: string, s: State, st: Step): map<Location, int>
    requires Accepted(workspace, s, st)
  {
    match st
    case ExpireSession(session) => s.objects - {Staging(workspace, session)}
    case Complete(session, id, bytes, _, _) => s.objects[KeyFor(workspace, s.sessions[session].brand, id, 1) := bytes]
    case AddVersion(id, bytes, _, _, _) =>
      s.objects[KeyFor(workspace, s.assets[id].brand, id, s.assets[id].current + 1) := bytes]
    case Purge(id) => s.objects - ObjectKeys(s.assets[id])
    case _ => s.objects
  }

  function FlightsAfter(workspace: string, s: State, st: Step): set<Flight>
    requires Accepted(workspace, s, st)
  {
    match st
    case BeginProcess(n) =>
      var job := s.jobs[n];
      var a := s.assets[job.asset];
      var bytes := if a.key.Some? && a.key.value in s.objects then Some(s.objects[a.key.value]) else None;
      s.flights + {Flight(n, job.asset, a.current, a.key, bytes)}
    case _ => s.flights
  }

  function ClearedAfter(s: State, st: Step): set<int> {
    if st.FinishProcess? && st.flight.bytes.Some? && st.verdict == SaysClean then s.cleared + {st.flight.bytes.value}
    else s.cleared
  }

  function Next(workspace: string, s: State, st: Step): State {
    if !Accepted(workspace, s, st) then s
    else
      State(AssetsAfter(workspace, s, st), JobsAfter(workspace, s, st), SessionsAfter(s, st),
            ObjectsAfter(workspace, s, st), FlightsAfter(workspace, s, st), ClearedAfter(s, st))
  }

  // --- What every run keeps ---------------------------------------------------------------------------

  predicate Selectable(a: Asset) {
    !a.deleted && a.status == Ready && a.scan == Clean
  }

  /** Version rows are exactly 1..current, and each points at the object some row of this asset was created with. */
  ghost predicate History(workspace: string, id: string, a: Asset) {
    && Plain(id) && (a.brand.Some? ==> Plain(a.brand.value)) && 1 <= a.current
    && (forall n :: n in a.versions <==> 1 <= n <= a.current)
    && (forall n :: n in a.versions ==> OwnKey(workspace, id, a, a.versions[n].key))
  }

  ghost predicate OwnKey(workspace: string, id: string, a: Asset, key: Location) {
    exists m: nat :: m <= a.current && key == KeyFor(workspace, a.brand, id, m)
  }

  /** The asset row repeats its current version; a purged one has given up its key and stays deleted. */
  ghost predicate CurrentRow(a: Asset) {
    && a.current in a.versions
    && a.content == a.versions[a.current].content
    && (a.key == Some(a.versions[a.current].key) || (a.key.None? && a.deleted))
  }

  /** Every version of an unpurged asset still resolves to the bytes it was created with. */
  ghost predicate Resolves(objects: map<Location, int>, a: Asset) {
    a.key.Some? ==> forall n :: n in a.versions ==>
      a.versions[n].key in objects && objects[a.versions[n].key] == a.versions[n].content
  }

  ghost predicate VersionsCleared(cleared: set<int>, a: Asset) {
    forall n :: n in a.versions && a.versions[n].scan == Clean ==> a.versions[n].content in cleared
  }

  ghost predicate AssetInv(workspace: string, objects: map<Location, int>, cleared: set<int>, id: string, a: Asset) {
    && History(workspace, id, a) && CurrentRow(a) && Resolves(objects, a) && VersionsCleared(cleared, a)
    && (a.status == Ready ==> a.scan == Clean)
  }

  ghost predicate AssetsInv(workspace: string, s: State) {
    forall id {:trigger AssetInv(workspace, s.objects, s.cleared, id, s.assets[id])} :: id in s.assets ==>
      AssetInv(workspace, s.objects, s.cleared, id, s.assets[id])
  }

  /** A pass in flight read some version that still exists, and its bytes. */
  ghost predicate FlightInv(assets: map<string, Asset>, jobs: map<int, Job>, f: Flight) {
    && f.asset in assets && f.job in jobs && f.version in assets[f.asset].versions
    && (f.bytes.Some? ==> f.bytes.value == assets[f.asset].versions[f.version].content)
  }

  ghost predicate FlightsInv(s: State) {
    forall f {:trigger FlightInv(s.assets, s.jobs, f)} :: f in s.flights ==> FlightInv(s.assets, s.jobs, f)
  }

  ghost predicate JobInv(assets: map<string, Asset>, j: Job) {
    j.asset in assets
  }

  ghost predicate JobsInv(s: State) {
    forall j {:trigger JobInv(s.assets, s.jobs[j])} :: j in s.jobs ==> JobInv(s.assets, s.jobs[j])
  }

  ghost predicate SessionInv(id: string, x: Session) {
    Plain(id) && (x.brand.Some? ==> Plain(x.brand.value))
  }

  ghost predicate SessionsInv(s: State) {
    forall x {:trigger SessionInv(x, s.sessions[x])} :: x in s.sessions ==> SessionInv(x, s.sessions[x])
  }

  ghost predicate Inv(workspace: string, s: State) {
    Plain(workspace) && AssetsInv(workspace, s) && FlightsInv(s) && JobsInv(s) && SessionsInv(s)
  }

  const EMPTY := State(map[], map[], map[], map[], {}, {})

  function Run(workspace: string, s: State, steps: seq<Step>): State
    decreases |steps|
  {
    if steps == [] then s else Run(workspace, Next(workspace, s, steps[0]), steps[1..])
  }
}
