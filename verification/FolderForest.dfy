/**
 * The folder tree and what is filed in it. Two walks up the tree stop after a fixed number of steps; together
 * they still decide exactly whether a move is safe.
 */
module FolderForest {
  import opened Text

  datatype Folder = Folder(brand: Option<int>, parent: Option<int>, deleted: bool)

  type Folders = map<int, Folder>

  // --- Walking up ----------------------------------------------------------------------------------

  /** The folder n parents above, if the path goes that far. */
  function Up(m: Folders, id: int, n: nat): Option<int>
    decreases n
  {
    if n == 0 then Some(id)
    else if id !in m || m[id].parent.None? then None
    else Up(m, m[id].parent.value, n - 1)
  }

  /** How many existing folders a walk from here passes, out of at most `fuel`. */
  function Climb(m: Folders, current: Option<int>, fuel: nat): (n: nat)
    ensures n <= fuel
    decreases fuel
  {
    if fuel == 0 || current.None? || current.value !in m then 0
    else 1 + Climb(m, m[current.value].parent, fuel - 1)
  }

  ghost predicate WithinSteps(m: Folders, candidate: int, ancestor: int, max: nat) {
    exists k :: 0 <= k <= max && Up(m, candidate, k) == Some(ancestor)
  }

  /** Anywhere beneath, however far, or the folder itself. */
  ghost predicate Below(m: Folders, candidate: int, ancestor: int) {
    exists k: nat :: Up(m, candidate, k) == Some(ancestor)
  }

  /** The path from here leaves the top after exactly n folders. */
  ghost predicate Rooted(m: Folders, id: int, n: nat)
    decreases n
  {
    && 0 < n && id in m
    && match m[id].parent
       case None => n == 1
       case Some(p) => Rooted(m, p, n - 1)
  }

  ghost predicate Forest(m: Folders) {
    forall id :: id in m ==> exists n: nat :: Rooted(m, id, n)
  }

  lemma {:induction false} DepthIsUnique(m: Folders, id: int, a: nat, b: nat)
    requires Rooted(m, id, a) && Rooted(m, id, b)
    ensures a == b
    decreases a
  {
    if m[id].parent.Some? {
      DepthIsUnique(m, m[id].parent.value, a - 1, b - 1);
    }
  }

  lemma {:induction false} RootedAbove(m: Folders, id: int, n: nat, k: nat)
    requires Rooted(m, id, n) && Up(m, id, k).Some?
    ensures k < n && Rooted(m, Up(m, id, k).value, n - k)
    decreases k
  {
    if k > 0 {
      RootedAbove(m, m[id].parent.value, n - 1, k - 1);
    }
  }

  lemma {:induction false} UpOneMore(m: Folders, id: int, k: nat)
    requires Up(m, id, k).Some?
    ensures Up(m, id, k + 1) == Up(m, Up(m, id, k).value, 1)
    decreases k
  {
    if k > 0 {
      UpOneMore(m, m[id].parent.value, k - 1);
    }
  }

  ghost predicate SomewhereAbove(m: Folders, v: int, id: int) {
    exists k: nat :: 0 < k && Up(m, v, k) == Some(id)
  }

  ghost predicate Acyclic(m: Folders) {
    forall id :: id in m ==> !SomewhereAbove(m, id, id)
  }

  ghost predicate ParentsExist(m: Folders) {
    forall id :: id in m && m[id].parent.Some? ==> m[id].parent.value in m
  }

  /** A finite acyclic table cannot climb for ever: `passed` are the folders the walk has left behind. */
  lemma {:induction false} AcyclicIsRooted(m: Folders, id: int, passed: set<int>)
    requires Acyclic(m) && ParentsExist(m) && id in m && passed <= m.Keys
    requires forall v :: v in passed ==> SomewhereAbove(m, v, id)
    ensures exists n: nat :: Rooted(m, id, n)
    decreases m.Keys - passed
  {
    assert id !in passed;
    if m[id].parent.None? {
      assert Rooted(m, id, 1);
    } else {
      var p := m[id].parent.value;
      forall v | v in passed + {id}
        ensures SomewhereAbove(m, v, p)
      {
        if v == id {
          assert Up(m, id, 1) == Some(p) by { assert Up(m, p, 0) == Some(p); }
        } else {
          var k: nat :| 0 < k && Up(m, v, k) == Some(id);
          UpOneMore(m, v, k);
          assert Up(m, p, 0) == Some(p);
          assert Up(m, v, k + 1) == Some(p);
        }
      }
      assert id in m.Keys - passed;
      AcyclicIsRooted(m, p, passed + {id});
      var n: nat :| Rooted(m, p, n);
      assert Rooted(m, id, n + 1);
    }
  }

  /** Being a forest is exactly: every parent exists and no folder is above itself. */
  lemma ForestIffAcyclic(m: Folders)
    ensures Forest(m) <==> ParentsExist(m) && Acyclic(m)
  {
    if ParentsExist(m) && Acyclic(m) {
      forall id | id in m
        ensures exists n: nat :: Rooted(m, id, n)
      {
        AcyclicIsRooted(m, id, {});
      }
    }
    if Forest(m) {
      forall id | id in m
        ensures !SomewhereAbove(m, id, id)
        ensures m[id].parent.Some? ==> m[id].parent.value in m
      {
        var n: nat :| Rooted(m, id, n);
        assert m[id].parent.Some? ==> Rooted(m, m[id].parent.value, n - 1);
        forall k: nat | 0 < k
          ensures Up(m, id, k) != Some(id)
        {
          if Up(m, id, k).Some? {
            RootedAbove(m, id, n, k);
            if Rooted(m, id, n - k) {
              DepthIsUnique(m, id, n, n - k);
            }
          }
        }
      }
    }
  }

  // --- The two bounded checks together ----------------------------------------------------------------

  /** What `moveFolder` asks of the parent: not found below within the bound, and shallow enough. */
  ghost predicate PassesChecks(m: Folders, folder: int, parent: int, max: nat) {
    !WithinSteps(m, parent, folder, max) && Climb(m, Some(parent), max + 1) + 1 <= max
  }

  lemma {:induction false} LongPathFillsClimb(m: Folders, id: int, k: nat, fuel: nat)
    requires Up(m, id, k).Some? && fuel <= k
    ensures Climb(m, Some(id), fuel) == fuel
    decreases fuel
  {
    if fuel > 0 {
      LongPathFillsClimb(m, m[id].parent.value, k - 1, fuel - 1);
    }
  }

  lemma {:induction false} ClimbOfRooted(m: Folders, id: int, n: nat, fuel: nat)
    requires Rooted(m, id, n)
    ensures Climb(m, Some(id), fuel) == if n < fuel then n else fuel
    decreases fuel
  {
    if fuel > 0 && m[id].parent.Some? {
      ClimbOfRooted(m, m[id].parent.value, n - 1, fuel - 1);
    }
  }

  /**
   * On any graph, cyclic or deeper than the limit: when the descendant walk gives up before it would have
   * found the folder, the depth walk is at its limit and the move is refused.
   */
  lemma GivingUpForcesRefusal(m: Folders, folder: int, parent: int, max: nat)
    requires Below(m, parent, folder)
    ensures !PassesChecks(m, folder, parent, max)
    ensures !WithinSteps(m, parent, folder, max) ==> Climb(m, Some(parent), max + 1) == max + 1
  {
    if !WithinSteps(m, parent, folder, max) {
      var k: nat :| Up(m, parent, k) == Some(folder);
      LongPathFillsClimb(m, parent, k, max + 1);
    }
  }

  /** On a forest the two bounded checks decide exactly the unbounded question, and the depth limit. */
  lemma BoundedChecksAreExact(m: Folders, folder: int, parent: int, depth: nat, max: nat)
    requires Rooted(m, parent, depth)
    ensures PassesChecks(m, folder, parent, max) <==> !Below(m, parent, folder) && depth < max
  {
    ClimbOfRooted(m, parent, depth, max + 1);
    assert WithinSteps(m, parent, folder, max) ==> Below(m, parent, folder);
    if Below(m, parent, folder) {
      GivingUpForcesRefusal(m, folder, parent, max);
    }
  }

  function Moved(m: Folders, folder: int, parent: Option<int>): Folders
    requires folder in m
  {
    m[folder := m[folder].(parent := parent)]
  }

  lemma {:induction false} PathAvoiding(m: Folders, folder: int, to: Option<int>, id: int, n: nat)
    requires folder in m && Rooted(m, id, n) && !Below(m, id, folder)
    ensures Rooted(Moved(m, folder, to), id, n)
    decreases n
  {
    assert Up(m, id, 0) == Some(id);
    if m[id].parent.Some? {
      var p := m[id].parent.value;
      forall k: nat
        ensures Up(m, p, k) != Some(folder)
      {
        assert Up(m, id, k + 1) == Up(m, p, k);
      }
      PathAvoiding(m, folder, to, p, n - 1);
    }
  }

  lemma {:induction false} PathThrough(m: Folders, folder: int, to: Option<int>, id: int, n: nat, top: nat)
    requires folder in m && Rooted(m, id, n)
    requires Rooted(Moved(m, folder, to), folder, top)
    ensures exists n': nat :: Rooted(Moved(m, folder, to), id, n')
    decreases n
  {
    var m' := Moved(m, folder, to);
    if id == folder {
      assert Rooted(m', id, top);
    } else if m[id].parent.None? {
      assert Rooted(m', id, 1);
    } else {
      PathThrough(m, folder, to, m[id].parent.value, n - 1, top);
      var n': nat :| Rooted(m', m[id].parent.value, n');
      assert Rooted(m', id, n' + 1);
    }
  }

  /** A move keeps the forest exactly when the new parent is outside the folder's own subtree. */
  lemma MoveKeepsForestIff(m: Folders, folder: int, parent: int)
    requires Forest(m) && folder in m && parent in m
    ensures Forest(Moved(m, folder, Some(parent))) <==> !Below(m, parent, folder)
  {
    var m' := Moved(m, folder, Some(parent));
    if !Below(m, parent, folder) {
      var n: nat :| Rooted(m, parent, n);
      PathAvoiding(m, folder, Some(parent), parent, n);
      assert Rooted(m', folder, n + 1);
      forall id | id in m'
        ensures exists n': nat :: Rooted(m', id, n')
      {
        var d: nat :| Rooted(m, id, d);
        PathThrough(m, folder, Some(parent), id, d, n + 1);
      }
    } else {
      var k: nat :| Up(m, parent, k) == Some(folder);
      SubtreeMoveIsACycle(m, folder, parent, k);
      ForestIffAcyclic(m');
    }
  }

  lemma {:induction false} FirstVisit(m: Folders, folder: int, id: int, k: nat) returns (j: nat)
    requires Up(m, id, k) == Some(folder)
    ensures j <= k && Up(m, id, j) == Some(folder) && forall i :: 0 <= i < j ==> Up(m, id, i) != Some(folder)
    decreases k
  {
    if forall i :: 0 <= i < k ==> Up(m, id, i) != Some(folder) {
      j := k;
    } else {
      var i :| 0 <= i < k && Up(m, id, i) == Some(folder);
      j := FirstVisit(m, folder, id, i);
    }
  }

  lemma {:induction false} UpBeforeVisit(m: Folders, folder: int, to: Option<int>, id: int, j: nat)
    requires folder in m && forall i :: 0 <= i < j ==> Up(m, id, i) != Some(folder)
    ensures Up(Moved(m, folder, to), id, j) == Up(m, id, j)
    decreases j
  {
    if j > 0 {
      assert Up(m, id, 0) == Some(id);
      if id in m && m[id].parent.Some? {
        var p := m[id].parent.value;
        forall i | 0 <= i < j - 1
          ensures Up(m, p, i) != Some(folder)
        {
          assert Up(m, id, i + 1) == Up(m, p, i);
        }
        UpBeforeVisit(m, folder, to, p, j - 1);
      }
    }
  }

  lemma SubtreeMoveIsACycle(m: Folders, folder: int, parent: int, k: nat)
    requires folder in m && parent in m && Up(m, parent, k) == Some(folder)
    ensures !Acyclic(Moved(m, folder, Some(parent)))
  {
    var m' := Moved(m, folder, Some(parent));
    var j := FirstVisit(m, folder, parent, k);
    UpBeforeVisit(m, folder, Some(parent), parent, j);
    assert Up(m', folder, j + 1) == Up(m', parent, j) == Some(folder);
    assert SomewhereAbove(m', folder, folder);
  }

  // --- The library's state and operations ------------------------------------------------------------

  datatype Asset = Asset(brand: Option<int>, folder: Option<int>, deleted: bool)

  /** An upload names its folder when it is opened; the asset appears when it completes. */
  datatype Upload = Upload(brand: Option<int>, folder: Option<int>, open: bool)

  datatype State = State(folders: Folders, assets: map<int, Asset>, uploads: map<int, Upload>)

  datatype Op =
    | CreateFolder(id: int, brand: Option<int>, parent: Option<int>, max: nat)
    | MoveFolder(folder: int, to: Option<int>, max: nat)
    | DeleteFolder(folder: int)
    | FileAsset(asset: int, into: Option<int>)
    | DeleteAsset(asset: int)
    | InitiateUpload(id: int, brand: Option<int>, into: Option<int>)
    | CompleteUpload(upload: int, asset: int)
    | AbortUpload(upload: int)

  datatype Outcome = Done | FolderNotFound | FolderCycle | FolderTooDeep | FolderNotEmpty | NotFound | IdTaken

  predicate Live(m: Folders, id: int) {
    id in m && !m[id].deleted
  }

  /** A brand's folder takes only that brand's assets; a shared one takes anything. */
  predicate Accepts(m: Folders, into: Option<int>, brand: Option<int>) {
    into.Some? ==> Live(m, into.value) && m[into.value].brand in {None, brand}
  }

  predicate Empty(s: State, folder: int) {
    && (forall id :: id in s.folders && !s.folders[id].deleted ==> s.folders[id].parent != Some(folder))
    && (forall a :: a in s.assets && !s.assets[a].deleted ==> s.assets[a].folder != Some(folder))
  }

  ghost function Decide(s: State, op: Op): Outcome {
    match op
    case CreateFolder(id, brand, parent, max) =>
      if id in s.folders then IdTaken
      else if parent.None? then Done
      else if !Live(s.folders, parent.value) || s.folders[parent.value].brand != brand then FolderNotFound
      else if Climb(s.folders, parent, max + 1) + 1 > max then FolderTooDeep
      else Done
    case MoveFolder(folder, to, max) =>
      if !Live(s.folders, folder) then FolderNotFound
      else if to.None? then Done
      else if to.value == folder then FolderCycle
      else if !Live(s.folders, to.value) || s.folders[to.value].brand != s.folders[folder].brand then FolderNotFound
      else if WithinSteps(s.folders, to.value, folder, max) then FolderCycle
      else if Climb(s.folders, to, max + 1) + 1 > max then FolderTooDeep
      else Done
    case DeleteFolder(folder) =>
      if !Live(s.folders, folder) then FolderNotFound
      else if !Empty(s, folder) then FolderNotEmpty
      else Done
    case FileAsset(asset, into) =>
      if asset !in s.assets || s.assets[asset].deleted then NotFound
      else if !Accepts(s.folders, into, s.assets[asset].brand) then FolderNotFound
      else Done
    case DeleteAsset(asset) => if asset !in s.assets || s.assets[asset].deleted then NotFound else Done
    case InitiateUpload(id, brand, into) =>
      if id in s.uploads then IdTaken else if !Accepts(s.folders, into, brand) then FolderNotFound else Done
    case CompleteUpload(upload, asset) =>
      if upload !in s.uploads || !s.uploads[upload].open then NotFound
      else if asset in s.assets then IdTaken
      else Done
    case AbortUpload(upload) => if upload !in s.uploads || !s.uploads[upload].open then NotFound else Done
  }

  /** A refused call changes nothing. */
  ghost function Next(s: State, op: Op): State {
    if Decide(s, op) != Done then s
    else
      match op
      case CreateFolder(id, brand, parent, _) => s.(folders := s.folders[id := Folder(brand, parent, false)])
      case MoveFolder(folder, to, _) => s.(folders := Moved(s.folders, folder, to))
      case DeleteFolder(folder) => s.(folders := s.folders[folder := s.folders[folder].(deleted := true)])
      case FileAsset(asset, into) => s.(assets := s.assets[asset := s.assets[asset].(folder := into)])
      case DeleteAsset(asset) => s.(assets := s.assets[asset := s.assets[asset].(deleted := true)])
      case InitiateUpload(id, brand, into) => s.(uploads := s.uploads[id := Upload(brand, into, true)])
      case CompleteUpload(upload, asset) =>
        s.(assets := s.assets[asset := Asset(s.uploads[upload].brand, s.uploads[upload].folder, false)],
           uploads := s.uploads[upload := s.uploads[upload].(open := false)])
      case AbortUpload(upload) => s.(uploads := s.uploads[upload := s.uploads[upload].(open := false)])
  }

  ghost function Run(s: State, ops: seq<Op>): State
    decreases |ops|
  {
    if ops == [] then s else Run(Next(s, ops[0]), ops[1..])
  }

  // --- What every run keeps --------------------------------------------------------------------------

  ghost predicate OneBrand(m: Folders) {
    forall id :: id in m && m[id].parent.Some? ==>
      m[id].parent.value in m && m[m[id].parent.value].brand == m[id].brand
  }

  ghost predicate LiveParents(m: Folders) {
    forall id :: id in m && m[id].parent.Some? && !m[id].deleted ==> Live(m, m[id].parent.value)
  }

  ghost predicate FiledByBrand(s: State) {
    && (forall a :: a in s.assets && s.assets[a].folder.Some? ==>
          s.assets[a].folder.value in s.folders && s.folders[s.assets[a].folder.value].brand in {None, s.assets[a].brand})
    && (forall u :: u in s.uploads && s.uploads[u].folder.Some? ==>
          s.uploads[u].folder.value in s.folders && s.folders[s.uploads[u].folder.value].brand in {None, s.uploads[u].brand})
  }

  ghost predicate Inv(s: State) {
    Forest(s.folders) && OneBrand(s.folders) && LiveParents(s.folders) && FiledByBrand(s)
  }

  lemma {:induction false} RootedWithExtra(m: Folders, m': Folders, id: int, n: nat)
    requires Rooted(m, id, n)
    requires forall x :: x in m ==> x in m' && m'[x].parent == m[x].parent
    ensures Rooted(m', id, n)
    decreases n
  {
    if m[id].parent.Some? {
      RootedWithExtra(m, m', m[id].parent.value, n - 1);
    }
  }

  lemma SameParentsSameForest(m: Folders, m': Folders)
    requires Forest(m) && m'.Keys == m.Keys && forall x :: x in m ==> m'[x].parent == m[x].parent
    ensures Forest(m')
  {
    forall id | id in m'
      ensures exists n: nat :: Rooted(m', id, n)
    {
      var n: nat :| Rooted(m, id, n);
      RootedWithExtra(m, m', id, n);
    }
  }

  lemma CreateKeepsForest(m: Folders, id: int, f: Folder)
    requires Forest(m) && id !in m && (f.parent.Some? ==> f.parent.value in m)
    ensures Forest(m[id := f])
  {
    var m' := m[id := f];
    forall x | x in m'
      ensures exists n: nat :: Rooted(m', x, n)
    {
      if x != id {
        var n: nat :| Rooted(m, x, n);
        RootedWithExtra(m, m', x, n);
      } else if f.parent.None? {
        assert Rooted(m', id, 1);
      } else {
        var n: nat :| Rooted(m, f.parent.value, n);
        RootedWithExtra(m, m', f.parent.value, n);
        assert Rooted(m', id, n + 1);
      }
    }
  }

  lemma DetachKeepsForest(m: Folders, folder: int)
    requires Forest(m) && folder in m
    ensures Forest(Moved(m, folder, None))
  {
    var m' := Moved(m, folder, None);
    assert Rooted(m', folder, 1);
    forall id | id in m'
      ensures exists n: nat :: Rooted(m', id, n)
    {
      var n: nat :| Rooted(m, id, n);
      PathThrough(m, folder, None, id, n, 1);
    }
  }

  lemma ForestStep(s: State, op: Op)
    requires Inv(s)
    ensures Forest(Next(s, op).folders)
  {
    if Decide(s, op) == Done {
      match op {
        case CreateFolder(id, brand, parent, _) =>
          CreateKeepsForest(s.folders, id, Folder(brand, parent, false));
        case MoveFolder(folder, to, max) =>
          if to.None? {
            DetachKeepsForest(s.folders, folder);
          } else {
            if Below(s.folders, to.value, folder) {
              GivingUpForcesRefusal(s.folders, folder, to.value, max);
            }
            MoveKeepsForestIff(s.folders, folder, to.value);
          }
        case DeleteFolder(folder) =>
          SameParentsSameForest(s.folders, Next(s, op).folders);
        case _ =>
      }
    }
  }

  /** Every operation, accepted or refused, keeps the tree a forest of one brand per path with live parents. */
  lemma StepKeepsInv(s: State, op: Op)
    requires Inv(s)
    ensures Inv(Next(s, op))
  {
    ForestStep(s, op);
    ForestIffAcyclic(s.folders);
  }

  lemma {:induction false} RunKeepsInv(s: State, ops: seq<Op>)
    requires Inv(s)
    ensures Inv(Run(s, ops))
    decreases |ops|
  {
    if ops != [] {
      StepKeepsInv(s, ops[0]);
      RunKeepsInv(Next(s, ops[0]), ops[1..]);
    }
  }

  lemma {:induction false} PathIsUniform(m: Folders, id: int, k: nat)
    requires OneBrand(m) && LiveParents(m) && id in m && Up(m, id, k).Some?
    ensures Up(m, id, k).value in m && m[Up(m, id, k).value].brand == m[id].brand
    ensures !m[id].deleted ==> !m[Up(m, id, k).value].deleted
    decreases k
  {
    if k > 0 {
      PathIsUniform(m, m[id].parent.value, k - 1);
    }
  }

  /** In every state any run reaches: no folder is above itself, and a path has one brand and no gap in it. */
  lemma EveryReachableTree(s: State, ops: seq<Op>, id: int, k: nat)
    requires Inv(s) && id in Run(s, ops).folders && 0 < k && Up(Run(s, ops).folders, id, k).Some?
    ensures var m := Run(s, ops).folders;
            var above := Up(m, id, k).value;
            && above != id && above in m && m[above].brand == m[id].brand
            && (!m[id].deleted ==> !m[above].deleted)
  {
    RunKeepsInv(s, ops);
    var m := Run(s, ops).folders;
    ForestIffAcyclic(m);
    PathIsUniform(m, id, k);
    assert !SomewhereAbove(m, id, id);
  }

  /** What "refused while it holds anything" is for: no live asset sits in a deleted folder. */
  ghost predicate FilesAreReachable(s: State) {
    forall a :: a in s.assets && !s.assets[a].deleted && s.assets[a].folder.Some? ==>
      Live(s.folders, s.assets[a].folder.value)
  }

  /**
   * Exactly one operation can break it: completing an upload opened before its folder was deleted, because
   * the folder is checked when the upload is opened and not again.
   */
  lemma FilesStayReachableIff(s: State, op: Op)
    requires Inv(s) && FilesAreReachable(s)
    ensures FilesAreReachable(Next(s, op)) <==>
            !(op.CompleteUpload? && Decide(s, op) == Done && s.uploads[op.upload].folder.Some?
              && !Live(s.folders, s.uploads[op.upload].folder.value))
  {
    if op.CompleteUpload? && Decide(s, op) == Done {
      var s' := Next(s, op);
      assert op.asset in s'.assets && !s'.assets[op.asset].deleted;
      assert s'.assets[op.asset].folder == s.uploads[op.upload].folder;
    }
  }

  /** The run, for any ids: an upload is opened into a folder, the folder is deleted while it is empty, the upload completes. */
  lemma FileLostInDeletedFolder(folder: int, upload: int, asset: int, max: nat) returns (ops: seq<Op>)
    ensures !FilesAreReachable(Run(State(map[], map[], map[]), ops))
  {
    var s0 := State(map[], map[], map[]);
    var s1 := s0.(folders := map[folder := Folder(None, None, false)]);
    var s2 := s1.(uploads := map[upload := Upload(None, Some(folder), true)]);
    var s3 := s2.(folders := map[folder := Folder(None, None, true)]);
    var a, b, c, d := CreateFolder(folder, None, None, max), InitiateUpload(upload, None, Some(folder)), DeleteFolder(folder), CompleteUpload(upload, asset);
    assert Next(s0, a) == s1;
    assert Next(s1, b) == s2;
    assert Next(s2, c) == s3;
    var s4 := Next(s3, d);
    assert asset in s4.assets && s4.assets[asset] == Asset(None, Some(folder), false) && !Live(s4.folders, folder);
    ops := [a, b, c, d];
    assert ops[1..] == [b, c, d] && ops[1..][1..] == [c, d] && [c, d][1..] == [d] && [d][1..] == [];
    assert Run(s2, [c, d]) == Run(s3, [d]) == Run(s4, []) == s4;
    assert Run(s0, ops) == Run(s1, [b, c, d]) == Run(s2, [c, d]);
  }

  // --- What the calls decide and do, said of the tree itself -------------------------------------------------

  /** A live folder of this brand, with room below it: fewer folders from the top to it than the limit. */
  ghost predicate HasRoom(m: Folders, parent: int, brand: Option<int>, max: nat) {
    Live(m, parent) && m[parent].brand == brand && exists depth: nat :: Rooted(m, parent, depth) && depth < max
  }

  ghost predicate HoldsAnything(m: Folders, assets: map<int, Asset>, folder: int) {
    || (exists id :: id in m && !m[id].deleted && m[id].parent == Some(folder))
    || (exists a :: a in assets && !assets[a].deleted && assets[a].folder == Some(folder))
  }

  /** Live, and shared or of this brand. */
  predicate TakesBrand(m: Folders, folder: int, brand: Option<int>) {
    Live(m, folder) && (m[folder].brand == None || m[folder].brand == brand)
  }

  lemma RoomByClimb(m: Folders, parent: int, brand: Option<int>, max: nat)
    requires Forest(m) && Live(m, parent) && m[parent].brand == brand
    ensures HasRoom(m, parent, brand, max) <==> Climb(m, Some(parent), max + 1) + 1 <= max
  {
    var depth: nat :| Rooted(m, parent, depth);
    ClimbOfRooted(m, parent, depth, max + 1);
    forall d: nat | Rooted(m, parent, d)
      ensures d == depth
    {
      DepthIsUnique(m, parent, depth, d);
    }
  }

  lemma MoveByPlace(m: Folders, folder: int, to: int, max: nat)
    requires Forest(m) && Live(m, to)
    ensures to != folder && !WithinSteps(m, to, folder, max) && Climb(m, Some(to), max + 1) + 1 <= max
       <==> !Below(m, to, folder) && HasRoom(m, to, m[to].brand, max)
  {
    RoomByClimb(m, to, m[to].brand, max);
    var depth: nat :| Rooted(m, to, depth);
    BoundedChecksAreExact(m, folder, to, depth, max);
    assert Up(m, to, 0) == Some(to);
  }

  /** Opening and abandoning uploads, and deleting assets: each touches its own row, and a refused call none. */
  lemma RowsOfOtherCalls(s: State, op: Op)
    ensures Decide(s, op) != Done ==> Next(s, op) == s
    ensures op.InitiateUpload? ==>
              && (Decide(s, op) == Done <==> op.id !in s.uploads && Accepts(s.folders, op.into, op.brand))
              && (Decide(s, op) == Done ==> Next(s, op) == State(s.folders, s.assets, s.uploads[op.id := Upload(op.brand, op.into, true)]))
    ensures op.AbortUpload? ==>
              && (Decide(s, op) == Done <==> op.upload in s.uploads && s.uploads[op.upload].open)
              && (Decide(s, op) == Done ==>
                    Next(s, op) == State(s.folders, s.assets, s.uploads[op.upload := s.uploads[op.upload].(open := false)]))
    ensures op.DeleteAsset? ==>
              && (Decide(s, op) == Done <==> op.asset in s.assets && !s.assets[op.asset].deleted)
              && (Decide(s, op) == Done ==>
                    Next(s, op) == State(s.folders, s.assets[op.asset := s.assets[op.asset].(deleted := true)], s.uploads))
  {
  }

  class AssetLibrary {
    var folders: Folders
    var assets: map<int, Asset>
    var uploads: map<int, Upload>

    ghost function View(): State
      reads this
    {
      State(folders, assets, uploads)
    }

    constructor ()
      ensures View() == State(map[], map[], map[]) && Inv(View())
    {
      folders, assets, uploads := map[], map[], map[];
    }

    /** Ends on any table, cyclic or dangling, because it stops one past the limit. */
    method DepthOf(id: int, max: nat) returns (depth: nat)
      ensures depth == Climb(folders, Some(id), max + 1)
    {
      depth := 0;
      var current := Some(id);
      while current.Some? && depth <= max
        invariant depth <= max + 1
        invariant depth + Climb(folders, current, max + 1 - depth) == Climb(folders, Some(id), max + 1)
        decreases max + 1 - depth
      {
        if current.value !in folders {
          break;
        }
        current := folders[current.value].parent;
        depth := depth + 1;
      }
    }

    method IsDescendantOf(candidate: int, ancestor: int, max: nat) returns (found: bool)
      ensures found <==> WithinSteps(folders, candidate, ancestor, max)
    {
      var current, steps := Some(candidate), 0;
      while current.Some? && steps <= max
        invariant 0 <= steps <= max + 1 && Up(folders, candidate, steps) == current
        invariant forall k :: 0 <= k < steps ==> Up(folders, candidate, k) != Some(ancestor)
        decreases max + 1 - steps
      {
        if current.value == ancestor {
          return true;
        }
        UpOneMore(folders, candidate, steps);
        if current.value !in folders {
          NothingAboveNothing(folders, candidate, steps + 1, max);
          return false;
        }
        current := folders[current.value].parent;
        assert current.Some? ==> Up(folders, current.value, 0) == current;
        steps := steps + 1;
      }
      if current.None? {
        NothingAboveNothing(folders, candidate, steps, max);
      }
      return false;
    }

    method CreateFolder(id: int, brand: Option<int>, parent: Option<int>, max: nat) returns (r: Outcome)
      modifies this
      ensures r == Decide(old(View()), Op.CreateFolder(id, brand, parent, max))
      ensures View() == Next(old(View()), Op.CreateFolder(id, brand, parent, max))
      ensures old(Forest(folders)) ==>
                (r == Done <==> id !in old(folders) && (parent.Some? ==> HasRoom(old(folders), parent.value, brand, max)))
      ensures r == FolderNotFound <==>
                id !in old(folders) && parent.Some? && !(Live(old(folders), parent.value) && old(folders)[parent.value].brand == brand)
      ensures folders == if r == Done then old(folders)[id := Folder(brand, parent, false)] else old(folders)
      ensures assets == old(assets) && uploads == old(uploads)
    {
      if Forest(folders) && parent.Some? && Live(folders, parent.value) && folders[parent.value].brand == brand {
        RoomByClimb(folders, parent.value, brand, max);
      }
      if id in folders {
        return IdTaken;
      }
      if parent.Some? {
        if parent.value !in folders || folders[parent.value].deleted || folders[parent.value].brand != brand {
          return FolderNotFound;
        }
        var depth := DepthOf(parent.value, max);
        if depth + 1 > max {
          return FolderTooDeep;
        }
      }
      folders := folders[id := Folder(brand, parent, false)];
      return Done;
    }

    method MoveFolder(folder: int, to: Option<int>, max: nat) returns (r: Outcome)
      modifies this
      ensures r == Decide(old(View()), Op.MoveFolder(folder, to, max))
      ensures View() == Next(old(View()), Op.MoveFolder(folder, to, max))
      ensures old(Inv(View())) ==> Inv(View())
      ensures old(Forest(folders)) ==>
                (r == Done <==> Live(old(folders), folder) &&
                                (to.Some? ==> !Below(old(folders), to.value, folder)
                                              && HasRoom(old(folders), to.value, old(folders)[folder].brand, max)))
      ensures r == FolderNotFound <==>
                !Live(old(folders), folder) || (to.Some? && to.value != folder &&
                  !(Live(old(folders), to.value) && old(folders)[to.value].brand == old(folders)[folder].brand))
      ensures r == FolderCycle ==> to.Some? && Below(old(folders), to.value, folder)
      ensures folders == if r == Done then old(folders)[folder := old(folders)[folder].(parent := to)] else old(folders)
      ensures assets == old(assets) && uploads == old(uploads)
    {
      if Forest(folders) && to.Some? && Live(folders, to.value) {
        MoveByPlace(folders, folder, to.value, max);
      }
      StepKeepsInvIf(View(), Op.MoveFolder(folder, to, max));
      if folder !in folders || folders[folder].deleted {
        return FolderNotFound;
      }
      if to.Some? {
        if to.value == folder {
          assert Up(folders, folder, 0) == to;
          return FolderCycle;
        }
        if to.value !in folders || folders[to.value].deleted || folders[to.value].brand != folders[folder].brand {
          return FolderNotFound;
        }
        var below := IsDescendantOf(to.value, folder, max);
        if below {
          return FolderCycle;
        }
        var depth := DepthOf(to.value, max);
        if depth + 1 > max {
          return FolderTooDeep;
        }
      }
      folders := folders[folder := folders[folder].(parent := to)];
      return Done;
    }

    method DeleteFolder(folder: int) returns (r: Outcome)
      modifies this
      ensures r == Decide(old(View()), Op.DeleteFolder(folder))
      ensures View() == Next(old(View()), Op.DeleteFolder(folder))
      ensures r == FolderNotFound <==> !Live(old(folders), folder)
      ensures r == FolderNotEmpty <==> Live(old(folders), folder) && HoldsAnything(old(folders), old(assets), folder)
      ensures r in {Done, FolderNotFound, FolderNotEmpty}
      ensures folders == if r == Done then old(folders)[folder := old(folders)[folder].(deleted := true)] else old(folders)
      ensures assets == old(assets) && uploads == old(uploads)
    {
      if folder !in folders || folders[folder].deleted {
        return FolderNotFound;
      }
      var children := set id | id in folders && !folders[id].deleted && folders[id].parent == Some(folder);
      var filed := set a | a in assets && !assets[a].deleted && assets[a].folder == Some(folder);
      assert Empty(View(), folder) ==> (forall id :: id !in children) && children == {};
      assert Empty(View(), folder) ==> (forall a :: a !in filed) && filed == {};
      if |filed| > 0 || |children| > 0 {
        return FolderNotEmpty;
      }
      assert forall id :: id in folders && !folders[id].deleted && folders[id].parent == Some(folder) ==> id in children;
      assert forall a :: a in assets && !assets[a].deleted && assets[a].folder == Some(folder) ==> a in filed;
      folders := folders[folder := folders[folder].(deleted := true)];
      return Done;
    }

    /** The folder half of editing an asset's metadata. */
    method FileAsset(asset: int, into: Option<int>) returns (r: Outcome)
      modifies this
      ensures r == Decide(old(View()), Op.FileAsset(asset, into))
      ensures View() == Next(old(View()), Op.FileAsset(asset, into))
      ensures r == NotFound <==> !(asset in old(assets) && !old(assets)[asset].deleted)
      ensures asset in old(assets) && !old(assets)[asset].deleted ==>
                (r == FolderNotFound <==> into.Some? && !TakesBrand(old(folders), into.value, old(assets)[asset].brand))
      ensures r in {Done, NotFound, FolderNotFound}
      ensures assets == if r == Done then old(assets)[asset := old(assets)[asset].(folder := into)] else old(assets)
      ensures folders == old(folders) && uploads == old(uploads)
    {
      if asset !in assets || assets[asset].deleted {
        return NotFound;
      }
      if !Accepts(folders, into, assets[asset].brand) {
        return FolderNotFound;
      }
      assets := assets[asset := assets[asset].(folder := into)];
      return Done;
    }

    /** The folder half of completing an upload: the session's folder, as it was when the upload was opened. */
    method CompleteUpload(upload: int, asset: int) returns (r: Outcome)
      modifies this
      ensures r == Decide(old(View()), Op.CompleteUpload(upload, asset))
      ensures View() == Next(old(View()), Op.CompleteUpload(upload, asset))
      ensures r == Done <==> upload in old(uploads) && old(uploads)[upload].open && asset !in old(assets)
      ensures folders == old(folders)
      ensures r == Done ==> assets == old(assets)[asset := Asset(old(uploads)[upload].brand, old(uploads)[upload].folder, false)]
      ensures r == Done ==> uploads == old(uploads)[upload := old(uploads)[upload].(open := false)]
      ensures r != Done ==> assets == old(assets) && uploads == old(uploads)
    {
      if upload !in uploads || !uploads[upload].open {
        return NotFound;
      }
      if asset in assets {
        return IdTaken;
      }
      assets := assets[asset := Asset(uploads[upload].brand, uploads[upload].folder, false)];
      uploads := uploads[upload := uploads[upload].(open := false)];
      return Done;
    }
  }

  lemma StepKeepsInvIf(s: State, op: Op)
    ensures Inv(s) ==> Inv(Next(s, op))
  {
    if Inv(s) {
      StepKeepsInv(s, op);
    }
  }

  lemma {:induction false} NothingAboveNothing(m: Folders, id: int, from: nat, max: nat)
    requires Up(m, id, from).None?
    ensures forall k :: from <= k <= max ==> Up(m, id, k).None?
    decreases max
  {
    if from <= max {
      if from < max {
        NothingAboveNothing(m, id, from, max - 1);
        if Up(m, id, max).Some? {
          UpBelow(m, id, max - 1);
        }
      }
    }
  }

  lemma {:induction false} UpBelow(m: Folders, id: int, k: nat)
    requires Up(m, id, k + 1).Some?
    ensures Up(m, id, k).Some?
    decreases k
  {
    if k > 0 {
      UpBelow(m, m[id].parent.value, k - 1);
    }
  }
}
