/** The object-storage layout. Every segment is an identifier without a separator, which is what keeps keys apart. */
module StorageKeys {
  import opened Text

  /** What an object is stored for. */
  datatype Location =
    | AssetObject(workspace: string, brand: Option<string>, asset: string, version: nat)
    | Derivative(workspace: string, brand: Option<string>, asset: string, version: nat, kind: string)
    | Staging(workspace: string, session: string)

  predicate Plain(s: string) {
    '/' !in s
  }

  predicate PlainLocation(l: Location) {
    && Plain(l.workspace)
    && (!l.Staging? ==> Plain(l.asset) && (l.brand.Some? ==> Plain(l.brand.value)))
    && (l.Derivative? ==> Plain(l.kind))
    && (l.Staging? ==> Plain(l.session))
  }

  function AssetObjectKey(workspace: string, brand: Option<string>, asset: string, version: nat): string {
    var scope := if brand.None? then "ws/" + workspace else "ws/" + workspace + "/brand/" + brand.value;
    scope + "/asset/" + asset + "/v" + NatText(version)
  }

  function Lower(s: string): (r: string)
    ensures |r| == |s|
    ensures Plain(s) ==> Plain(r)
  {
    if s == [] then []
    else
      var c := s[0];
      [if 'A' <= c <= 'Z' then (c as int + 32) as char else c] + Lower(s[1..])
  }

  /** A capital becomes the small letter at its place in the alphabet, and nothing else changes. */
  lemma {:induction false} LowerFoldsExactly(s: string, i: nat)
    requires i < |s|
    ensures 'A' <= s[i] <= 'Z' ==> 'a' <= Lower(s)[i] <= 'z' && Lower(s)[i] as int - 'a' as int == s[i] as int - 'A' as int
    ensures !('A' <= s[i] <= 'Z') ==> Lower(s)[i] == s[i]
  {
    if 0 < i {
      LowerFoldsExactly(s[1..], i - 1);
    }
  }

  function DerivativeObjectKey(workspace: string, brand: Option<string>, asset: string, version: nat, kind: string): string {
    AssetObjectKey(workspace, brand, asset, version) + "/derivative-" + Lower(kind)
  }

  function UploadStagingKey(workspace: string, session: string): string {
    "ws/" + workspace + "/upload/" + session
  }

  function KeyOf(l: Location): string {
    match l
    case AssetObject(w, b, a, n) => AssetObjectKey(w, b, a, n)
    case Derivative(w, b, a, n, k) => DerivativeObjectKey(w, b, a, n, k)
    case Staging(w, s) => UploadStagingKey(w, s)
  }

  // --- Reading a key back -----------------------------------------------------------------------------

  function Join(segments: seq<string>): string
    requires segments != []
  {
    if |segments| == 1 then segments[0] else segments[0] + "/" + Join(segments[1..])
  }

  function Split(s: string): (r: seq<string>)
    ensures r != []
  {
    if s == [] then [""]
    else
      var rest := Split(s[1..]);
      if s[0] == '/' then [""] + rest else [[s[0]] + rest[0]] + rest[1..]
  }

  lemma {:induction false} SplitSegment(a: string, rest: string)
    requires Plain(a)
    ensures Split(a) == [a]
    ensures Split(a + "/" + rest) == [a] + Split(rest)
  {
    if a == [] {
      assert a + "/" + rest == "/" + rest;
      assert ("/" + rest)[1..] == rest;
    } else {
      SplitSegment(a[1..], rest);
      assert (a + "/" + rest)[1..] == a[1..] + "/" + rest;
      assert [a[0]] + a[1..] == a;
    }
  }

  lemma {:induction false} SplitJoin(segments: seq<string>)
    requires segments != [] && forall i :: 0 <= i < |segments| ==> Plain(segments[i])
    ensures Split(Join(segments)) == segments
  {
    if |segments| == 1 {
      SplitSegment(segments[0], "");
    } else {
      SplitJoin(segments[1..]);
      SplitSegment(segments[0], Join(segments[1..]));
      assert segments == [segments[0]] + segments[1..];
    }
  }

  function Segments(l: Location): (r: seq<string>)
    ensures r != []
  {
    match l
    case AssetObject(w, None, a, n) => ["ws", w, "asset", a, "v" + NatText(n)]
    case AssetObject(w, Some(b), a, n) => ["ws", w, "brand", b, "asset", a, "v" + NatText(n)]
    case Derivative(w, None, a, n, k) => ["ws", w, "asset", a, "v" + NatText(n), "derivative-" + Lower(k)]
    case Derivative(w, Some(b), a, n, k) => ["ws", w, "brand", b, "asset", a, "v" + NatText(n), "derivative-" + Lower(k)]
    case Staging(w, s) => ["ws", w, "upload", s]
  }

  lemma {:induction false} JoinLast(front: seq<string>, last: string)
    requires front != []
    ensures Join(front + [last]) == Join(front) + "/" + last
  {
    if |front| == 1 {
      assert (front + [last])[1..] == [last];
    } else {
      JoinLast(front[1..], last);
      assert (front + [last])[1..] == front[1..] + [last];
    }
  }

  lemma Glue(s: string, middle: string, last: string)
    ensures s + "/" + middle + "/" + last == s + ("/" + middle + "/") + last
  {
  }

  lemma JoinPair(front: seq<string>, middle: string, last: string)
    requires front != []
    ensures Join(front + [middle, last]) == Join(front) + ("/" + middle + "/") + last
  {
    assert front + [middle, last] == front + [middle] + [last];
    JoinLast(front, middle);
    JoinLast(front + [middle], last);
    Glue(Join(front), middle, last);
  }

  lemma ScopeIsItsSegments(w: string)
    ensures Join(["ws", w]) == "ws/" + w
  {
    JoinLast(["ws"], w);
    assert ["ws"] + [w] == ["ws", w];
    assert "ws" + "/" + w == "ws/" + w;
  }

  lemma AssetKeyIsItsSegments(w: string, brand: Option<string>, a: string, n: nat)
    ensures AssetObjectKey(w, brand, a, n) == Join(Segments(AssetObject(w, brand, a, n)))
  {
    var scope := if brand.None? then ["ws", w] else ["ws", w] + ["brand", brand.value];
    ScopeIsItsSegments(w);
    if brand.Some? {
      JoinPair(["ws", w], "brand", brand.value);
      assert "/" + "brand" + "/" == "/brand/";
    }
    JoinPair(scope, "asset", a);
    assert "/" + "asset" + "/" == "/asset/";
    JoinLast(scope + ["asset", a], "v" + NatText(n));
    Glue2(Join(scope + ["asset", a]), NatText(n));
    assert scope + ["asset", a] + ["v" + NatText(n)] == Segments(AssetObject(w, brand, a, n));
  }

  lemma Glue2(s: string, n: string)
    ensures s + "/" + ("v" + n) == s + "/v" + n
  {
  }

  lemma DerivativeKeyIsItsSegments(w: string, brand: Option<string>, a: string, n: nat, kind: string)
    ensures DerivativeObjectKey(w, brand, a, n, kind) == Join(Segments(Derivative(w, brand, a, n, kind)))
  {
    var base, last := Segments(AssetObject(w, brand, a, n)), "derivative-" + Lower(kind);
    AssetKeyIsItsSegments(w, brand, a, n);
    JoinLast(base, last);
    assert Segments(Derivative(w, brand, a, n, kind)) == base + [last];
    GlueDerivative(Join(base), Lower(kind));
  }

  lemma GlueDerivative(s: string, kind: string)
    ensures s + "/" + ("derivative-" + kind) == s + "/derivative-" + kind
  {
  }

  lemma StagingKeyIsItsSegments(w: string, s: string)
    ensures UploadStagingKey(w, s) == Join(Segments(Staging(w, s)))
  {
    ScopeIsItsSegments(w);
    JoinPair(["ws", w], "upload", s);
    assert "/" + "upload" + "/" == "/upload/";
    assert ["ws", w] + ["upload", s] == Segments(Staging(w, s));
  }

  lemma KeyIsItsSegments(l: Location)
    ensures KeyOf(l) == Join(Segments(l))
  {
    match l {
      case AssetObject(w, b, a, n) => AssetKeyIsItsSegments(w, b, a, n);
      case Derivative(w, b, a, n, k) => DerivativeKeyIsItsSegments(w, b, a, n, k);
      case Staging(w, s) => StagingKeyIsItsSegments(w, s);
    }
  }

  lemma SegmentsArePlain(l: Location)
    requires PlainLocation(l)
    ensures forall i :: 0 <= i < |Segments(l)| ==> Plain(Segments(l)[i])
  {
    if !l.Staging? {
      var t := NatText(l.version);
      assert forall i :: 0 <= i < |t| ==> IsDigit(t[i]);
      assert Plain("v" + t);
    }
    if l.Derivative? {
      assert Plain("derivative-" + Lower(l.kind));
    }
  }

  /** Two keys are the same exactly when they name the same object, up to the letter case of a derivative's kind. */
  predicate SameObject(a: Location, b: Location) {
    a == b || (a.Derivative? && b.Derivative? && Lower(a.kind) == Lower(b.kind) && a.(kind := b.kind) == b)
  }

  lemma VersionsFromSegments(m: nat, n: nat)
    requires "v" + NatText(m) == "v" + NatText(n)
    ensures m == n
  {
    assert NatText(m) == ("v" + NatText(m))[1..] == ("v" + NatText(n))[1..] == NatText(n);
    NatTextInjective(m, n);
  }

  lemma KindsFromSegments(j: string, k: string)
    requires "derivative-" + Lower(j) == "derivative-" + Lower(k)
    ensures Lower(j) == Lower(k)
  {
    assert Lower(j) == ("derivative-" + Lower(j))[11..] == ("derivative-" + Lower(k))[11..] == Lower(k);
  }

  lemma SegmentsDetermine(a: Location, b: Location)
    requires Segments(a) == Segments(b)
    ensures SameObject(a, b)
  {
    var p, q := Segments(a), Segments(b);
    assert |p| == |q| && p[1] == q[1] && p[2] == q[2] && p[3] == q[3];
    match a {
      case Staging(_, _) =>
      case AssetObject(_, x, _, m) =>
        assert p[|p| - 1] == q[|q| - 1] && p[|p| - 2] == q[|q| - 2];
        VersionsFromSegments(m, b.version);
      case Derivative(_, x, _, m, j) =>
        assert p[|p| - 1] == q[|q| - 1] && p[|p| - 2] == q[|q| - 2] && p[|p| - 3] == q[|q| - 3];
        VersionsFromSegments(m, b.version);
        KindsFromSegments(j, b.kind);
    }
  }

  /**
   * No two objects share a key: not two versions, not two assets or brands or workspaces, not a staged upload
   * and an accepted file, not a brand's object and a workspace-level one.
   */
  lemma KeysAreDistinct(a: Location, b: Location)
    requires PlainLocation(a) && PlainLocation(b)
    ensures KeyOf(a) == KeyOf(b) <==> SameObject(a, b)
  {
    KeyIsItsSegments(a);
    KeyIsItsSegments(b);
    if KeyOf(a) == KeyOf(b) {
      SegmentsArePlain(a);
      SegmentsArePlain(b);
      SplitJoin(Segments(a));
      SplitJoin(Segments(b));
      SegmentsDetermine(a, b);
    }
  }

  lemma JoinAfterTwo(a: string, b: string, rest: seq<string>)
    requires rest != []
    ensures Join([a, b] + rest) == a + "/" + (b + "/" + Join(rest))
  {
    assert ([b] + rest)[1..] == rest && ([a, b] + rest)[1..] == [b] + rest;
    assert Join([b] + rest) == b + "/" + Join(rest);
  }

  lemma KeyStartsWithItsWorkspace(l: Location) returns (rest: string)
    ensures KeyOf(l) == "ws/" + (l.workspace + "/" + rest)
  {
    KeyIsItsSegments(l);
    var after := Segments(l)[2..];
    rest := Join(after);
    assert Segments(l) == ["ws", l.workspace] + after;
    JoinAfterTwo("ws", l.workspace, after);
    assert "ws" + "/" == "ws/";
  }

  lemma FirstSegment(a: string, x: string, b: string, y: string)
    requires Plain(a) && Plain(b) && a + "/" + x == b + "/" + y
    ensures a == b
  {
    SplitSegment(a, x);
    SplitSegment(b, y);
    assert Split(a + "/" + x)[0] == a;
  }

  /** A workspace's prefix holds that workspace's objects and nobody else's. */
  lemma WorkspacePrefixIsExclusive(l: Location, workspace: string)
    requires PlainLocation(l) && Plain(workspace)
    ensures "ws/" + (workspace + "/") <= KeyOf(l) <==> l.workspace == workspace
  {
    var rest := KeyStartsWithItsWorkspace(l);
    var key, prefix := KeyOf(l), "ws/" + (workspace + "/");
    assert l.workspace + "/" + rest == (l.workspace + "/") + rest;
    assert "ws/" + ((l.workspace + "/") + rest) == ("ws/" + (l.workspace + "/")) + rest;
    if prefix <= key {
      var tail := key[|prefix|..];
      assert key == prefix + tail;
      assert prefix + tail == "ws/" + (workspace + "/" + tail);
      assert ("ws/" + (workspace + "/" + tail))[3..] == workspace + "/" + tail;
      assert ("ws/" + (l.workspace + "/" + rest))[3..] == l.workspace + "/" + rest;
      FirstSegment(workspace, tail, l.workspace, rest);
    }
  }

  /** An asset's objects, derivatives included, all lie under that asset's version prefix. */
  lemma DerivativesLieUnderTheirVersion(workspace: string, brand: Option<string>, asset: string, version: nat, kind: string)
    ensures AssetObjectKey(workspace, brand, asset, version) + "/" <= DerivativeObjectKey(workspace, brand, asset, version, kind)
  {
    assert "/derivative-" == "/" + "derivative-";
  }
}
