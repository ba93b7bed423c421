/**
 * From a task to the chain of models that may serve it: through the task's own rule, or through the capability
 * the task needs. Model keys are numbered in the catalogue's collation order.
 */
module Routing {
  import opened Text

  datatype Modality = TextModel | ImageModel | VideoModel | VoiceModel | ModerationModel | EmbeddingModel

  datatype Feature = Vision | StructuredOutput | ToolUse | AudioInput | AudioOutput | Embeddings

  datatype Capability =
    | TextLight | ContentStandard | ReasoningComplex | ImageGeneration | VisionAnalysis | EmbeddingVectors
    | SpeechToText | TextToSpeech | VideoGeneration | ModerationCheck

  function ExecutionModality(c: Capability): Modality {
    match c
    case TextLight => TextModel
    case ContentStandard => TextModel
    case ReasoningComplex => TextModel
    case ImageGeneration => ImageModel
    case VisionAnalysis => TextModel
    case EmbeddingVectors => EmbeddingModel
    case SpeechToText => VoiceModel
    case TextToSpeech => VoiceModel
    case VideoGeneration => VideoModel
    case ModerationCheck => ModerationModel
  }

  function Requires(c: Capability): set<Feature> {
    match c
    case ReasoningComplex => {StructuredOutput}
    case VisionAnalysis => {Vision}
    case EmbeddingVectors => {Embeddings}
    case SpeechToText => {AudioInput}
    case TextToSpeech => {AudioOutput}
    case _ => {}
  }

  function OutputDominatesCost(c: Capability): bool {
    c in {TextLight, ContentStandard, ReasoningComplex, TextToSpeech}
  }

  datatype Task =
    | CaptionGenerate | IdeasGenerate | PlanMonthly | StrategyGenerate | AnalyticsExplain | CopilotChat
    | ContentTranslate | ImageGenerate | VideoGenerate | VoiceSynthesize | ModerationTask | BrandRetrieve

  function CapabilityOf(t: Task): Capability {
    match t
    case CaptionGenerate => ContentStandard
    case IdeasGenerate => TextLight
    case PlanMonthly => ReasoningComplex
    case StrategyGenerate => ReasoningComplex
    case AnalyticsExplain => ReasoningComplex
    case CopilotChat => ContentStandard
    case ContentTranslate => TextLight
    case ImageGenerate => ImageGeneration
    case VideoGenerate => VideoGeneration
    case VoiceSynthesize => TextToSpeech
    case ModerationTask => ModerationCheck
    case BrandRetrieve => EmbeddingVectors
  }

  /** Capability by capability, which tasks need it; each task needs one. */
  lemma TasksOfACapability(t: Task)
    ensures CapabilityOf(t) == ContentStandard <==> t in {CaptionGenerate, CopilotChat}
    ensures CapabilityOf(t) == TextLight <==> t in {IdeasGenerate, ContentTranslate}
    ensures CapabilityOf(t) == ReasoningComplex <==> t in {PlanMonthly, StrategyGenerate, AnalyticsExplain}
    ensures CapabilityOf(t) == ImageGeneration <==> t == ImageGenerate
    ensures CapabilityOf(t) == VideoGeneration <==> t == VideoGenerate
    ensures CapabilityOf(t) == TextToSpeech <==> t == VoiceSynthesize
    ensures CapabilityOf(t) == ModerationCheck <==> t == ModerationTask
    ensures CapabilityOf(t) == EmbeddingVectors <==> t == BrandRetrieve
  {
  }

  /** Modality by modality, and feature by feature, which capabilities want it. */
  lemma WhatCapabilitiesWant(c: Capability)
    ensures ExecutionModality(c) == TextModel <==> c in {TextLight, ContentStandard, ReasoningComplex, VisionAnalysis}
    ensures ExecutionModality(c) == ImageModel <==> c == ImageGeneration
    ensures ExecutionModality(c) == VideoModel <==> c == VideoGeneration
    ensures ExecutionModality(c) == VoiceModel <==> c in {SpeechToText, TextToSpeech}
    ensures ExecutionModality(c) == ModerationModel <==> c == ModerationCheck
    ensures ExecutionModality(c) == EmbeddingModel <==> c == EmbeddingVectors
    ensures (StructuredOutput in Requires(c) <==> c == ReasoningComplex) && (Vision in Requires(c) <==> c == VisionAnalysis)
    ensures (Embeddings in Requires(c) <==> c == EmbeddingVectors) && ToolUse !in Requires(c)
    ensures (AudioInput in Requires(c) <==> c == SpeechToText) && (AudioOutput in Requires(c) <==> c == TextToSpeech)
  {
  }

  /** Declared beside the capability, and meant to agree with it. */
  function ModalityOf(t: Task): (m: Modality)
    ensures m == ExecutionModality(CapabilityOf(t))
  {
    match t
    case ImageGenerate => ImageModel
    case VideoGenerate => VideoModel
    case VoiceSynthesize => VoiceModel
    case ModerationTask => ModerationModel
    case BrandRetrieve => EmbeddingModel
    case _ => TextModel
  }

  predicate MvpApproved(t: Task) {
    t !in {VideoGenerate, VoiceSynthesize}
  }

  datatype Tier = Fast | Balanced | Premium
  datatype Latency = Quick | Standard | Slow

  datatype Model = Model(key: nat, modality: Modality, tier: Tier, disabled: bool, killed: bool, capabilities: set<Capability>,
                         features: set<Feature>, latency: Option<Latency>, inputPrice: Option<nat>, outputPrice: Option<nat>,
                         imagePrice: Option<nat>)

  predicate Usable(m: Model) {
    !m.killed && !m.disabled
  }

  predicate DistinctKeys(models: seq<Model>) {
    forall i, j :: 0 <= i < j < |models| ==> models[i].key != models[j].key
  }

  datatype RuleScope = Global | Plan | Workspace

  datatype Rule = Rule(task: Task, scope: RuleScope, workspace: Option<int>, plan: Option<int>, priority: int,
                       primary: nat, fallbacks: seq<nat>)

  datatype Query = Query(task: Option<Task>, workspace: int, plan: Option<int>)

  datatype Reason =
    | UnknownTask | NotInMvpScope | NoRule | NoUsableModel | ModalityMismatch | CapabilityDisabled | CapabilityUnsatisfied

  datatype Route = ByTask(rule: nat, chain: seq<nat>) | ByCapability(chain: seq<nat>) | Refused(reason: Reason)

  // --- The task's own rule --------------------------------------------------------------------------------

  /** A workspace or plan rule without its workspace or plan never matches. */
  predicate Applies(r: Rule, q: Query) {
    && q.task == Some(r.task)
    && match r.scope
       case Workspace => r.workspace == Some(q.workspace)
       case Plan => r.plan.Some? && r.plan == q.plan
       case Global => true
  }

  /** A rule speaks for its own task only, and for one workspace or one plan only when it names them. */
  lemma AppliesExactly(r: Rule, q: Query)
    ensures Applies(r, q) ==> q.task == Some(r.task)
    ensures r.scope == Global ==> (Applies(r, q) <==> q.task == Some(r.task))
    ensures r.scope == Workspace ==> (Applies(r, q) <==> q.task == Some(r.task) && r.workspace == Some(q.workspace))
    ensures r.scope == Plan ==> (Applies(r, q) <==> q.task == Some(r.task) && r.plan.Some? && q.plan.Some? && r.plan.value == q.plan.value)
  {
  }

  function ScopeRank(s: RuleScope): nat {
    match s
    case Workspace => 3
    case Plan => 2
    case Global => 1
  }

  /** A rule for the workspace beats one for its plan, and that one a global rule, whatever their priorities. */
  lemma SpecificScopeWins(a: Rule, b: Rule)
    ensures a.scope == Workspace && b.scope != Workspace ==> Outranks(a, b) && !Outranks(b, a)
    ensures a.scope == Plan && b.scope == Global ==> Outranks(a, b) && !Outranks(b, a)
    ensures a.scope == b.scope ==> (Outranks(a, b) <==> a.priority > b.priority)
  {
  }

  /** The more specific scope wins outright, then the priority. */
  predicate Outranks(a: Rule, b: Rule) {
    || ScopeRank(a.scope) > ScopeRank(b.scope)
    || (a.scope == b.scope && a.priority > b.priority)
  }

  /** The lexicographic maximum of (scope, priority, earliest position) among the rules that apply. */
  function Winner(rules: seq<Rule>, q: Query): (w: Option<nat>)
    ensures w.None? <==> forall i :: 0 <= i < |rules| ==> !Applies(rules[i], q)
    ensures w.Some? ==> w.value < |rules| && Applies(rules[w.value], q)
    ensures w.Some? ==> forall i :: 0 <= i < |rules| && i != w.value && Applies(rules[i], q) ==>
              !Outranks(rules[i], rules[w.value]) && (i < w.value ==> Outranks(rules[w.value], rules[i]))
  {
    if rules == [] then None
    else
      var n := |rules| - 1;
      var front := rules[..n];
      var w := Winner(front, q);
      assert forall i :: 0 <= i < n ==> front[i] == rules[i];
      if Applies(rules[n], q) && (w.None? || Outranks(rules[n], rules[w.value])) then Some(n) else w
  }

  /** The registry is a map: of two entries with one key the later is the one there. */
  function Lookup(models: seq<Model>, key: nat): (m: Option<Model>)
    ensures m.Some? ==> m.value in models && m.value.key == key
    ensures m.None? <==> forall i :: 0 <= i < |models| ==> models[i].key != key
  {
    if models == [] then None
    else if models[|models| - 1].key == key then Some(models[|models| - 1])
    else Lookup(models[..|models| - 1], key)
  }

  predicate Live(models: seq<Model>, key: nat, modality: Modality) {
    var m := Lookup(models, key);
    m.Some? && Usable(m.value) && m.value.modality == modality
  }

  predicate NoRepeats(keys: seq<nat>) {
    forall i, j :: 0 <= i < j < |keys| ==> keys[i] != keys[j]
  }

  /** Which positions of the declared list make up the chain: first mentions of live models, in order. */
  ghost predicate Selects(declared: seq<nat>, models: seq<Model>, modality: Modality, chain: seq<nat>, at: seq<nat>) {
    && |at| == |chain|
    && (forall i :: 0 <= i < |at| ==> at[i] < |declared| && declared[at[i]] == chain[i])
    && (forall i, j :: 0 <= i < j < |at| ==> at[i] < at[j])
    && (forall i :: 0 <= i < |chain| ==> Live(models, chain[i], modality))
    && NoRepeats(chain)
    && (forall k :: k in declared && Live(models, k, modality) ==> k in chain)
  }

  /** Live, but of another modality than the task's. */
  predicate WrongModality(models: seq<Model>, key: nat, modality: Modality) {
    var m := Lookup(models, key);
    m.Some? && Usable(m.value) && m.value.modality != modality
  }

  lemma SelectsPast(declared: seq<nat>, i: nat, models: seq<Model>, modality: Modality, chain: seq<nat>, at: seq<nat>)
    requires i < |declared| && Selects(declared[..i], models, modality, chain, at)
    requires declared[i] in chain || !Live(models, declared[i], modality)
    ensures Selects(declared[..i + 1], models, modality, chain, at)
  {
    assert declared[..i + 1] == declared[..i] + [declared[i]];
  }

  lemma SelectsOneMore(declared: seq<nat>, i: nat, models: seq<Model>, modality: Modality, chain: seq<nat>, at: seq<nat>)
    requires i < |declared| && Selects(declared[..i], models, modality, chain, at)
    requires declared[i] !in chain && Live(models, declared[i], modality)
    ensures Selects(declared[..i + 1], models, modality, chain + [declared[i]], at + [i])
  {
    assert declared[..i + 1] == declared[..i] + [declared[i]];
    assert forall k :: 0 <= k < |at| ==> at[k] < i;
  }

  /** The declared models, each once, without those the registry refuses. */
  method BuildChain(declared: seq<nat>, models: seq<Model>, modality: Modality)
    returns (chain: seq<nat>, excluded: seq<nat>, mismatch: bool, ghost at: seq<nat>)
    ensures Selects(declared, models, modality, chain, at)
    ensures forall k :: k in excluded <==> k in declared && !Live(models, k, modality)
    ensures mismatch <==> exists k :: k in declared && WrongModality(models, k, modality)
  {
    chain, excluded, mismatch, at := [], [], false, [];
    for i := 0 to |declared|
      invariant Selects(declared[..i], models, modality, chain, at)
      invariant forall k :: k in excluded <==> k in declared[..i] && !Live(models, k, modality)
      invariant mismatch <==> exists k :: k in declared[..i] && WrongModality(models, k, modality)
    {
      var key := declared[i];
      assert declared[..i + 1] == declared[..i] + [key];
      if key !in chain && key !in excluded {
        var model := Lookup(models, key);
        if model.None? || !Usable(model.value) {
          SelectsPast(declared, i, models, modality, chain, at);
          excluded := excluded + [key];
        } else if model.value.modality != modality {
          SelectsPast(declared, i, models, modality, chain, at);
          assert key in declared[..i + 1] && WrongModality(models, key, modality);
          mismatch := true;
          excluded := excluded + [key];
        } else {
          SelectsOneMore(declared, i, models, modality, chain, at);
          chain, at := chain + [key], at + [i];
        }
      } else {
        SelectsPast(declared, i, models, modality, chain, at);
      }
    }
    assert declared[..|declared|] == declared;
  }

  // --- The capability ---------------------------------------------------------------------------------------

  datatype Profile = Economy | BalancedProfile | PremiumProfile | Custom
  datatype Preference = Fastest | NoPreference | Cheapest

  datatype CapabilityRoute = CapabilityRoute(capability: Capability, enabled: bool, primary: Option<nat>, fallbacks: seq<nat>,
                                             minimum: Option<Tier>, preference: Preference)

  datatype CapabilityRouting = CapabilityRouting(profile: Profile, routes: seq<CapabilityRoute>)

  function QualityRank(t: Tier): nat {
    match t
    case Premium => 3
    case Balanced => 2
    case Fast => 1
  }

  function LatencyRank(m: Model): nat {
    match m.latency
    case Some(Quick) => 3
    case Some(Slow) => 1
    case _ => 2
  }

  const UNPRICED := 9_007_199_254_740_991

  function UnitPrice(m: Model, c: Capability): nat {
    if ExecutionModality(c) == ImageModel then
      if m.imagePrice.Some? then m.imagePrice.value else UNPRICED
    else if m.inputPrice.None? || m.outputPrice.None? then UNPRICED
    else if OutputDominatesCost(c) then m.inputPrice.value + m.outputPrice.value * 3
    else m.inputPrice.value * 3 + m.outputPrice.value
  }

  /** Features a capability requires that the model does not declare; absent on another modality. */
  function MissingFeatures(c: Capability, m: Model): Option<set<Feature>> {
    if m.modality != ExecutionModality(c) then None else Some(Requires(c) - m.features)
  }

  /** Both the operator's declaration and the model's own features, on a live model. */
  predicate MayServe(c: Capability, m: Model) {
    Usable(m) && c in m.capabilities && MissingFeatures(c, m) == Some({})
  }

  predicate MeetsFloor(m: Model, floor: Option<Tier>) {
    floor.Some? ==> QualityRank(m.tier) >= QualityRank(floor.value)
  }

  function Admissible(models: seq<Model>, c: Capability, floor: Option<Tier>): (r: seq<Model>)
    ensures forall m :: m in r <==> m in models && MayServe(c, m) && MeetsFloor(m, floor)
    ensures DistinctKeys(models) ==> DistinctKeys(r)
  {
    if models == [] then []
    else
      var front, last := models[..|models| - 1], models[|models| - 1];
      assert forall m :: m in models <==> m in front || m == last;
      var r := Admissible(front, c, floor);
      assert forall i :: 0 <= i < |r| ==> r[i] in front;
      if MayServe(c, last) && MeetsFloor(last, floor) then r + [last] else r
  }

  /** A model's place under a profile and a latency preference, smallest first; the key breaks every tie. */
  datatype Rank = Rank(preferred: int, first: int, second: int, third: int, key: nat)

  function RankOf(m: Model, p: Profile, c: Capability, pref: Preference): Rank {
    var price, quality: int := UnitPrice(m, c), 0 - QualityRank(m.tier);
    var preferred: int := match pref case Fastest => 0 - LatencyRank(m) case Cheapest => price case NoPreference => 0;
    match p
    case Economy => Rank(preferred, price, quality, 0, m.key)
    case PremiumProfile => Rank(preferred, quality, price, 0, m.key)
    case BalancedProfile =>
      if Requires(c) != {} then Rank(preferred, quality, price, quality, m.key) else Rank(preferred, price, quality, 0, m.key)
    case Custom => Rank(preferred, 0, 0, 0, m.key)
  }

  predicate Before(a: Rank, b: Rank) {
    || a.preferred < b.preferred
    || (a.preferred == b.preferred && (
        || a.first < b.first
        || (a.first == b.first && (
            || a.second < b.second
            || (a.second == b.second && (a.third < b.third || (a.third == b.third && a.key < b.key)))))))
  }

  function Insert(m: Model, sorted: seq<Model>, p: Profile, c: Capability, pref: Preference): (r: seq<Model>)
    ensures multiset(r) == multiset(sorted) + multiset{m}
  {
    if sorted == [] || Before(RankOf(m, p, c, pref), RankOf(sorted[0], p, c, pref)) then
      assert [m] + sorted == [m] + sorted;
      [m] + sorted
    else
      assert sorted == [sorted[0]] + sorted[1..];
      [sorted[0]] + Insert(m, sorted[1..], p, c, pref)
  }

  function RankForProfile(models: seq<Model>, p: Profile, c: Capability, pref: Preference): (r: seq<Model>)
    ensures multiset(r) == multiset(models)
  {
    if models == [] then []
    else
      assert models == models[..|models| - 1] + [models[|models| - 1]];
      Insert(models[|models| - 1], RankForProfile(models[..|models| - 1], p, c, pref), p, c, pref)
  }

  ghost predicate Ranked(q: seq<Model>, p: Profile, c: Capability, pref: Preference) {
    forall i, j :: 0 <= i < j < |q| ==> Before(RankOf(q[i], p, c, pref), RankOf(q[j], p, c, pref))
  }

  lemma BeforeIsTransitive(a: Rank, b: Rank, c: Rank)
    requires Before(a, b) && Before(b, c)
    ensures Before(a, c)
  {
  }

  lemma Prepend(m: Model, q: seq<Model>, p: Profile, c: Capability, pref: Preference)
    requires Ranked(q, p, c, pref)
    requires forall i :: 0 <= i < |q| ==> Before(RankOf(m, p, c, pref), RankOf(q[i], p, c, pref))
    ensures Ranked([m] + q, p, c, pref)
  {
  }

  lemma {:induction false} InsertKeepsOrder(m: Model, q: seq<Model>, p: Profile, c: Capability, pref: Preference)
    requires Ranked(q, p, c, pref) && forall i :: 0 <= i < |q| ==> q[i].key != m.key
    ensures Ranked(Insert(m, q, p, c, pref), p, c, pref)
  {
    if q != [] && !Before(RankOf(m, p, c, pref), RankOf(q[0], p, c, pref)) {
      InsertKeepsOrder(m, q[1..], p, c, pref);
      var rest := Insert(m, q[1..], p, c, pref);
      forall i | 0 <= i < |rest|
        ensures Before(RankOf(q[0], p, c, pref), RankOf(rest[i], p, c, pref))
      {
        assert rest[i] in multiset(rest);
        if rest[i] != m {
          assert rest[i] in q[1..];
          var j :| 0 <= j < |q[1..]| && q[1..][j] == rest[i];
          assert q[j + 1] == rest[i];
        }
      }
      Prepend(q[0], rest, p, c, pref);
    } else if q != [] {
      forall i | 0 <= i < |q|
        ensures Before(RankOf(m, p, c, pref), RankOf(q[i], p, c, pref))
      {
        if 0 < i {
          BeforeIsTransitive(RankOf(m, p, c, pref), RankOf(q[0], p, c, pref), RankOf(q[i], p, c, pref));
        }
      }
      Prepend(m, q, p, c, pref);
    }
  }

  lemma {:induction false} RankingIsOrdered(models: seq<Model>, p: Profile, c: Capability, pref: Preference)
    requires DistinctKeys(models)
    ensures Ranked(RankForProfile(models, p, c, pref), p, c, pref)
  {
    if models != [] {
      var front, last := models[..|models| - 1], models[|models| - 1];
      RankingIsOrdered(front, p, c, pref);
      var q := RankForProfile(front, p, c, pref);
      forall i | 0 <= i < |q|
        ensures q[i].key != last.key
      {
        assert q[i] in multiset(q);
        assert q[i] in front;
      }
      InsertKeepsOrder(last, q, p, c, pref);
    }
  }

  lemma HeadIsFirst(a: seq<Model>, m: Model, p: Profile, c: Capability, pref: Preference)
    requires Ranked(a, p, c, pref) && m in a
    ensures m == a[0] || Before(RankOf(a[0], p, c, pref), RankOf(m, p, c, pref))
  {
    var i :| 0 <= i < |a| && a[i] == m;
  }

  lemma SameHead(a: seq<Model>, b: seq<Model>, p: Profile, c: Capability, pref: Preference)
    requires Ranked(a, p, c, pref) && Ranked(b, p, c, pref) && multiset(a) == multiset(b) && a != [] && b != []
    ensures a[0] == b[0]
  {
    assert a[0] in multiset(b) && b[0] in multiset(a);
    HeadIsFirst(a, b[0], p, c, pref);
    HeadIsFirst(b, a[0], p, c, pref);
  }

  lemma TailsHoldTheSame(a: seq<Model>, b: seq<Model>)
    requires multiset(a) == multiset(b) && a != [] && b != [] && a[0] == b[0]
    ensures multiset(a[1..]) == multiset(b[1..])
  {
    assert a == [a[0]] + a[1..] && b == [b[0]] + b[1..];
    assert multiset(a[1..]) == multiset(a) - multiset{a[0]};
    assert multiset(b[1..]) == multiset(b) - multiset{b[0]};
  }

  lemma SameSize(a: seq<Model>, b: seq<Model>)
    requires multiset(a) == multiset(b)
    ensures |a| == |b|
  {
    assert |a| == |multiset(a)| && |b| == |multiset(b)|;
  }

  /** A ranking is determined by which models it ranks. */
  lemma {:induction false} RankingIsUnique(a: seq<Model>, b: seq<Model>, p: Profile, c: Capability, pref: Preference)
    requires Ranked(a, p, c, pref) && Ranked(b, p, c, pref) && multiset(a) == multiset(b)
    ensures a == b
    decreases |a|
  {
    SameSize(a, b);
    if a != [] {
      SameHead(a, b, p, c, pref);
      TailsHoldTheSame(a, b);
      RankingIsUnique(a[1..], b[1..], p, c, pref);
      assert a == [a[0]] + a[1..] && b == [b[0]] + b[1..];
    }
  }

  lemma {:induction false} AdmissibleCounts(models: seq<Model>, c: Capability, floor: Option<Tier>, m: Model)
    ensures multiset(Admissible(models, c, floor))[m]
         == if MayServe(c, m) && MeetsFloor(m, floor) then multiset(models)[m] else 0
  {
    if models != [] {
      var front, last := models[..|models| - 1], models[|models| - 1];
      assert models == front + [last];
      AdmissibleCounts(front, c, floor, m);
    }
  }

  function Keys(models: seq<Model>): (keys: seq<nat>)
    ensures |keys| == |models|
    ensures forall i :: 0 <= i < |models| ==> keys[i] == models[i].key
  {
    seq(|models|, i requires 0 <= i < |models| => models[i].key)
  }

  /** Under a ranking profile: the best three. */
  function RankedChain(models: seq<Model>, p: Profile, c: Capability, floor: Option<Tier>, pref: Preference): seq<nat> {
    var ranked := RankForProfile(Admissible(models, c, floor), p, c, pref);
    Keys(ranked[..if |ranked| < 3 then |ranked| else 3])
  }

  /** The order in which the operator entered the catalogue makes no difference. */
  lemma CatalogueOrderIsIrrelevant(a: seq<Model>, b: seq<Model>, p: Profile, c: Capability, floor: Option<Tier>, pref: Preference)
    requires multiset(a) == multiset(b) && DistinctKeys(a) && DistinctKeys(b)
    ensures RankedChain(a, p, c, floor, pref) == RankedChain(b, p, c, floor, pref)
  {
    var x, y := Admissible(a, c, floor), Admissible(b, c, floor);
    forall m
      ensures multiset(x)[m] == multiset(y)[m]
    {
      AdmissibleCounts(a, c, floor, m);
      AdmissibleCounts(b, c, floor, m);
    }
    assert multiset(x) == multiset(y);
    RankingIsOrdered(x, p, c, pref);
    RankingIsOrdered(y, p, c, pref);
    RankingIsUnique(RankForProfile(x, p, c, pref), RankForProfile(y, p, c, pref), p, c, pref);
  }

  lemma LaterThanTheChain(r: seq<Model>, n: nat, m: Model, p: Profile, c: Capability, pref: Preference, i: nat)
    requires Ranked(r, p, c, pref) && m in r && i < n <= |r|
    requires forall k :: 0 <= k < n ==> r[k].key != m.key
    ensures Before(RankOf(r[i], p, c, pref), RankOf(m, p, c, pref))
  {
    var j :| 0 <= j < |r| && r[j] == m;
  }

  /** Nothing in the chain can be bettered by an admissible model left out of it. */
  lemma ChainIsTheBest(models: seq<Model>, p: Profile, c: Capability, floor: Option<Tier>, pref: Preference, m: Model, i: nat)
    requires DistinctKeys(models) && m in Admissible(models, c, floor)
    requires i < |RankedChain(models, p, c, floor, pref)| && m.key !in RankedChain(models, p, c, floor, pref)
    ensures var best := RankForProfile(Admissible(models, c, floor), p, c, pref)[i];
            best.key == RankedChain(models, p, c, floor, pref)[i] && Before(RankOf(best, p, c, pref), RankOf(m, p, c, pref))
  {
    var x, chain := Admissible(models, c, floor), RankedChain(models, p, c, floor, pref);
    var r := RankForProfile(x, p, c, pref);
    RankingIsOrdered(x, p, c, pref);
    assert m in multiset(r);
    forall k | 0 <= k < |chain|
      ensures r[k].key != m.key
    {
      assert chain[k] in chain && chain[k] == r[k].key;
    }
    LaterThanTheChain(r, |chain|, m, p, c, pref, i);
  }

  /** How much sooner, or better, and at which price: what an operator means by the words. */
  lemma TiersAndLatencies(m: Model, n: Model)
    ensures QualityRank(m.tier) >= QualityRank(n.tier) <==> m.tier == Premium || n.tier == Fast || m.tier == n.tier
    ensures LatencyRank(m) >= LatencyRank(n) <==>
              m.latency == Some(Quick) || n.latency == Some(Slow) || (m.latency != Some(Slow) && n.latency != Some(Quick))
  {
  }

  /**
   * Where the output dominates the cost a step in the output rate weighs three steps in the input rate, elsewhere the
   * other way round; an image is its own price; and what has no price comes behind every price there is.
   */
  lemma PricesWeigh(m: Model, c: Capability, input: nat, output: nat, image: nat)
    ensures ExecutionModality(c) == ImageModel ==> UnitPrice(m.(imagePrice := Some(image)), c) == image
    ensures ExecutionModality(c) == ImageModel && m.imagePrice.None? ==> UnitPrice(m, c) == UNPRICED
    ensures ExecutionModality(c) != ImageModel && (m.inputPrice.None? || m.outputPrice.None?) ==> UnitPrice(m, c) == UNPRICED
    ensures ExecutionModality(c) != ImageModel ==>
              var price := UnitPrice(m.(inputPrice := Some(input), outputPrice := Some(output)), c);
              && (c in {TextLight, ContentStandard, ReasoningComplex, TextToSpeech} ==> price == input + output + output + output)
              && (c !in {TextLight, ContentStandard, ReasoningComplex, TextToSpeech} ==> price == input + input + input + output)
  {
  }

  /** Neither is preferred to the other before the profile is asked. */
  predicate EquallyPreferred(a: Model, b: Model, c: Capability, pref: Preference) {
    && (pref == Cheapest ==> UnitPrice(a, c) == UnitPrice(b, c))
    && (pref == Fastest ==> LatencyRank(a) == LatencyRank(b))
  }

  /** Cheaper, or no dearer and no worse. */
  predicate PriceFirst(a: Model, b: Model, c: Capability) {
    UnitPrice(a, c) < UnitPrice(b, c) || (UnitPrice(a, c) == UnitPrice(b, c) && QualityRank(a.tier) >= QualityRank(b.tier))
  }

  /** Better, or no worse and no dearer. */
  predicate QualityFirst(a: Model, b: Model, c: Capability) {
    QualityRank(a.tier) > QualityRank(b.tier) || (a.tier == b.tier && UnitPrice(a, c) <= UnitPrice(b, c))
  }

  /** What the words of the policy promise of a model ranked before another. */
  ghost predicate NoneBetter(best: Model, m: Model, p: Profile, c: Capability, pref: Preference) {
    && (pref == Cheapest ==> UnitPrice(best, c) <= UnitPrice(m, c))
    && (pref == Fastest ==> LatencyRank(best) >= LatencyRank(m))
    && (EquallyPreferred(best, m, c, pref) ==>
          && (p == Economy || (p == BalancedProfile && Requires(c) == {}) ==> PriceFirst(best, m, c))
          && (p == PremiumProfile || (p == BalancedProfile && Requires(c) != {}) ==> QualityFirst(best, m, c)))
  }

  lemma BeforeIsBetter(best: Model, m: Model, p: Profile, c: Capability, pref: Preference)
    requires Before(RankOf(best, p, c, pref), RankOf(m, p, c, pref))
    ensures NoneBetter(best, m, p, c, pref)
  {
  }

  /**
   * Of the models left out of a chain none is cheaper where the cheapest was preferred, and none quicker where the
   * fastest was; where that does not decide, none is cheaper under Economy, none of higher quality under Premium, and
   * Balanced asks for quality exactly where the capability requires features.
   */
  lemma ProfileDecides(models: seq<Model>, p: Profile, c: Capability, floor: Option<Tier>, pref: Preference, m: Model, i: nat)
    requires DistinctKeys(models) && m in Admissible(models, c, floor)
    requires i < |RankedChain(models, p, c, floor, pref)| && m.key !in RankedChain(models, p, c, floor, pref)
    ensures var best := RankForProfile(Admissible(models, c, floor), p, c, pref)[i];
            best in models && best.key == RankedChain(models, p, c, floor, pref)[i] && NoneBetter(best, m, p, c, pref)
  {
    ChainIsTheBest(models, p, c, floor, pref, m, i);
    var x := Admissible(models, c, floor);
    var r := RankForProfile(x, p, c, pref);
    assert r[i] in multiset(r);
    assert r[i] in x;
    BeforeIsBetter(r[i], m, p, c, pref);
  }

  /** Three of them, or all there are. */
  lemma ChainLength(models: seq<Model>, p: Profile, c: Capability, floor: Option<Tier>, pref: Preference)
    ensures |RankedChain(models, p, c, floor, pref)|
         == if |Admissible(models, c, floor)| < 3 then |Admissible(models, c, floor)| else 3
  {
    SameSize(RankForProfile(Admissible(models, c, floor), p, c, pref), Admissible(models, c, floor));
  }

  /** A model may serve when nobody switched it off, its operator declared it and it has the modality and the features. */
  lemma MayServeExactly(c: Capability, m: Model)
    ensures MayServe(c, m) <==> !m.killed && !m.disabled && c in m.capabilities && m.modality == ExecutionModality(c) && Requires(c) <= m.features
    ensures Requires(c) == {} || exists f :: Requires(c) == {f}
  {
    if Requires(c) - m.features == {} {
      forall f | f in Requires(c)
        ensures f in m.features
      {
        assert f !in Requires(c) - m.features;
      }
    }
    match c
    case ReasoningComplex => assert Requires(c) == {StructuredOutput};
    case VisionAnalysis => assert Requires(c) == {Vision};
    case EmbeddingVectors => assert Requires(c) == {Embeddings};
    case SpeechToText => assert Requires(c) == {AudioInput};
    case TextToSpeech => assert Requires(c) == {AudioOutput};
    case _ =>
  }

  function FindRoute(routes: seq<CapabilityRoute>, c: Capability): (r: Option<CapabilityRoute>)
    ensures r.Some? ==> r.value in routes && r.value.capability == c
    ensures r.None? <==> forall i :: 0 <= i < |routes| ==> routes[i].capability != c
  {
    if routes == [] then None
    else if routes[0].capability == c then Some(routes[0])
    else FindRoute(routes[1..], c)
  }

  /** A live, declared, satisfying, good enough model of the catalogue has this key. */
  ghost predicate Serves(models: seq<Model>, key: nat, c: Capability, floor: Option<Tier>) {
    exists m :: m in models && m.key == key && MayServe(c, m) && MeetsFloor(m, floor)
  }

  /** Which positions of the declared list make up the chain: the first mentions of the models that may serve, in order. */
  ghost predicate KeepsOrder(declared: seq<nat>, chain: seq<nat>, at: seq<nat>) {
    && |at| == |chain|
    && (forall i :: 0 <= i < |at| ==> at[i] < |declared| && declared[at[i]] == chain[i] && declared[at[i]] !in declared[..at[i]])
    && (forall i, j :: 0 <= i < j < |at| ==> at[i] < at[j])
  }

  lemma KeepsOrderNext(declared: seq<nat>, i: nat, chain: seq<nat>, at: seq<nat>)
    requires i < |declared| && KeepsOrder(declared[..i], chain, at)
    ensures KeepsOrder(declared[..i + 1], chain, at)
    ensures declared[i] !in declared[..i] ==> KeepsOrder(declared[..i + 1], chain + [declared[i]], at + [i])
  {
    var more := declared[..i + 1];
    assert more == declared[..i] + [declared[i]];
    assert more[..i] == declared[..i];
    forall k | 0 <= k < |at|
      ensures at[k] < i && more[..at[k]] == declared[..i][..at[k]]
    {
    }
  }

  /** An explicit route, without the named models that may not serve. */
  method ExplicitChain(declared: seq<nat>, admissible: seq<Model>) returns (chain: seq<nat>, ghost at: seq<nat>)
    ensures NoRepeats(chain) && KeepsOrder(declared, chain, at)
    ensures forall k :: k in chain <==> k in declared && exists m :: m in admissible && m.key == k
  {
    chain, at := [], [];
    for i := 0 to |declared|
      invariant NoRepeats(chain) && KeepsOrder(declared[..i], chain, at)
      invariant forall k :: k in chain <==> k in declared[..i] && exists m :: m in admissible && m.key == k
    {
      assert declared[..i + 1] == declared[..i] + [declared[i]];
      KeepsOrderNext(declared, i, chain, at);
      if declared[i] !in chain && Lookup(admissible, declared[i]).Some? {
        chain, at := chain + [declared[i]], at + [i];
      }
    }
    assert declared[..|declared|] == declared;
  }

  function Declared(route: Option<CapabilityRoute>): seq<nat> {
    if route.None? then [] else (if route.value.primary.Some? then [route.value.primary.value] else []) + route.value.fallbacks
  }

  function Floor(route: Option<CapabilityRoute>): Option<Tier> {
    if route.None? then None else route.value.minimum
  }

  lemma RankedMembersServe(models: seq<Model>, p: Profile, c: Capability, floor: Option<Tier>, pref: Preference)
    ensures var chain := RankedChain(models, p, c, floor, pref);
            && (forall i :: 0 <= i < |chain| ==> Serves(models, chain[i], c, floor))
            && (DistinctKeys(models) ==> NoRepeats(chain))
            && (chain == [] <==> forall m :: m in models ==> !MayServe(c, m) || !MeetsFloor(m, floor))
  {
    var x := Admissible(models, c, floor);
    var r := RankForProfile(x, p, c, pref);
    var chain := RankedChain(models, p, c, floor, pref);
    assert |r| == |multiset(r)| == |multiset(x)| == |x|;
    forall i | 0 <= i < |chain|
      ensures Serves(models, chain[i], c, floor)
    {
      assert r[i] in multiset(r);
      assert r[i] in x && r[i].key == chain[i];
    }
    if DistinctKeys(models) {
      RankingIsOrdered(x, p, c, pref);
      RankedKeysDiffer(r, x, p, c, pref);
    }
    if x != [] {
      assert x[0] in x;
    }
  }

  lemma RankedKeysDiffer(r: seq<Model>, x: seq<Model>, p: Profile, c: Capability, pref: Preference)
    requires Ranked(r, p, c, pref) && multiset(r) == multiset(x) && DistinctKeys(x)
    ensures DistinctKeys(r)
  {
    forall i, j | 0 <= i < j < |r|
      ensures r[i].key != r[j].key
    {
      assert r[i] in multiset(r) && r[j] in multiset(r);
      var a :| 0 <= a < |x| && x[a] == r[i];
      var b :| 0 <= b < |x| && x[b] == r[j];
      assert Before(RankOf(r[i], p, c, pref), RankOf(r[j], p, c, pref));
      assert a != b;
    }
  }

  lemma AdmissibleServes(models: seq<Model>, c: Capability, floor: Option<Tier>, key: nat)
    ensures (exists m :: m in Admissible(models, c, floor) && m.key == key) <==> Serves(models, key, c, floor)
  {
  }

  /** An explicit route's members are exactly the named models that may serve, each once. */
  method ExplicitRoute(route: Option<CapabilityRoute>, c: Capability, models: seq<Model>) returns (chain: seq<nat>, ghost at: seq<nat>)
    ensures NoRepeats(chain) && KeepsOrder(Declared(route), chain, at)
    ensures forall k :: k in chain <==> k in Declared(route) && Serves(models, k, c, Floor(route))
  {
    var admissible := Admissible(models, c, Floor(route));
    chain, at := ExplicitChain(Declared(route), admissible);
    forall k
      ensures (exists m :: m in admissible && m.key == k) <==> Serves(models, k, c, Floor(route))
    {
      AdmissibleServes(models, c, Floor(route), k);
    }
  }

  predicate IsExplicit(routing: CapabilityRouting, route: Option<CapabilityRoute>) {
    routing.profile == Custom || (route.Some? && route.value.primary.Some?)
  }

  function PreferenceOf(route: Option<CapabilityRoute>): Preference {
    if route.None? then NoPreference else route.value.preference
  }

  /** What a chain resolved through the capability holds. */
  ghost predicate CapabilityChain(models: seq<Model>, routing: CapabilityRouting, route: Option<CapabilityRoute>, c: Capability, chain: seq<nat>) {
    && chain != [] && (forall i :: 0 <= i < |chain| ==> Serves(models, chain[i], c, Floor(route)))
    && (DistinctKeys(models) ==> NoRepeats(chain))
    && if IsExplicit(routing, route) then
         (forall k :: k in chain <==> k in Declared(route) && Serves(models, k, c, Floor(route)))
         && exists at :: KeepsOrder(Declared(route), chain, at)
       else chain == RankedChain(models, routing.profile, c, Floor(route), PreferenceOf(route))
  }

  /** Nothing there that could serve: none of the models an explicit route names, or none of the catalogue. */
  ghost predicate NothingServes(models: seq<Model>, routing: CapabilityRouting, route: Option<CapabilityRoute>, c: Capability) {
    if IsExplicit(routing, route) then forall k :: k in Declared(route) ==> !Serves(models, k, c, Floor(route))
    else forall m :: m in models ==> !MayServe(c, m) || !MeetsFloor(m, Floor(route))
  }

  /** No rule for the task: what serves its capability, or a refusal with a reason of its own. */
  method ResolveCapabilityRoute(task: Task, routing: CapabilityRouting, models: seq<Model>) returns (r: Route)
    ensures r.ByCapability? || r == Refused(CapabilityDisabled) || r == Refused(CapabilityUnsatisfied)
    ensures var route := FindRoute(routing.routes, CapabilityOf(task));
            && (r == Refused(CapabilityDisabled) <==> route.Some? && !route.value.enabled)
            && (r == Refused(CapabilityUnsatisfied) <==>
                  !(route.Some? && !route.value.enabled) && NothingServes(models, routing, route, CapabilityOf(task)))
            && (r.ByCapability? ==> CapabilityChain(models, routing, route, CapabilityOf(task), r.chain))
  {
    var c := CapabilityOf(task);
    var route := FindRoute(routing.routes, c);
    if route.Some? && !route.value.enabled {
      return Refused(CapabilityDisabled);
    }
    var chain;
    if IsExplicit(routing, route) {
      ghost var at;
      chain, at := ExplicitRoute(route, c, models);
      forall i | 0 <= i < |chain|
        ensures Serves(models, chain[i], c, Floor(route))
      {
        assert chain[i] in chain;
      }
      if chain == [] {
        assert forall k :: k in Declared(route) && Serves(models, k, c, Floor(route)) ==> k in chain;
      } else {
        assert chain[0] in chain;
      }
    } else {
      chain := RankedChain(models, routing.profile, c, Floor(route), PreferenceOf(route));
      RankedMembersServe(models, routing.profile, c, Floor(route), PreferenceOf(route));
    }
    if chain == [] {
      return Refused(CapabilityUnsatisfied);
    }
    return ByCapability(chain);
  }

  // --- Resolution -----------------------------------------------------------------------------------------

  ghost predicate RightModel(models: seq<Model>, task: Task, key: nat) {
    exists m :: m in models && m.key == key && Usable(m) && m.modality == ModalityOf(task)
  }

  /** What every resolved chain holds, whichever layer answered: live models of the task's modality, and some. */
  ghost predicate RightChain(models: seq<Model>, task: Task, chain: seq<nat>) {
    chain != [] && forall i :: 0 <= i < |chain| ==> RightModel(models, task, chain[i])
  }

  lemma ServingModelIsRight(models: seq<Model>, task: Task, key: nat, floor: Option<Tier>)
    requires Serves(models, key, CapabilityOf(task), floor)
    ensures RightModel(models, task, key)
  {
    var m :| m in models && m.key == key && MayServe(CapabilityOf(task), m) && MeetsFloor(m, floor);
    assert Usable(m) && m.modality == ModalityOf(task);
  }

  lemma LiveModelIsRight(models: seq<Model>, task: Task, key: nat)
    requires Live(models, key, ModalityOf(task))
    ensures RightModel(models, task, key)
  {
    var m := Lookup(models, key).value;
    assert m in models && m.key == key;
  }

  lemma ServingIsRight(models: seq<Model>, task: Task, chain: seq<nat>, floor: Option<Tier>)
    requires chain != [] && forall i :: 0 <= i < |chain| ==> Serves(models, chain[i], CapabilityOf(task), floor)
    ensures RightChain(models, task, chain)
  {
    forall i | 0 <= i < |chain|
      ensures RightModel(models, task, chain[i])
    {
      ServingModelIsRight(models, task, chain[i], floor);
    }
  }

  lemma LiveIsRight(models: seq<Model>, task: Task, chain: seq<nat>)
    requires chain != [] && forall i :: 0 <= i < |chain| ==> Live(models, chain[i], ModalityOf(task))
    ensures RightChain(models, task, chain)
  {
    forall i | 0 <= i < |chain|
      ensures RightModel(models, task, chain[i])
    {
      LiveModelIsRight(models, task, chain[i]);
    }
  }

  /** The models a rule names, in the order they are tried. */
  function Named(r: Rule): seq<nat> {
    [r.primary] + r.fallbacks
  }

  /** The task is known and approved, so the rules are asked. */
  predicate Asked(q: Query) {
    q.task.Some? && MvpApproved(q.task.value)
  }

  /** No rule, and nobody has said anything about capabilities either. */
  predicate NothingDeclared(routing: CapabilityRouting, models: seq<Model>) {
    routing.routes == [] && forall i :: 0 <= i < |models| ==> models[i].capabilities == {}
  }

  ghost predicate SomeLive(models: seq<Model>, keys: seq<nat>, modality: Modality) {
    exists k :: k in keys && Live(models, k, modality)
  }

  ghost predicate SomeWrong(models: seq<Model>, keys: seq<nat>, modality: Modality) {
    exists k :: k in keys && WrongModality(models, k, modality)
  }

  /** A winning rule decides alone: its own chain if any of its models is live, else the reason none is. */
  ghost predicate DecidedByRule(w: nat, rule: Rule, task: Task, models: seq<Model>, r: Route) {
    var live := SomeLive(models, Named(rule), ModalityOf(task));
    && (r.ByTask? <==> live)
    && (r.ByTask? ==> r.rule == w && exists at :: Selects(Named(rule), models, ModalityOf(task), r.chain, at))
    && (!live ==> r == Refused(if SomeWrong(models, Named(rule), ModalityOf(task)) then ModalityMismatch else NoUsableModel))
  }

  /** Without one the capability decides, unless nothing is declared. */
  ghost predicate DecidedByCapability(task: Task, models: seq<Model>, routing: CapabilityRouting, r: Route) {
    if NothingDeclared(routing, models) then r == Refused(NoRule)
    else
      var route := FindRoute(routing.routes, CapabilityOf(task));
      var disabled := route.Some? && !route.value.enabled;
      && (disabled ==> r == Refused(CapabilityDisabled))
      && (!disabled && NothingServes(models, routing, route, CapabilityOf(task)) ==> r == Refused(CapabilityUnsatisfied))
      && (!disabled && !NothingServes(models, routing, route, CapabilityOf(task)) ==>
            r.ByCapability? && CapabilityChain(models, routing, route, CapabilityOf(task), r.chain))
  }

  method FollowRule(w: nat, rule: Rule, task: Task, models: seq<Model>) returns (r: Route)
    ensures DecidedByRule(w, rule, task, models, r)
    ensures r.ByTask? ==> RightChain(models, task, r.chain) && NoRepeats(r.chain)
  {
    ghost var at;
    var chain, excluded, mismatch;
    chain, excluded, mismatch, at := BuildChain(Named(rule), models, ModalityOf(task));
    if chain == [] {
      return Refused(if mismatch then ModalityMismatch else NoUsableModel);
    }
    assert Selects(Named(rule), models, ModalityOf(task), chain, at);
    assert Named(rule)[at[0]] in Named(rule) && Live(models, chain[0], ModalityOf(task));
    LiveIsRight(models, task, chain);
    return ByTask(w, chain);
  }

  method FollowCapability(task: Task, models: seq<Model>, routing: CapabilityRouting) returns (r: Route)
    ensures r.ByCapability? || r.Refused?
    ensures DecidedByCapability(task, models, routing, r)
    ensures r.ByCapability? ==> RightChain(models, task, r.chain)
    ensures r.ByCapability? && DistinctKeys(models) ==> NoRepeats(r.chain)
  {
    if |routing.routes| > 0 || exists i :: 0 <= i < |models| && models[i].capabilities != {} {
      r := ResolveCapabilityRoute(task, routing, models);
      if r.ByCapability? {
        ServingIsRight(models, task, r.chain, Floor(FindRoute(routing.routes, CapabilityOf(task))));
      }
      return;
    }
    return Refused(NoRule);
  }

  /** The task's own rule first, its capability when there is none. */
  method ResolveRoute(q: Query, rules: seq<Rule>, models: seq<Model>, routing: CapabilityRouting) returns (r: Route)
    ensures !r.Refused? ==> Asked(q) && RightChain(models, q.task.value, r.chain)
    ensures !r.Refused? && DistinctKeys(models) ==> NoRepeats(r.chain)
    ensures r == Refused(UnknownTask) <==> q.task.None?
    ensures r == Refused(NotInMvpScope) <==> q.task.Some? && !MvpApproved(q.task.value)
    ensures Asked(q) && Winner(rules, q).Some? ==>
              Winner(rules, q).value < |rules| && DecidedByRule(Winner(rules, q).value, rules[Winner(rules, q).value], q.task.value, models, r)
    ensures Asked(q) && Winner(rules, q).None? ==> DecidedByCapability(q.task.value, models, routing, r)
  {
    if q.task.None? {
      return Refused(UnknownTask);
    }
    var task := q.task.value;
    if !MvpApproved(task) {
      return Refused(NotInMvpScope);
    }
    var winner := Winner(rules, q);
    if winner.None? {
      r := FollowCapability(task, models, routing);
    } else {
      r := FollowRule(winner.value, rules[winner.value], task, models);
    }
  }
}
