/**
 Counting bindings (src/dawn_native/BindingInfo.cpp). The counters kept while entries are added are
 numbers of entries with a property, so they do not depend on the order of the entries.
 */
module BindingCounts {
  import opened BindingOrder

  const MAX_SAMPLED_TEXTURES := 16
  const MAX_SAMPLERS := 16
  const MAX_STORAGE_BUFFERS := 8
  const MAX_STORAGE_TEXTURES := 4
  const MAX_UNIFORM_BUFFERS := 12
  const MAX_DYNAMIC_UNIFORM_BUFFERS := 8
  const MAX_DYNAMIC_STORAGE_BUFFERS := 4
  const SAMPLED_TEXTURES_PER_EXTERNAL_TEXTURE := 3
  const SAMPLERS_PER_EXTERNAL_TEXTURE := 1
  const UNIFORMS_PER_EXTERNAL_TEXTURE := 1
  const MAX_BINDINGS :=
    3 * (MAX_SAMPLED_TEXTURES + MAX_SAMPLERS + MAX_STORAGE_BUFFERS + MAX_STORAGE_TEXTURES + MAX_UNIFORM_BUFFERS)

  datatype StageCounts = StageCounts(sampledTexture: nat, sampler: nat, storageBuffer: nat, storageTexture: nat,
                                     uniformBuffer: nat, externalTexture: nat)

  datatype Counts = Counts(total: nat, buffer: nat, unverified: nat, dynamicUniform: nat, dynamicStorage: nat,
                           vertex: StageCounts, fragment: StageCounts, compute: StageCounts)

  const NO_STAGE := StageCounts(0, 0, 0, 0, 0, 0)
  const NO_COUNTS := Counts(0, 0, 0, 0, 0, NO_STAGE, NO_STAGE, NO_STAGE)

  datatype Stage = Vertex | Fragment | Compute

  predicate Sees(stage: Stage, e: Entry) {
    match stage
    case Vertex => e.visibility % 2 == 1
    case Fragment => e.visibility / 2 % 2 == 1
    case Compute => e.visibility / 4 % 2 == 1
  }

  /** One more binding of its kind in a stage that sees it. */
  function IncrementStage(c: StageCounts, stage: Stage, e: Entry): StageCounts {
    if !Sees(stage, e) then c
    else
      match e.layout
      case Buffer(bufferType, _, _) =>
        if bufferType.Uniform? then c.(uniformBuffer := c.uniformBuffer + 1)
        else c.(storageBuffer := c.storageBuffer + 1)
      case Sampler(_) => c.(sampler := c.sampler + 1)
      case Texture(_, _, _) => c.(sampledTexture := c.sampledTexture + 1)
      case StorageTexture(_, _, _) => c.(storageTexture := c.storageTexture + 1)
      case ExternalTexture => c.(externalTexture := c.externalTexture + 1)
  }

  function IncrementBindingCounts(c: Counts, e: Entry): Counts {
    var b := match e.layout
      case Buffer(bufferType, dynamic, minSize) =>
        c.(buffer := c.buffer + 1,
           unverified := if minSize == 0 then c.unverified + 1 else c.unverified,
           dynamicUniform := if bufferType.Uniform? && dynamic then c.dynamicUniform + 1 else c.dynamicUniform,
           dynamicStorage := if !bufferType.Uniform? && dynamic then c.dynamicStorage + 1 else c.dynamicStorage)
      case _ => c;
    b.(total := c.total + 1,
       vertex := IncrementStage(c.vertex, Vertex, e),
       fragment := IncrementStage(c.fragment, Fragment, e),
       compute := IncrementStage(c.compute, Compute, e))
  }

  function AccumulateStage(a: StageCounts, b: StageCounts): StageCounts {
    StageCounts(a.sampledTexture + b.sampledTexture, a.sampler + b.sampler, a.storageBuffer + b.storageBuffer,
                a.storageTexture + b.storageTexture, a.uniformBuffer + b.uniformBuffer,
                a.externalTexture + b.externalTexture)
  }

  function AccumulateBindingCounts(a: Counts, b: Counts): Counts {
    Counts(a.total + b.total, a.buffer + b.buffer, a.unverified + b.unverified, a.dynamicUniform + b.dynamicUniform,
           a.dynamicStorage + b.dynamicStorage, AccumulateStage(a.vertex, b.vertex),
           AccumulateStage(a.fragment, b.fragment), AccumulateStage(a.compute, b.compute))
  }

  // ----- What is counted -----

  datatype Kind = SampledTextures | Samplers | StorageBuffers | StorageTextures | UniformBuffers | ExternalTextures

  datatype Property =
    | All | Buffers | UnverifiedBuffers | DynamicUniforms | DynamicStorages
    | Seen(stage: Stage, kind: Kind)

  function KindOf(b: Binding): Kind {
    match b
    case Buffer(bufferType, _, _) => if bufferType.Uniform? then UniformBuffers else StorageBuffers
    case Sampler(_) => Samplers
    case Texture(_, _, _) => SampledTextures
    case StorageTexture(_, _, _) => StorageTextures
    case ExternalTexture => ExternalTextures
  }

  predicate Unverified(e: Entry) {
    e.layout.Buffer? && e.layout.minBindingSize == 0
  }

  predicate Has(e: Entry, p: Property) {
    match p
    case All => true
    case Buffers => e.layout.Buffer?
    case UnverifiedBuffers => Unverified(e)
    case DynamicUniforms => IsDynamic(e) && e.layout.bufferType.Uniform?
    case DynamicStorages => IsDynamic(e) && !e.layout.bufferType.Uniform?
    case Seen(stage, kind) => Sees(stage, e) && KindOf(e.layout) == kind
  }

  function One(e: Entry, p: Property): nat {
    if Has(e, p) then 1 else 0
  }

  /** How many entries have a property. */
  function CountOf(s: seq<Entry>, p: Property): nat {
    if s == [] then 0 else CountOf(s[..|s| - 1], p) + One(s[|s| - 1], p)
  }

  function StageCounter(c: StageCounts, kind: Kind): nat {
    match kind
    case SampledTextures => c.sampledTexture
    case Samplers => c.sampler
    case StorageBuffers => c.storageBuffer
    case StorageTextures => c.storageTexture
    case UniformBuffers => c.uniformBuffer
    case ExternalTextures => c.externalTexture
  }

  function OfStage(c: Counts, stage: Stage): StageCounts {
    match stage
    case Vertex => c.vertex
    case Fragment => c.fragment
    case Compute => c.compute
  }

  /** The counter for a property. */
  function Counter(c: Counts, p: Property): nat {
    match p
    case All => c.total
    case Buffers => c.buffer
    case UnverifiedBuffers => c.unverified
    case DynamicUniforms => c.dynamicUniform
    case DynamicStorages => c.dynamicStorage
    case Seen(stage, kind) => StageCounter(OfStage(c, stage), kind)
  }

  /** Every counter is the number of entries that have its property. */
  ghost predicate Agrees(c: Counts, s: seq<Entry>) {
    forall p {:trigger Counter(c, p)} :: Counter(c, p) == CountOf(s, p)
  }

  lemma CountSnoc(s: seq<Entry>, e: Entry, p: Property)
    ensures CountOf(s + [e], p) == CountOf(s, p) + One(e, p)
  {
    assert (s + [e])[..|s|] == s;
  }

  /** Adding an entry increments exactly the counters of the properties it has. */
  lemma CounterIncrement(c: Counts, e: Entry, p: Property)
    ensures Counter(IncrementBindingCounts(c, e), p) == Counter(c, p) + One(e, p)
  {
  }

  lemma CounterAccumulate(a: Counts, b: Counts, p: Property)
    ensures Counter(AccumulateBindingCounts(a, b), p) == Counter(a, p) + Counter(b, p)
  {
  }

  lemma IncrementAgrees(c: Counts, s: seq<Entry>, e: Entry)
    requires Agrees(c, s)
    ensures Agrees(IncrementBindingCounts(c, e), s + [e])
  {
    forall p
      ensures Counter(IncrementBindingCounts(c, e), p) == CountOf(s + [e], p)
    {
      CounterIncrement(c, e, p);
      CountSnoc(s, e, p);
    }
  }

  // ----- Laws -----

  lemma {:induction false} CountConcat(a: seq<Entry>, b: seq<Entry>, p: Property)
    ensures CountOf(a + b, p) == CountOf(a, p) + CountOf(b, p)
  {
    if b == [] {
      assert a + b == a;
    } else {
      var n := |b| - 1;
      CountConcat(a, b[..n], p);
      assert a + b == a + b[..n] + [b[n]];
      CountSnoc(a + b[..n], b[n], p);
    }
  }

  /** The counts of several layouts accumulate to the counts of all their entries. */
  lemma AccumulateAgrees(a: Counts, s: seq<Entry>, b: Counts, t: seq<Entry>)
    requires Agrees(a, s) && Agrees(b, t)
    ensures Agrees(AccumulateBindingCounts(a, b), s + t)
  {
    forall p
      ensures Counter(AccumulateBindingCounts(a, b), p) == CountOf(s + t, p)
    {
      CounterAccumulate(a, b, p);
      CountConcat(s, t, p);
    }
  }

  /** Taking one entry out of a sequence. */
  lemma CountWithout(s: seq<Entry>, k: nat, p: Property)
    requires k < |s|
    ensures CountOf(s, p) == CountOf(s[..k] + s[k + 1..], p) + One(s[k], p)
  {
    assert s == s[..k] + [s[k]] + s[k + 1..];
    CountConcat(s[..k] + [s[k]], s[k + 1..], p);
    CountSnoc(s[..k], s[k], p);
    CountConcat(s[..k], s[k + 1..], p);
  }

  lemma MultisetWithout(s: seq<Entry>, k: nat)
    requires k < |s|
    ensures multiset(s[..k] + s[k + 1..]) == multiset(s) - multiset{s[k]}
  {
    assert s == s[..k] + [s[k]] + s[k + 1..];
    assert multiset(s) == multiset(s[..k] + s[k + 1..]) + multiset{s[k]};
  }

  lemma {:induction false} CountPermuted(a: seq<Entry>, b: seq<Entry>, p: Property)
    requires multiset(a) == multiset(b)
    ensures CountOf(a, p) == CountOf(b, p)
    decreases |a|
  {
    LengthOfMultiset(a, b);
    if a != [] {
      assert a[0] in multiset(a);
      assert a[0] in b;
      var k :| 0 <= k < |b| && b[k] == a[0];
      MultisetWithout(a, 0);
      MultisetWithout(b, k);
      CountPermuted(a[..0] + a[1..], b[..k] + b[k + 1..], p);
      CountWithout(a, 0, p);
      CountWithout(b, k, p);
    }
  }

  /** The counts do not depend on the order of the entries. */
  lemma CountsPermuted(c: Counts, a: seq<Entry>, b: seq<Entry>)
    requires Agrees(c, a) && multiset(a) == multiset(b)
    ensures Agrees(c, b)
  {
    forall p
      ensures Counter(c, p) == CountOf(b, p)
    {
      CountPermuted(a, b, p);
    }
  }

  /** There is only one right answer. */
  lemma CountsUnique(c: Counts, d: Counts, s: seq<Entry>)
    requires Agrees(c, s) && Agrees(d, s)
    ensures c == d
  {
    assert forall p :: Counter(c, p) == Counter(d, p);
    SameCounters(c, d);
  }

  lemma SameCounters(c: Counts, d: Counts)
    requires forall p :: Counter(c, p) == Counter(d, p)
    ensures c == d
  {
    assert Counter(c, All) == Counter(d, All) && Counter(c, Buffers) == Counter(d, Buffers);
    assert Counter(c, UnverifiedBuffers) == Counter(d, UnverifiedBuffers);
    assert Counter(c, DynamicUniforms) == Counter(d, DynamicUniforms);
    assert Counter(c, DynamicStorages) == Counter(d, DynamicStorages);
    forall stage
      ensures OfStage(c, stage) == OfStage(d, stage)
    {
      forall kind
        ensures StageCounter(OfStage(c, stage), kind) == StageCounter(OfStage(d, stage), kind)
      {
        assert Counter(c, Seen(stage, kind)) == Counter(d, Seen(stage, kind));
      }
      SameStageCounters(OfStage(c, stage), OfStage(d, stage));
    }
    assert OfStage(c, Vertex) == OfStage(d, Vertex) && OfStage(c, Fragment) == OfStage(d, Fragment);
    assert OfStage(c, Compute) == OfStage(d, Compute);
  }

  lemma SameStageCounters(c: StageCounts, d: StageCounts)
    requires forall kind :: StageCounter(c, kind) == StageCounter(d, kind)
    ensures c == d
  {
    assert StageCounter(c, SampledTextures) == StageCounter(d, SampledTextures);
    assert StageCounter(c, Samplers) == StageCounter(d, Samplers);
    assert StageCounter(c, StorageBuffers) == StageCounter(d, StorageBuffers);
    assert StageCounter(c, StorageTextures) == StageCounter(d, StorageTextures);
    assert StageCounter(c, UniformBuffers) == StageCounter(d, UniformBuffers);
    assert StageCounter(c, ExternalTextures) == StageCounter(d, ExternalTextures);
  }

  // ----- Limits -----

  predicate StageWithinLimits(c: StageCounts) {
    && c.sampledTexture <= MAX_SAMPLED_TEXTURES
    && c.externalTexture <= MAX_SAMPLED_TEXTURES / SAMPLED_TEXTURES_PER_EXTERNAL_TEXTURE
    && c.sampledTexture + c.externalTexture * SAMPLED_TEXTURES_PER_EXTERNAL_TEXTURE <= MAX_SAMPLED_TEXTURES
    && c.sampler <= MAX_SAMPLERS
    && c.sampler + c.externalTexture * SAMPLERS_PER_EXTERNAL_TEXTURE <= MAX_SAMPLERS
    && c.storageBuffer <= MAX_STORAGE_BUFFERS
    && c.storageTexture <= MAX_STORAGE_TEXTURES
    && c.uniformBuffer <= MAX_UNIFORM_BUFFERS
    && c.uniformBuffer + c.externalTexture * UNIFORMS_PER_EXTERNAL_TEXTURE <= MAX_UNIFORM_BUFFERS
  }

  predicate ValidateBindingCounts(c: Counts) {
    && c.dynamicUniform <= MAX_DYNAMIC_UNIFORM_BUFFERS && c.dynamicStorage <= MAX_DYNAMIC_STORAGE_BUFFERS
    && StageWithinLimits(c.vertex) && StageWithinLimits(c.fragment) && StageWithinLimits(c.compute)
  }

  function SeenIn(s: seq<Entry>, stage: Stage): nat {
    if s == [] then 0 else SeenIn(s[..|s| - 1], stage) + if Sees(stage, s[|s| - 1]) then 1 else 0
  }

  function StageTotal(c: StageCounts): nat {
    c.sampledTexture + c.sampler + c.storageBuffer + c.storageTexture + c.uniformBuffer + c.externalTexture
  }

  lemma CounterOfStage(c: Counts, stage: Stage, e: Entry)
    ensures StageTotal(OfStage(IncrementBindingCounts(c, e), stage)) ==
            StageTotal(OfStage(c, stage)) + if Sees(stage, e) then 1 else 0
  {
  }

  /** What a stage sees is counted as one of the six kinds. */
  lemma {:induction false} SeenByKind(s: seq<Entry>, c: Counts, stage: Stage)
    requires Agrees(c, s)
    ensures SeenIn(s, stage) == StageTotal(OfStage(c, stage))
  {
    var d := Recount(s);
    CountsUnique(c, d, s);
    if s != [] {
      var t := s[..|s| - 1];
      var d' := Recount(t);
      SeenByKind(t, d', stage);
      assert s == t + [s[|s| - 1]];
      IncrementAgrees(d', t, s[|s| - 1]);
      CountsUnique(d, IncrementBindingCounts(d', s[|s| - 1]), s);
      CounterOfStage(d', stage, s[|s| - 1]);
    } else {
      assert forall p :: Counter(NO_COUNTS, p) == 0;
      CountsUnique(d, NO_COUNTS, s);
    }
  }

  ghost function Recount(s: seq<Entry>): (c: Counts)
    ensures Agrees(c, s)
  {
    if s == [] then
      NO_COUNTS
    else
      var t := s[..|s| - 1];
      assert s == t + [s[|s| - 1]];
      IncrementAgrees(Recount(t), t, s[|s| - 1]);
      IncrementBindingCounts(Recount(t), s[|s| - 1])
  }
}
