/**
 Validation of bind group layout descriptors (src/dawn_native/BindGroupLayout.cpp). Validation bounds
 the bindings that some stage sees; bindings that no stage sees it does not bound.
 */
module LayoutValidation {
  import opened BindingOrder
  import opened BindingCounts

  const WRITE_ONLY := 1
  const DIMENSION_CUBE := 4
  const DIMENSION_CUBE_ARRAY := 5
  const DIMENSION_3D := 6

  // ----- One entry -----

  /**
   The formats whose entry in the format table (src/dawn_native/Format.cpp) allows storage usage: R32,
   RGBA8 other than sRGB, RG32, RGBA16 and RGBA32, by their numbers in dawn.json.
   */
  predicate SupportsStorageUsage(format: nat) {
    12 <= format <= 14 || format == 18 || 20 <= format <= 22 || 28 <= format <= 36
  }

  predicate LayoutValid(b: Binding, allowInternalBinding: bool) {
    match b
    case Buffer(bufferType, _, _) => bufferType.InternalStorage? ==> allowInternalBinding
    case Sampler(samplerType) => 1 <= samplerType <= 3
    case Texture(sampleType, dimension, multisampled) =>
      && 1 <= sampleType <= 5 && dimension <= DIMENSION_3D
      && (multisampled ==> dimension == 0 || dimension == DIMENSION_2D)
    case StorageTexture(access, format, dimension) =>
      && access == WRITE_ONLY && SupportsStorageUsage(format) && dimension <= DIMENSION_3D
      && dimension != DIMENSION_CUBE && dimension != DIMENSION_CUBE_ARRAY
    case ExternalTexture => true
  }

  /** Bindings that shaders can write are not allowed in the vertex stage. */
  predicate VertexAllowed(b: Binding) {
    match b
    case Buffer(bufferType, _, _) => !bufferType.Storage? && !bufferType.InternalStorage?
    case StorageTexture(access, _, _) => access != WRITE_ONLY
    case _ => true
  }

  predicate ValidateBindGroupLayoutEntry(e: Entry, allowInternalBinding: bool) {
    && e.visibility <= 7
    && LayoutValid(e.layout, allowInternalBinding)
    && (Sees(Vertex, e) ==> VertexAllowed(e.layout))
  }

  ghost predicate EntriesValid(s: seq<Entry>, allowInternalBinding: bool) {
    forall i :: 0 <= i < |s| ==> ValidateBindGroupLayoutEntry(s[i], allowInternalBinding)
  }

  /** The bits of a visibility: 1 is the vertex, 2 the fragment and 4 the compute stage. */
  lemma StageBits(e: Entry)
    requires e.visibility < 8
    ensures Sees(Vertex, e) <==> e.visibility in {1, 3, 5, 7}
    ensures Sees(Fragment, e) <==> e.visibility in {2, 3, 6, 7}
    ensures Sees(Compute, e) <==> e.visibility in {4, 5, 6, 7}
    ensures e.visibility ==
            (if Sees(Vertex, e) then 1 else 0) + (if Sees(Fragment, e) then 2 else 0) +
            (if Sees(Compute, e) then 4 else 0)
  {
  }

  /** A binding through which a shader can write. */
  predicate Writable(b: Binding) {
    b.StorageTexture? || (b.Buffer? && (b.bufferType == Storage || b.bufferType == InternalStorage))
  }

  /** The rules for an entry, one kind after the other; enumeration values as in dawn.json. */
  lemma EntryRules(e: Entry, allowInternalBinding: bool)
    ensures ValidateBindGroupLayoutEntry(e, allowInternalBinding) <==>
            && e.visibility < 8 && !(Writable(e.layout) && Sees(Vertex, e))
            && (e.layout.Buffer? && e.layout.bufferType == InternalStorage ==> allowInternalBinding)
            && (e.layout.Sampler? ==> e.layout.samplerType in {1, 2, 3})
            && (e.layout.Texture? ==>
                  && e.layout.sampleType in {1, 2, 3, 4, 5} && e.layout.textureDimension in {0, 1, 2, 3, 4, 5, 6}
                  && (e.layout.multisampled ==> WithDefaults(e.layout).textureDimension == DIMENSION_2D))
            && (e.layout.StorageTexture? ==>
                  && e.layout.access == 1 && e.layout.storageDimension in {0, 1, 2, 3, 6}
                  && e.layout.format in {12, 13, 14, 18, 20, 21, 22, 28, 29, 30, 31, 32, 33, 34, 35, 36})
  {
  }

  // ----- All entries -----

  /** Different numbers, valid entries, and counts within the limits. */
  ghost predicate Accepted(s: seq<Entry>, allowInternalBinding: bool) {
    DistinctBindings(s) && EntriesValid(s, allowInternalBinding) && ValidateBindingCounts(Recount(s))
  }

  method ValidateBindGroupLayoutDescriptor(s: seq<Entry>, allowInternalBinding: bool) returns (ok: bool)
    ensures ok <==> Accepted(s, allowInternalBinding)
  {
    var bindingsSet: set<int> := {};
    var bindingCounts := NO_COUNTS;
    for i := 0 to |s|
      invariant bindingsSet == set j | 0 <= j < i :: s[j].binding
      invariant DistinctBindings(s[..i]) && EntriesValid(s[..i], allowInternalBinding)
      invariant Agrees(bindingCounts, s[..i])
    {
      if s[i].binding in bindingsSet || !ValidateBindGroupLayoutEntry(s[i], allowInternalBinding) {
        return false;
      }
      IncrementAgrees(bindingCounts, s[..i], s[i]);
      assert s[..i] + [s[i]] == s[..i + 1];
      bindingCounts := IncrementBindingCounts(bindingCounts, s[i]);
      bindingsSet := bindingsSet + {s[i].binding};
    }
    assert s[..|s|] == s;
    CountsUnique(bindingCounts, Recount(s), s);
    return ValidateBindingCounts(bindingCounts);
  }

  /** What one stage may see; an external texture needs three sampled textures, a sampler and a uniform buffer. */
  ghost predicate StageAllows(s: seq<Entry>, stage: Stage) {
    var external := CountOf(s, Seen(stage, ExternalTextures));
    && CountOf(s, Seen(stage, SampledTextures)) + 3 * external <= 16
    && CountOf(s, Seen(stage, Samplers)) + external <= 16
    && CountOf(s, Seen(stage, UniformBuffers)) + external <= 12
    && CountOf(s, Seen(stage, StorageBuffers)) <= 8
    && CountOf(s, Seen(stage, StorageTextures)) <= 4
  }

  /** The limits, in numbers of entries. */
  lemma LimitRules(s: seq<Entry>)
    ensures ValidateBindingCounts(Recount(s)) <==>
            && CountOf(s, DynamicUniforms) <= 8 && CountOf(s, DynamicStorages) <= 4
            && StageAllows(s, Vertex) && StageAllows(s, Fragment) && StageAllows(s, Compute)
  {
    var c := Recount(s);
    assert Counter(c, DynamicUniforms) == CountOf(s, DynamicUniforms);
    assert Counter(c, DynamicStorages) == CountOf(s, DynamicStorages);
    StageRules(s, c, Vertex);
    StageRules(s, c, Fragment);
    StageRules(s, c, Compute);
  }

  lemma StageRules(s: seq<Entry>, c: Counts, stage: Stage)
    requires Agrees(c, s)
    ensures StageWithinLimits(OfStage(c, stage)) <==> StageAllows(s, stage)
  {
    forall kind
      ensures CountOf(s, Seen(stage, kind)) == StageCounter(OfStage(c, stage), kind)
    {
      assert Counter(c, Seen(stage, kind)) == CountOf(s, Seen(stage, kind));
    }
    assert CountOf(s, Seen(stage, ExternalTextures)) == OfStage(c, stage).externalTexture;
    assert CountOf(s, Seen(stage, SampledTextures)) == OfStage(c, stage).sampledTexture;
    assert CountOf(s, Seen(stage, Samplers)) == OfStage(c, stage).sampler;
    assert CountOf(s, Seen(stage, UniformBuffers)) == OfStage(c, stage).uniformBuffer;
    assert CountOf(s, Seen(stage, StorageBuffers)) == OfStage(c, stage).storageBuffer;
    assert CountOf(s, Seen(stage, StorageTextures)) == OfStage(c, stage).storageTexture;
  }

  // ----- How many bindings pass -----

  /** What the limits leave to the three stages; the vertex stage sees no storage texture. */
  const MAX_SEEN_BINDINGS := MAX_BINDINGS - MAX_STORAGE_TEXTURES

  /** How many entries no stage sees. */
  function UnseenIn(s: seq<Entry>): nat {
    if s == [] then 0 else UnseenIn(s[..|s| - 1]) + if s[|s| - 1].visibility == 0 then 1 else 0
  }

  lemma {:induction false} SeenOrUnseen(s: seq<Entry>)
    requires forall i :: 0 <= i < |s| ==> s[i].visibility <= 7
    ensures |s| <= SeenIn(s, Vertex) + SeenIn(s, Fragment) + SeenIn(s, Compute) + UnseenIn(s)
  {
    if s != [] {
      SeenOrUnseen(s[..|s| - 1]);
      assert s[|s| - 1].visibility <= 7;
    }
  }

  lemma {:induction false} NoVertexStorageTextures(s: seq<Entry>, allowInternalBinding: bool)
    requires EntriesValid(s, allowInternalBinding)
    ensures CountOf(s, Seen(Vertex, StorageTextures)) == 0
  {
    if s != [] {
      NoVertexStorageTextures(s[..|s| - 1], allowInternalBinding);
      assert ValidateBindGroupLayoutEntry(s[|s| - 1], allowInternalBinding);
    }
  }

  lemma StageLimit(c: StageCounts)
    requires StageWithinLimits(c)
    ensures 3 * (StageTotal(c) - c.storageTexture + MAX_STORAGE_TEXTURES) <= MAX_BINDINGS
    ensures 3 * StageTotal(c) <= MAX_BINDINGS
  {
  }

  lemma StageBound(s: seq<Entry>, c: Counts, stage: Stage)
    requires Agrees(c, s) && ValidateBindingCounts(c)
    ensures 3 * SeenIn(s, stage) <= MAX_BINDINGS
    ensures CountOf(s, Seen(stage, StorageTextures)) == 0 ==>
              3 * (SeenIn(s, stage) + MAX_STORAGE_TEXTURES) <= MAX_BINDINGS
  {
    SeenByKind(s, c, stage);
    StageLimit(OfStage(c, stage));
    assert Counter(c, Seen(stage, StorageTextures)) == CountOf(s, Seen(stage, StorageTextures));
  }

  /** The limits bound all bindings but those that no stage sees, and more so for valid entries. */
  lemma LimitsBoundVisibleBindings(s: seq<Entry>, c: Counts, allowInternalBinding: bool)
    requires Agrees(c, s) && ValidateBindingCounts(c) && forall i :: 0 <= i < |s| ==> s[i].visibility <= 7
    ensures |s| <= MAX_BINDINGS + UnseenIn(s)
    ensures EntriesValid(s, allowInternalBinding) ==> |s| <= MAX_SEEN_BINDINGS + UnseenIn(s)
  {
    SeenOrUnseen(s);
    StageBound(s, c, Vertex);
    StageBound(s, c, Fragment);
    StageBound(s, c, Compute);
    if EntriesValid(s, allowInternalBinding) { NoVertexStorageTextures(s, allowInternalBinding); }
  }

  /** An accepted list has at most MAX_SEEN_BINDINGS bindings besides those that no stage sees. */
  lemma AcceptedBound(s: seq<Entry>, allowInternalBinding: bool)
    requires Accepted(s, allowInternalBinding)
    ensures |s| <= MAX_SEEN_BINDINGS + UnseenIn(s)
  {
    LimitsBoundVisibleBindings(s, Recount(s), allowInternalBinding);
  }

  // ----- The bound is reached -----

  /** n bindings of one kind, numbered from `start`. */
  function Many(start: int, n: nat, visibility: nat, layout: Binding): (s: seq<Entry>)
    ensures |s| == n && forall i :: 0 <= i < n ==> s[i] == Entry(start + i, visibility, layout)
  {
    seq(n, i requires 0 <= i < n => Entry(start + i, visibility, layout))
  }

  lemma ManySnoc(start: int, n: nat, visibility: nat, layout: Binding)
    requires n > 0
    ensures Many(start, n, visibility, layout) ==
            Many(start, n - 1, visibility, layout) + [Entry(start + n - 1, visibility, layout)]
  {
  }

  function Bit(stage: Stage): nat {
    match stage
    case Vertex => 1
    case Fragment => 2
    case Compute => 4
  }

  /** Counts of bindings that only one stage sees. */
  function OnStage(total: nat, buffer: nat, stage: Stage, c: StageCounts): Counts {
    Counts(total, buffer, 0, 0, 0, if stage == Vertex then c else NO_STAGE, if stage == Fragment then c else NO_STAGE,
           if stage == Compute then c else NO_STAGE)
  }

  function OfKind(layout: Binding, n: nat): StageCounts {
    match KindOf(layout)
    case SampledTextures => StageCounts(n, 0, 0, 0, 0, 0)
    case Samplers => StageCounts(0, n, 0, 0, 0, 0)
    case StorageBuffers => StageCounts(0, 0, n, 0, 0, 0)
    case StorageTextures => StageCounts(0, 0, 0, n, 0, 0)
    case UniformBuffers => StageCounts(0, 0, 0, 0, n, 0)
    case ExternalTextures => StageCounts(0, 0, 0, 0, 0, n)
  }

  /** Neither dynamic nor unverified. */
  predicate Plain(layout: Binding) {
    layout.Buffer? ==> !layout.hasDynamicOffset && layout.minBindingSize > 0
  }

  function ManyCounts(n: nat, stage: Stage, layout: Binding): Counts {
    OnStage(n, if layout.Buffer? then n else 0, stage, OfKind(layout, n))
  }

  lemma ManyIncrement(start: int, n: nat, stage: Stage, layout: Binding)
    requires Plain(layout) && n > 0
    ensures IncrementBindingCounts(ManyCounts(n - 1, stage, layout), Entry(start, Bit(stage), layout)) ==
            ManyCounts(n, stage, layout)
  {
  }

  lemma {:induction false} ManyAgrees(start: int, n: nat, stage: Stage, layout: Binding)
    requires Plain(layout)
    ensures Agrees(ManyCounts(n, stage, layout), Many(start, n, Bit(stage), layout))
  {
    if n == 0 {
      forall p ensures Counter(ManyCounts(0, stage, layout), p) == CountOf(Many(start, 0, Bit(stage), layout), p) {}
    } else {
      ManyAgrees(start, n - 1, stage, layout);
      ManySnoc(start, n, Bit(stage), layout);
      ManyIncrement(start + n - 1, n, stage, layout);
      IncrementAgrees(ManyCounts(n - 1, stage, layout), Many(start, n - 1, Bit(stage), layout),
                      Entry(start + n - 1, Bit(stage), layout));
    }
  }

  lemma {:induction false} UnseenAgrees(start: int, n: nat)
    ensures Agrees(NO_COUNTS.(total := n), Many(start, n, 0, Sampler(1)))
  {
    if n > 0 {
      UnseenAgrees(start, n - 1);
      ManySnoc(start, n, 0, Sampler(1));
      IncrementAgrees(NO_COUNTS.(total := n - 1), Many(start, n - 1, 0, Sampler(1)),
                      Entry(start + n - 1, 0, Sampler(1)));
    }
  }

  const TEXTURE := Texture(1, DIMENSION_2D, false)
  const SAMPLER := Sampler(1)
  const STORAGE_BUFFER := Buffer(ReadOnlyStorage, false, 4)
  const UNIFORM_BUFFER := Buffer(Uniform, false, 4)
  const RGBA8_STORAGE_TEXTURE := StorageTexture(WRITE_ONLY, 18, DIMENSION_2D)

  function StorageTexturesFor(stage: Stage): nat {
    if stage == Vertex then 0 else MAX_STORAGE_TEXTURES
  }

  /** As many bindings of each kind as one stage may see. */
  function StageFull(start: int, stage: Stage): seq<Entry> {
    Many(start, MAX_SAMPLED_TEXTURES, Bit(stage), TEXTURE) +
    Many(start + 16, MAX_SAMPLERS, Bit(stage), SAMPLER) +
    Many(start + 32, MAX_STORAGE_BUFFERS, Bit(stage), STORAGE_BUFFER) +
    Many(start + 40, MAX_UNIFORM_BUFFERS, Bit(stage), UNIFORM_BUFFER) +
    Many(start + 52, StorageTexturesFor(stage), Bit(stage), RGBA8_STORAGE_TEXTURE)
  }

  function FullStage(stage: Stage): StageCounts {
    StageCounts(MAX_SAMPLED_TEXTURES, MAX_SAMPLERS, MAX_STORAGE_BUFFERS, StorageTexturesFor(stage),
                MAX_UNIFORM_BUFFERS, 0)
  }

  function FullCounts(stage: Stage): Counts {
    OnStage(52 + StorageTexturesFor(stage), 20, stage, FullStage(stage))
  }

  lemma CountConcat5(a: seq<Entry>, b: seq<Entry>, c: seq<Entry>, d: seq<Entry>, e: seq<Entry>, p: Property)
    ensures CountOf(a + b + c + d + e, p) ==
            CountOf(a, p) + CountOf(b, p) + CountOf(c, p) + CountOf(d, p) + CountOf(e, p)
  {
    CountConcat4(a, b, c, d, p);
    CountConcat(a + b + c + d, e, p);
  }

  lemma CountConcat4(a: seq<Entry>, b: seq<Entry>, c: seq<Entry>, d: seq<Entry>, p: Property)
    ensures CountOf(a + b + c + d, p) == CountOf(a, p) + CountOf(b, p) + CountOf(c, p) + CountOf(d, p)
  {
    CountConcat(a, b, p);
    CountConcat(a + b, c, p);
    CountConcat(a + b + c, d, p);
  }

  lemma StageFullSum(stage: Stage, p: Property)
    ensures Counter(FullCounts(stage), p) ==
            Counter(ManyCounts(16, stage, TEXTURE), p) + Counter(ManyCounts(16, stage, SAMPLER), p) +
            Counter(ManyCounts(8, stage, STORAGE_BUFFER), p) + Counter(ManyCounts(12, stage, UNIFORM_BUFFER), p) +
            Counter(ManyCounts(StorageTexturesFor(stage), stage, RGBA8_STORAGE_TEXTURE), p)
  {
  }

  lemma ManyCount(start: int, n: nat, stage: Stage, layout: Binding, p: Property)
    requires Plain(layout)
    ensures CountOf(Many(start, n, Bit(stage), layout), p) == Counter(ManyCounts(n, stage, layout), p)
  {
    ManyAgrees(start, n, stage, layout);
  }

  lemma StageFullCount(start: int, stage: Stage, p: Property)
    ensures CountOf(StageFull(start, stage), p) == Counter(FullCounts(stage), p)
  {
    var n := StorageTexturesFor(stage);
    ManyCount(start, 16, stage, TEXTURE, p);
    ManyCount(start + 16, 16, stage, SAMPLER, p);
    ManyCount(start + 32, 8, stage, STORAGE_BUFFER, p);
    ManyCount(start + 40, 12, stage, UNIFORM_BUFFER, p);
    ManyCount(start + 52, n, stage, RGBA8_STORAGE_TEXTURE, p);
    CountConcat5(Many(start, 16, Bit(stage), TEXTURE), Many(start + 16, 16, Bit(stage), SAMPLER),
                 Many(start + 32, 8, Bit(stage), STORAGE_BUFFER), Many(start + 40, 12, Bit(stage), UNIFORM_BUFFER),
                 Many(start + 52, n, Bit(stage), RGBA8_STORAGE_TEXTURE), p);
    StageFullSum(stage, p);
  }

  /** All stages full, and k bindings that no stage sees. */
  function Overfull(k: nat): seq<Entry> {
    StageFull(0, Vertex) + StageFull(52, Fragment) + StageFull(108, Compute) + Many(164, k, 0, SAMPLER)
  }

  function OverfullCounts(k: nat): Counts {
    Counts(MAX_SEEN_BINDINGS + k, 60, 0, 0, 0, FullStage(Vertex), FullStage(Fragment), FullStage(Compute))
  }

  lemma OverfullSum(k: nat, p: Property)
    ensures Counter(OverfullCounts(k), p) ==
            Counter(FullCounts(Vertex), p) + Counter(FullCounts(Fragment), p) + Counter(FullCounts(Compute), p) +
            Counter(NO_COUNTS.(total := k), p)
  {
  }

  lemma UnseenCount(start: int, n: nat, p: Property)
    ensures CountOf(Many(start, n, 0, SAMPLER), p) == Counter(NO_COUNTS.(total := n), p)
  {
    UnseenAgrees(start, n);
  }

  lemma OverfullCount(k: nat, p: Property)
    ensures CountOf(Overfull(k), p) == Counter(OverfullCounts(k), p)
  {
    var v, f, c := StageFull(0, Vertex), StageFull(52, Fragment), StageFull(108, Compute);
    var u := Many(164, k, 0, SAMPLER);
    StageFullCount(0, Vertex, p);
    StageFullCount(52, Fragment, p);
    StageFullCount(108, Compute, p);
    UnseenCount(164, k, p);
    CountConcat4(v, f, c, u, p);
    OverfullSum(k, p);
  }

  lemma OverfullAgrees(k: nat)
    ensures Agrees(OverfullCounts(k), Overfull(k))
  {
    forall p
      ensures Counter(OverfullCounts(k), p) == CountOf(Overfull(k), p)
    {
      OverfullCount(k, p);
    }
  }

  /** Valid entries numbered from `start`. */
  ghost predicate Numbered(s: seq<Entry>, start: int, allowInternalBinding: bool) {
    EntriesValid(s, allowInternalBinding) && forall i :: 0 <= i < |s| ==> s[i].binding == start + i
  }

  lemma StageFullNumbered(start: int, stage: Stage, allowInternalBinding: bool)
    ensures |StageFull(start, stage)| == 52 + StorageTexturesFor(stage)
    ensures Numbered(StageFull(start, stage), start, allowInternalBinding)
    ensures forall i :: 0 <= i < |StageFull(start, stage)| ==> StageFull(start, stage)[i].visibility >= 1
  {
  }

  lemma OverfullNumbered(k: nat, allowInternalBinding: bool)
    ensures |Overfull(k)| == MAX_SEEN_BINDINGS + k && Numbered(Overfull(k), 0, allowInternalBinding)
    ensures forall i :: 0 <= i < MAX_SEEN_BINDINGS ==> Overfull(k)[i].visibility >= 1
    ensures forall i :: MAX_SEEN_BINDINGS <= i < |Overfull(k)| ==> Overfull(k)[i].visibility == 0
  {
    StageFullNumbered(0, Vertex, allowInternalBinding);
    StageFullNumbered(52, Fragment, allowInternalBinding);
    StageFullNumbered(108, Compute, allowInternalBinding);
  }

  lemma {:induction false} UnseenFacts(s: seq<Entry>, k: nat)
    requires k <= |s| && forall i :: 0 <= i < k ==> s[i].visibility >= 1
    requires forall i :: k <= i < |s| ==> s[i].visibility == 0
    ensures UnseenIn(s) == |s| - k
  {
    if |s| > 0 {
      var t := s[..|s| - 1];
      UnseenFacts(t, if k <= |t| then k else |t|);
    }
  }

  /** For every number of bindings that no stage sees, the bound is reached. */
  lemma BoundReached(k: nat, allowInternalBinding: bool)
    ensures Accepted(Overfull(k), allowInternalBinding)
    ensures UnseenIn(Overfull(k)) == k && |Overfull(k)| == MAX_SEEN_BINDINGS + k
  {
    OverfullAgrees(k);
    CountsUnique(OverfullCounts(k), Recount(Overfull(k)), Overfull(k));
    OverfullNumbered(k, allowInternalBinding);
    UnseenFacts(Overfull(k), MAX_SEEN_BINDINGS);
  }

  /**
   Every accepted list with at most k bindings that no stage sees has the asserted number of bindings
   or fewer if and only if k is at most 4.
   */
  lemma LimitsBoundBindingsIff(k: nat, allowInternalBinding: bool)
    ensures (forall s :: Accepted(s, allowInternalBinding) && UnseenIn(s) <= k ==> |s| <= MAX_BINDINGS) <==>
            k <= MAX_STORAGE_TEXTURES
  {
    if k <= MAX_STORAGE_TEXTURES {
      forall s | Accepted(s, allowInternalBinding) && UnseenIn(s) <= k
        ensures |s| <= MAX_BINDINGS
      {
        AcceptedBound(s, allowInternalBinding);
      }
    } else {
      BoundReached(k, allowInternalBinding);
    }
  }
}
