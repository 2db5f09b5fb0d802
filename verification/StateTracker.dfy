/**
 Validation of draws and dispatches (src/dawn_native/CommandBufferStateTracker.cpp). The tracker
 remembers which aspects it found in order; the theorems compare what it says with checking every
 aspect again, over all runs of a command buffer.
 */
module StateTracker {
  import opened DawnMath
  import opened Collections

  const MAX_BIND_GROUPS := 4
  const MAX_VERTEX_BUFFERS := 8
  const MAX_ARRAY_STRIDE := 2048
  const UINT32_RANGE := 0x1_0000_0000
  const UINT64_RANGE := 0x1_0000_0000_0000_0000

  datatype IndexFormat = Undefined | Uint16 | Uint32

  /** A layout object; a token other than 0 names the pipeline it was deduced for. */
  datatype BindGroupLayout = BindGroupLayout(address: int, token: int, unverifiedCount: nat)

  datatype BindGroup = BindGroup(layout: BindGroupLayout, unverifiedSizes: seq<nat>)

  datatype VertexBufferInfo = VertexBufferInfo(arrayStride: nat, usedBytesInStride: nat, perInstance: bool)

  datatype Pipeline =
    | Compute(layouts: seq<BindGroupLayout>, minSizes: seq<seq<nat>>)
    | Render(layouts: seq<BindGroupLayout>, minSizes: seq<seq<nat>>, vertexBuffers: map<int, VertexBufferInfo>,
             strip: bool, stripFormat: IndexFormat)

  /** A bind group has one unverified size for each binding whose layout sets no minimum. */
  predicate BindGroupOk(g: BindGroup) {
    |g.unverifiedSizes| == g.layout.unverifiedCount
  }

  predicate PipelineOk(p: Pipeline) {
    && |p.layouts| == |p.minSizes| <= MAX_BIND_GROUPS
    && (forall i :: 0 <= i < |p.layouts| ==> |p.minSizes[i]| == p.layouts[i].unverifiedCount)
    && (p.Render? ==> forall slot :: slot in p.vertexBuffers ==>
          0 <= slot < MAX_VERTEX_BUFFERS && p.vertexBuffers[slot].arrayStride <= MAX_ARRAY_STRIDE)
  }

  datatype Aspect = PIPELINE | BIND_GROUPS | VERTEX_BUFFERS | INDEX_BUFFER

  const LAZY: set<Aspect> := {BIND_GROUPS, VERTEX_BUFFERS, INDEX_BUFFER}
  const DISPATCH: set<Aspect> := {PIPELINE, BIND_GROUPS}
  const DRAW: set<Aspect> := {PIPELINE, BIND_GROUPS, VERTEX_BUFFERS}
  const DRAW_INDEXED: set<Aspect> := {PIPELINE, BIND_GROUPS, VERTEX_BUFFERS, INDEX_BUFFER}

  // ----- The full check -----

  /** All that was set so far. */
  datatype Settings = Settings(pipeline: Option<Pipeline>, groups: map<int, BindGroup>, slots: set<int>,
                               indexFormat: Option<IndexFormat>)

  predicate SizesSuffice(sizes: seq<nat>, minimum: seq<nat>) {
    |sizes| == |minimum| && forall i :: 0 <= i < |sizes| ==> sizes[i] >= minimum[i]
  }

  /** The bind group at i is there, has the right layout and large enough buffers. */
  predicate GroupFits(p: Pipeline, groups: map<int, BindGroup>, i: int)
    requires PipelineOk(p) && 0 <= i < |p.layouts|
  {
    i in groups && groups[i].layout == p.layouts[i] && SizesSuffice(groups[i].unverifiedSizes, p.minSizes[i])
  }

  predicate IndexFits(p: Pipeline, format: IndexFormat) {
    p.Render? && (p.strip ==> format == p.stripFormat)
  }

  predicate SettingsOk(s: Settings) {
    && (s.pipeline.Some? ==> PipelineOk(s.pipeline.value))
    && (forall i :: i in s.groups ==> BindGroupOk(s.groups[i]))
    && (s.indexFormat.Some? ==> s.indexFormat.value != Undefined)
  }

  /** What the WebGPU rules ask of an aspect, decided from the settings alone. */
  predicate Holds(s: Settings, a: Aspect)
    requires SettingsOk(s)
  {
    s.pipeline.Some? &&
    match a
    case PIPELINE => true
    case BIND_GROUPS =>
      forall i :: 0 <= i < |s.pipeline.value.layouts| ==> GroupFits(s.pipeline.value, s.groups, i)
    case VERTEX_BUFFERS => s.pipeline.value.Render? && s.pipeline.value.vertexBuffers.Keys <= s.slots
    case INDEX_BUFFER => s.indexFormat.Some? && IndexFits(s.pipeline.value, s.indexFormat.value)
  }

  datatype Error =
    | NoPipeline
    | NoIndexBuffer
    | NoStripIndexFormat
    | StripIndexFormatMismatch
    | MissingVertexBuffers
    | NoBindGroup(index: nat)
    | NotFromThisPipeline(index: nat)
    | FromAnotherPipeline(index: nat)
    | LayoutMismatch(index: nat)
    | BindingsTooSmall(index: nat)

  datatype Result = Ok | Err(error: Error)

  /** An error names an aspect that fails, and for bind groups the first group that does. */
  ghost predicate Explains(s: Settings, e: Error)
    requires SettingsOk(s)
  {
    match e
    case NoPipeline => s.pipeline.None?
    case NoIndexBuffer => s.indexFormat.None?
    case NoStripIndexFormat =>
      && s.pipeline.Some? && s.pipeline.value.Render?
      && s.pipeline.value.strip && s.pipeline.value.stripFormat == Undefined
    case StripIndexFormatMismatch => s.indexFormat.Some? && !Holds(s, INDEX_BUFFER)
    case MissingVertexBuffers => s.pipeline.Some? && !Holds(s, VERTEX_BUFFERS)
    case NoBindGroup(i) => FirstFailing(s, i) && i !in s.groups
    case NotFromThisPipeline(i) =>
      && FirstFailing(s, i) && i in s.groups
      && s.pipeline.value.layouts[i].token != 0 && s.groups[i].layout.token != s.pipeline.value.layouts[i].token
    case FromAnotherPipeline(i) =>
      FirstFailing(s, i) && i in s.groups && s.pipeline.value.layouts[i].token == 0 && s.groups[i].layout.token != 0
    case LayoutMismatch(i) =>
      && FirstFailing(s, i) && i in s.groups && s.groups[i].layout != s.pipeline.value.layouts[i]
      && s.groups[i].layout.token == s.pipeline.value.layouts[i].token
    case BindingsTooSmall(i) => FirstFailing(s, i) && i in s.groups && s.groups[i].layout == s.pipeline.value.layouts[i]
  }

  ghost predicate FirstFailing(s: Settings, i: nat)
    requires SettingsOk(s)
  {
    && s.pipeline.Some? && i < |s.pipeline.value.layouts|
    && !GroupFits(s.pipeline.value, s.groups, i)
    && forall j :: 0 <= j < i ==> GroupFits(s.pipeline.value, s.groups, j)
  }

  method BufferSizesAtLeastAsBig(sizes: seq<nat>, minimum: seq<nat>) returns (ok: bool)
    requires |sizes| == |minimum|
    ensures ok == SizesSuffice(sizes, minimum)
  {
    for i := 0 to |sizes|
      invariant forall j :: 0 <= j < i ==> sizes[j] >= minimum[j]
    {
      if sizes[i] < minimum[i] {
        return false;
      }
    }
    return true;
  }

  // ----- The tracker -----

  class CommandBufferStateTracker {
    var mAspects: set<Aspect>
    var mBindgroups: map<int, BindGroup>
    var mVertexBufferSlotsUsed: set<int>
    var mVertexBufferSizes: map<int, nat>
    var mIndexBufferSet: bool
    var mIndexFormat: IndexFormat
    var mIndexBufferSize: nat
    var mLastPipeline: Option<Pipeline>

    function Current(): Settings
      reads this
    {
      Settings(mLastPipeline, mBindgroups, mVertexBufferSlotsUsed, if mIndexBufferSet then Some(mIndexFormat) else None)
    }

    /** Every remembered aspect still holds, except perhaps the index buffer. */
    ghost predicate Valid()
      reads this
    {
      && SettingsOk(Current())
      && (PIPELINE in mAspects <==> mLastPipeline.Some?)
      && (forall a :: a in mAspects && a != INDEX_BUFFER ==> Holds(Current(), a))
      && (INDEX_BUFFER in mAspects ==> mIndexBufferSet && mLastPipeline.Some? && mLastPipeline.value.Render?)
      && (forall slot :: slot in mVertexBufferSlotsUsed <==> slot in mVertexBufferSizes)
    }

    constructor ()
      ensures Valid() && mAspects == {} && Current() == Settings(None, map[], {}, None)
    {
      mAspects, mBindgroups, mVertexBufferSlotsUsed, mVertexBufferSizes := {}, map[], {}, map[];
      mIndexBufferSet, mIndexFormat, mIndexBufferSize, mLastPipeline := false, Undefined, 0, None;
    }

    /** What the tracker remembers or a full check finds. */
    ghost predicate Passes(a: Aspect)
      requires SettingsOk(Current())
      reads this
    {
      (a == INDEX_BUFFER && a in mAspects) || Holds(Current(), a)
    }

    method ValidateOperation(required: set<Aspect>) returns (r: Result)
      requires Valid() && PIPELINE in required
      requires (VERTEX_BUFFERS in required || INDEX_BUFFER in required) && mLastPipeline.Some? ==>
                 mLastPipeline.value.Render?
      modifies this`mAspects
      ensures Valid()
      ensures r.Ok? <==> forall a :: a in required ==> old(Passes(a))
      ensures r.Err? ==> Explains(Current(), r.error)
      ensures mAspects ==
              old(mAspects) + if mLastPipeline.None? then {} else set a | a in required && Holds(Current(), a)
    {
      var missing := required - mAspects;
      assert forall a :: a in required && a !in mAspects ==> a in missing;
      if missing == {} {
        return Ok;
      }
      assert forall a :: a in missing - LAZY ==> a == PIPELINE;
      assert PIPELINE in missing ==> PIPELINE in missing - LAZY;
      r := CheckMissingAspects(missing - LAZY);
      if r.Err? {
        return;
      }
      assert PIPELINE !in missing;
      RecomputeLazyAspects(missing);
      r := CheckMissingAspects(required - mAspects);
    }

    method RecomputeLazyAspects(aspects: set<Aspect>)
      requires Valid() && PIPELINE in mAspects && aspects <= LAZY && aspects !! mAspects
      requires VERTEX_BUFFERS in aspects || INDEX_BUFFER in aspects ==> mLastPipeline.value.Render?
      modifies this`mAspects
      ensures Valid()
      ensures mAspects == old(mAspects) + set a | a in aspects && Holds(Current(), a)
    {
      var p := mLastPipeline.value;
      if BIND_GROUPS in aspects {
        var matches := BindGroupsMatch(p);
        if matches {
          mAspects := mAspects + {BIND_GROUPS};
        }
      }
      if VERTEX_BUFFERS in aspects {
        if p.vertexBuffers.Keys <= mVertexBufferSlotsUsed {
          mAspects := mAspects + {VERTEX_BUFFERS};
        }
      }
      if INDEX_BUFFER in aspects && mIndexBufferSet {
        if !p.strip || mIndexFormat == p.stripFormat {
          mAspects := mAspects + {INDEX_BUFFER};
        }
      }
    }

    method BindGroupsMatch(p: Pipeline) returns (matches: bool)
      requires SettingsOk(Current()) && mLastPipeline == Some(p)
      ensures matches == Holds(Current(), BIND_GROUPS)
    {
      for i := 0 to |p.layouts|
        invariant forall j :: 0 <= j < i ==> GroupFits(p, mBindgroups, j)
      {
        if i !in mBindgroups || p.layouts[i] != mBindgroups[i].layout {
          assert !GroupFits(p, mBindgroups, i);
          return false;
        }
        var large := BufferSizesAtLeastAsBig(mBindgroups[i].unverifiedSizes, p.minSizes[i]);
        if !large {
          assert !GroupFits(p, mBindgroups, i);
          return false;
        }
      }
      return true;
    }

    /** The error for aspects that were found missing. None of the branches marked unreachable is reached. */
    method CheckMissingAspects(aspects: set<Aspect>) returns (r: Result)
      requires SettingsOk(Current())
      requires forall a :: a in aspects ==> !Holds(Current(), a)
      requires mLastPipeline.None? ==> aspects <= {PIPELINE}
      requires VERTEX_BUFFERS in aspects || INDEX_BUFFER in aspects ==> mLastPipeline.value.Render?
      ensures r.Ok? <==> aspects == {}
      ensures r.Err? ==> Explains(Current(), r.error)
    {
      if aspects == {} {
        return Ok;
      }
      if PIPELINE in aspects {
        return Err(NoPipeline);
      }
      if INDEX_BUFFER in aspects {
        if !mIndexBufferSet {
          return Err(NoIndexBuffer);
        }
        var p := mLastPipeline.value;
        if p.strip {
          if p.stripFormat == Undefined {
            return Err(NoStripIndexFormat);
          }
          if mIndexFormat != p.stripFormat {
            return Err(StripIndexFormatMismatch);
          }
        }
        assert false;
      }
      if VERTEX_BUFFERS in aspects {
        return Err(MissingVertexBuffers);
      }
      if BIND_GROUPS in aspects {
        var error := FindBadGroup(mLastPipeline.value);
        return Err(error);
      }
      assert false;
    }

    method FindBadGroup(p: Pipeline) returns (error: Error)
      requires SettingsOk(Current()) && mLastPipeline == Some(p) && !Holds(Current(), BIND_GROUPS)
      ensures Explains(Current(), error)
    {
      for i := 0 to |p.layouts|
        invariant forall j :: 0 <= j < i ==> GroupFits(p, mBindgroups, j)
      {
        if i !in mBindgroups {
          return NoBindGroup(i);
        }
        var requiredBGL := p.layouts[i];
        var currentBGL := mBindgroups[i].layout;
        if requiredBGL.token != 0 && currentBGL.token != requiredBGL.token {
          return NotFromThisPipeline(i);
        }
        if requiredBGL.token == 0 && currentBGL.token != 0 {
          return FromAnotherPipeline(i);
        }
        if requiredBGL != currentBGL {
          return LayoutMismatch(i);
        }
        var large := BufferSizesAtLeastAsBig(mBindgroups[i].unverifiedSizes, p.minSizes[i]);
        if !large {
          return BindingsTooSmall(i);
        }
      }
      assert false;
    }

    method SetPipeline(p: Pipeline)
      requires Valid() && PipelineOk(p)
      modifies this`mLastPipeline, this`mAspects
      ensures Valid() && Current() == old(Current()).(pipeline := Some(p)) && mAspects == {PIPELINE}
    {
      mLastPipeline := Some(p);
      mAspects := mAspects + {PIPELINE};
      mAspects := mAspects - LAZY;
    }

    method SetBindGroup(index: nat, g: BindGroup)
      requires Valid() && index < MAX_BIND_GROUPS && BindGroupOk(g)
      modifies this`mBindgroups, this`mAspects
      ensures Valid() && Current() == old(Current()).(groups := old(mBindgroups)[index := g])
      ensures mAspects == old(mAspects) - {BIND_GROUPS}
    {
      mBindgroups := mBindgroups[index := g];
      mAspects := mAspects - {BIND_GROUPS};
    }

    /** The remembered aspects are not touched. */
    method SetIndexBuffer(format: IndexFormat, size: nat)
      requires Valid() && format != Undefined
      modifies this`mIndexBufferSet, this`mIndexFormat, this`mIndexBufferSize
      ensures Valid() && Current() == old(Current()).(indexFormat := Some(format)) && mIndexBufferSize == size
    {
      mIndexBufferSet, mIndexFormat, mIndexBufferSize := true, format, size;
    }

    method SetVertexBuffer(slot: nat, size: nat)
      requires Valid() && slot < MAX_VERTEX_BUFFERS
      modifies this`mVertexBufferSlotsUsed, this`mVertexBufferSizes
      ensures Valid() && Current() == old(Current()).(slots := old(mVertexBufferSlotsUsed) + {slot})
      ensures mVertexBufferSizes == old(mVertexBufferSizes)[slot := size]
    {
      mVertexBufferSlotsUsed := mVertexBufferSlotsUsed + {slot};
      mVertexBufferSizes := mVertexBufferSizes[slot := size];
    }

    /** Whether every per-vertex (or per-instance) buffer holds elements first to first + count - 1. */
    method ValidateBufferInRange(perInstance: bool, count: nat, first: nat) returns (ok: bool)
      requires Valid() && mLastPipeline.Some? && mLastPipeline.value.Render?
      requires mLastPipeline.value.vertexBuffers.Keys <= mVertexBufferSlotsUsed
      requires count < UINT32_RANGE && first < UINT32_RANGE
      ensures ok <==> forall slot :: slot in mLastPipeline.value.vertexBuffers &&
                                     mLastPipeline.value.vertexBuffers[slot].perInstance == perInstance ==>
                        InRange(mLastPipeline.value.vertexBuffers[slot], mVertexBufferSizes[slot], first + count)
    {
      var buffers := mLastPipeline.value.vertexBuffers;
      for slot := 0 to MAX_VERTEX_BUFFERS
        invariant forall j :: j in buffers && buffers[j].perInstance == perInstance && j < slot ==>
                    InRange(buffers[j], mVertexBufferSizes[j], first + count)
      {
        if slot in buffers && buffers[slot].perInstance == perInstance {
          var arrayStride := buffers[slot].arrayStride;
          var bufferSize := mVertexBufferSizes[slot];
          if arrayStride == 0 {
            if buffers[slot].usedBytesInStride > bufferSize {
              return false;
            }
          } else {
            ProductFits(first + count, arrayStride);
            var requiredSize := (first + count) % UINT64_RANGE * arrayStride % UINT64_RANGE;
            if requiredSize > bufferSize {
              return false;
            }
          }
        }
      }
      return true;
    }

    method ValidateIndexBufferInRange(indexCount: nat, firstIndex: nat) returns (ok: bool)
      requires Valid() && mIndexBufferSet && indexCount < UINT32_RANGE && firstIndex < UINT32_RANGE
      ensures mIndexFormat == Uint16 ==> (ok <==> 2 * (firstIndex + indexCount) <= mIndexBufferSize)
      ensures mIndexFormat == Uint32 ==> (ok <==> 4 * (firstIndex + indexCount) <= mIndexBufferSize)
    {
      ProductFits(firstIndex + indexCount, IndexFormatSize(mIndexFormat));
      ok := (firstIndex + indexCount) % UINT64_RANGE * IndexFormatSize(mIndexFormat) % UINT64_RANGE <= mIndexBufferSize;
    }
  }

  function IndexFormatSize(format: IndexFormat): nat {
    match format
    case Undefined => 0
    case Uint16 => 2
    case Uint32 => 4
  }

  /** A buffer holds all elements before `end`. */
  ghost predicate InRange(info: VertexBufferInfo, size: nat, end: nat) {
    if info.arrayStride == 0 then info.usedBytesInStride <= size else end * info.arrayStride <= size
  }

  /** No 64-bit product of a sum of two 32-bit values and a stride wraps. */
  lemma ProductFits(elements: nat, stride: nat)
    requires elements < 2 * UINT32_RANGE && stride <= MAX_ARRAY_STRIDE
    ensures elements % UINT64_RANGE * stride % UINT64_RANGE == elements * stride
  {
    MulMonotone(elements, 2 * UINT32_RANGE, stride, MAX_ARRAY_STRIDE);
    SmallMod(elements, UINT64_RANGE);
    SmallMod(elements * stride, UINT64_RANGE);
  }

  /** Byte `byte` of an element: all bytes of its stride count, or those used if all elements are the same. */
  ghost predicate ElementByte(info: VertexBufferInfo, end: nat, element: nat, byte: nat) {
    if info.arrayStride == 0 then element == 0 && byte < info.usedBytesInStride
    else element < end && byte < info.arrayStride
  }

  /** A buffer is found in range exactly if it holds all these bytes. */
  lemma InRangeIff(info: VertexBufferInfo, size: nat, end: nat)
    ensures InRange(info, size, end) <==>
            forall element: nat, byte: nat :: ElementByte(info, end, element, byte) ==>
              element * info.arrayStride + byte < size
  {
    var stride := info.arrayStride;
    if InRange(info, size, end) {
      forall element: nat, byte: nat | ElementByte(info, end, element, byte)
        ensures element * stride + byte < size
      {
        if stride != 0 { MulMonotone(element + 1, end, stride, stride); }
      }
    } else if stride == 0 {
      assert ElementByte(info, end, 0, info.usedBytesInStride - 1);
    } else if end > 0 {
      assert ElementByte(info, end, end - 1, stride - 1);
      assert (end - 1) * stride + stride == end * stride;
    }
  }

  /** Each byte that an element before `end` uses lies in a buffer found in range. */
  lemma ElementInside(info: VertexBufferInfo, size: nat, end: nat, element: nat, byte: nat)
    requires InRange(info, size, end) && element < end && byte < info.usedBytesInStride
    requires info.arrayStride == 0 || info.usedBytesInStride <= info.arrayStride
    ensures element * info.arrayStride + byte < size
  {
    if info.arrayStride != 0 {
      MulMonotone(element + 1, end, info.arrayStride, info.arrayStride);
    }
  }

  // ----- Whole runs -----

  datatype Op =
    | OpSetPipeline(p: Pipeline)
    | OpSetBindGroup(index: nat, g: BindGroup)
    | OpSetVertexBuffer(slot: nat, size: nat)
    | OpSetIndexBuffer(format: IndexFormat, size: nat)
    | OpValidate(required: set<Aspect>)

  function After(s: Settings, op: Op): Settings {
    match op
    case OpSetPipeline(p) => s.(pipeline := Some(p))
    case OpSetBindGroup(index, g) => s.(groups := s.groups[index := g])
    case OpSetVertexBuffer(slot, _) => s.(slots := s.slots + {slot})
    case OpSetIndexBuffer(format, _) => s.(indexFormat := Some(format))
    case OpValidate(_) => s
  }

  function SettingsAfter(ops: seq<Op>): Settings {
    if ops == [] then Settings(None, map[], {}, None)
    else After(SettingsAfter(ops[..|ops| - 1]), ops[|ops| - 1])
  }

  /** One thing that can be set. */
  datatype Target = ThePipeline | TheGroup(index: nat) | TheSlot(slot: nat) | TheIndexBuffer | Nothing

  function TargetOf(op: Op): Target {
    match op
    case OpSetPipeline(_) => ThePipeline
    case OpSetBindGroup(index, _) => TheGroup(index)
    case OpSetVertexBuffer(slot, _) => TheSlot(slot)
    case OpSetIndexBuffer(_, _) => TheIndexBuffer
    case OpValidate(_) => Nothing
  }

  /** The settings are as the operation asked for. */
  ghost predicate Shows(s: Settings, op: Op) {
    match op
    case OpSetPipeline(p) => s.pipeline == Some(p)
    case OpSetBindGroup(index, g) => index in s.groups && s.groups[index] == g
    case OpSetVertexBuffer(slot, _) => slot in s.slots
    case OpSetIndexBuffer(format, _) => s.indexFormat == Some(format)
    case OpValidate(_) => true
  }

  ghost predicate Unset(s: Settings, target: Target) {
    match target
    case ThePipeline => s.pipeline == None
    case TheGroup(index) => index !in s.groups
    case TheSlot(slot) => slot !in s.slots
    case TheIndexBuffer => s.indexFormat == None
    case Nothing => true
  }

  /** The settings are those of the last operation on each thing. */
  lemma {:induction false} LastSetCounts(ops: seq<Op>, n: nat)
    requires n < |ops| && forall m :: n < m < |ops| ==> TargetOf(ops[m]) != TargetOf(ops[n])
    ensures Shows(SettingsAfter(ops), ops[n])
    decreases |ops|
  {
    if n < |ops| - 1 {
      var before := ops[..|ops| - 1];
      assert before[n] == ops[n];
      LastSetCounts(before, n);
    }
  }

  /** What no operation sets stays unset. */
  lemma {:induction false} NeverSet(ops: seq<Op>, target: Target)
    requires forall m :: 0 <= m < |ops| ==> TargetOf(ops[m]) != target
    ensures Unset(SettingsAfter(ops), target)
  {
    if ops != [] { NeverSet(ops[..|ops| - 1], target); }
  }

  /** What encoders pass on: well-formed objects, and draws only where render pipelines are set. */
  ghost predicate OpOk(s: Settings, op: Op) {
    match op
    case OpSetPipeline(p) => PipelineOk(p)
    case OpSetBindGroup(index, g) => index < MAX_BIND_GROUPS && BindGroupOk(g)
    case OpSetVertexBuffer(slot, _) => slot < MAX_VERTEX_BUFFERS
    case OpSetIndexBuffer(format, _) => format != Undefined
    case OpValidate(required) =>
      && (required == DISPATCH || required == DRAW || required == DRAW_INDEXED)
      && (required != DISPATCH && s.pipeline.Some? ==> s.pipeline.value.Render?)
  }

  ghost predicate RunOk(ops: seq<Op>) {
    ops != [] ==> RunOk(ops[..|ops| - 1]) && OpOk(SettingsAfter(ops[..|ops| - 1]), ops[|ops| - 1])
  }

  lemma {:induction false} RunSettingsOk(ops: seq<Op>)
    requires RunOk(ops)
    ensures SettingsOk(SettingsAfter(ops))
  {
    if ops != [] { RunSettingsOk(ops[..|ops| - 1]); }
  }

  lemma {:induction false} RunPrefixOk(ops: seq<Op>, n: nat)
    requires RunOk(ops) && n <= |ops|
    ensures RunOk(ops[..n])
    decreases |ops|
  {
    if n == |ops| {
      assert ops[..n] == ops;
    } else {
      RunPrefixOk(ops[..|ops| - 1], n);
      assert ops[..|ops| - 1][..n] == ops[..n];
    }
  }

  /** Since the last pipeline was set, an indexed draw was validated while the index format fitted. */
  ghost predicate IndexRemembered(ops: seq<Op>)
    requires RunOk(ops)
  {
    ops != [] &&
    var before, op := ops[..|ops| - 1], ops[|ops| - 1];
    !op.OpSetPipeline? && (
      || IndexRemembered(before)
      || (op.OpValidate? && INDEX_BUFFER in op.required && HoldsAfter(before, INDEX_BUFFER)))
  }

  ghost predicate HoldsAfter(ops: seq<Op>, a: Aspect)
    requires RunOk(ops)
  {
    RunSettingsOk(ops);
    Holds(SettingsAfter(ops), a)
  }

  ghost predicate AllHold(ops: seq<Op>, required: set<Aspect>)
    requires RunOk(ops)
  {
    forall a :: a in required ==> HoldsAfter(ops, a)
  }

  /** The rules for a dispatch: each bind group of the pipeline's layout is set and its buffers are large enough. */
  ghost predicate MayDispatch(s: Settings) {
    s.pipeline.Some? &&
    var p := s.pipeline.value;
    forall i {:trigger p.layouts[i]} :: 0 <= i < |p.layouts| ==>
      && i in s.groups && s.groups[i].layout == p.layouts[i]
      && i < |p.minSizes| && |s.groups[i].unverifiedSizes| == |p.minSizes[i]|
      && forall j :: 0 <= j < |p.minSizes[i]| ==> p.minSizes[i][j] <= s.groups[i].unverifiedSizes[j]
  }

  /** For a draw, a render pipeline's vertex buffers are set as well. */
  ghost predicate MayDraw(s: Settings) {
    && MayDispatch(s) && s.pipeline.value.Render?
    && forall slot :: slot in s.pipeline.value.vertexBuffers ==> slot in s.slots
  }

  /** For an indexed draw there is an index buffer too, for strips with the pipeline's index format. */
  ghost predicate MayDrawIndexed(s: Settings) {
    && MayDraw(s) && s.indexFormat.Some?
    && (s.pipeline.value.strip ==> s.indexFormat.value == s.pipeline.value.stripFormat)
  }

  /** The aspects required of each operation are its rules. */
  lemma OperationRules(ops: seq<Op>)
    requires RunOk(ops)
    ensures AllHold(ops, DISPATCH) <==> MayDispatch(SettingsAfter(ops))
    ensures AllHold(ops, DRAW) <==> MayDraw(SettingsAfter(ops))
    ensures AllHold(ops, DRAW_INDEXED) <==> MayDrawIndexed(SettingsAfter(ops))
  {
    RunSettingsOk(ops);
    GroupRules(ops);
    assert AllHold(ops, DISPATCH) <==> HoldsAfter(ops, PIPELINE) && HoldsAfter(ops, BIND_GROUPS);
    VertexRules(ops);
    assert AllHold(ops, DRAW) <==>
           HoldsAfter(ops, PIPELINE) && HoldsAfter(ops, BIND_GROUPS) && HoldsAfter(ops, VERTEX_BUFFERS);
    assert AllHold(ops, DRAW_INDEXED) <==>
           AllHold(ops, DRAW) && HoldsAfter(ops, INDEX_BUFFER);
  }

  lemma VertexRules(ops: seq<Op>)
    requires RunOk(ops)
    ensures var s := SettingsAfter(ops);
            HoldsAfter(ops, VERTEX_BUFFERS) <==>
            && s.pipeline.Some? && s.pipeline.value.Render?
            && forall slot :: slot in s.pipeline.value.vertexBuffers ==> slot in s.slots
  {
    RunSettingsOk(ops);
    var s := SettingsAfter(ops);
    if s.pipeline.Some? && s.pipeline.value.Render? { KeysInside(s.pipeline.value.vertexBuffers, s.slots); }
  }

  lemma KeysInside(used: map<int, VertexBufferInfo>, slots: set<int>)
    ensures used.Keys <= slots <==> forall slot :: slot in used ==> slot in slots
  {
    if forall slot :: slot in used ==> slot in slots {
      assert used.Keys == set slot | slot in used && slot in slots;
    }
    if used.Keys <= slots {
      forall slot | slot in used
        ensures slot in slots
      {
        assert slot in used.Keys;
      }
    }
  }

  lemma GroupRules(ops: seq<Op>)
    requires RunOk(ops)
    ensures HoldsAfter(ops, BIND_GROUPS) <==> MayDispatch(SettingsAfter(ops))
  {
    RunSettingsOk(ops);
    var s := SettingsAfter(ops);
    if s.pipeline.Some? {
      var p := s.pipeline.value;
      if MayDispatch(s) {
        forall i | 0 <= i < |p.layouts|
          ensures GroupFits(p, s.groups, i)
        {
          assert p.layouts[i] == p.layouts[i];
        }
      }
      if HoldsAfter(ops, BIND_GROUPS) {
        forall i | 0 <= i < |p.layouts|
          ensures i in s.groups && s.groups[i].layout == p.layouts[i]
          ensures SizesSuffice(s.groups[i].unverifiedSizes, p.minSizes[i])
        {
          assert GroupFits(p, s.groups, i);
        }
      }
    }
  }

  /** What the tracker answers after a run. */
  ghost predicate Accepts(ops: seq<Op>, required: set<Aspect>)
    requires RunOk(ops)
  {
    forall a :: a in required ==> HoldsAfter(ops, a) || (a == INDEX_BUFFER && IndexRemembered(ops))
  }

  /** The answer differs from a full check exactly when a remembered index format no longer fits. */
  lemma AcceptsIff(ops: seq<Op>, required: set<Aspect>)
    requires RunOk(ops)
    ensures Accepts(ops, required) == AllHold(ops, required) <==>
            !(&& INDEX_BUFFER in required && IndexRemembered(ops) && !HoldsAfter(ops, INDEX_BUFFER)
              && AllHold(ops, required - {INDEX_BUFFER}))
  {
    assert forall a :: a in required - {INDEX_BUFFER} <==> a in required && a != INDEX_BUFFER;
  }

  /** Behind a remembered index format, only formats that fit the pipeline as well are set. */
  ghost predicate FormatKept(ops: seq<Op>)
    requires RunOk(ops)
  {
    ops != [] ==>
      var before, op := ops[..|ops| - 1], ops[|ops| - 1];
      && FormatKept(before)
      && (op.OpSetIndexBuffer? && IndexRemembered(before) && SettingsAfter(before).pipeline.Some? ==>
            IndexFits(SettingsAfter(before).pipeline.value, op.format))
  }

  /** Unless a format that does not fit is set behind a remembered one, the tracker answers as a full check does. */
  lemma {:induction false} FormatKeptAgrees(ops: seq<Op>, required: set<Aspect>)
    requires RunOk(ops) && FormatKept(ops)
    ensures IndexRemembered(ops) ==> HoldsAfter(ops, INDEX_BUFFER)
    ensures Accepts(ops, required) == AllHold(ops, required)
  {
    if ops != [] {
      FormatKeptAgrees(ops[..|ops| - 1], required);
      RunSettingsOk(ops[..|ops| - 1]);
    }
  }

  ghost predicate Follows(t: CommandBufferStateTracker, ops: seq<Op>)
    requires RunOk(ops)
    reads t
  {
    t.Valid() && t.Current() == SettingsAfter(ops) && (INDEX_BUFFER in t.mAspects <==> IndexRemembered(ops))
  }

  method Step(t: CommandBufferStateTracker, ops: seq<Op>, n: nat) returns (r: Result)
    requires RunOk(ops) && n < |ops| && RunOk(ops[..n]) && RunOk(ops[..n + 1]) && Follows(t, ops[..n])
    modifies t
    ensures Follows(t, ops[..n + 1])
    ensures ops[n].OpValidate? ==> (r.Ok? <==> Accepts(ops[..n], ops[n].required))
  {
    assert ops[..n + 1][..n] == ops[..n];
    r := Ok;
    match ops[n]
    case OpSetPipeline(p) => t.SetPipeline(p);
    case OpSetBindGroup(index, g) => t.SetBindGroup(index, g);
    case OpSetVertexBuffer(slot, size) => t.SetVertexBuffer(slot, size);
    case OpSetIndexBuffer(format, size) => t.SetIndexBuffer(format, size);
    case OpValidate(required) => r := t.ValidateOperation(required);
  }

  /** Over any run, each validation answers as stated by Accepts. */
  method Replay(ops: seq<Op>) returns (results: seq<Result>)
    requires RunOk(ops)
    ensures |results| == |ops|
    ensures forall n :: 0 <= n < |ops| && ops[n].OpValidate? ==>
              RunOk(ops[..n]) && (results[n].Ok? <==> Accepts(ops[..n], ops[n].required))
  {
    var t := new CommandBufferStateTracker();
    results := [];
    for n := 0 to |ops|
      invariant RunOk(ops[..n]) && fresh(t) && Follows(t, ops[..n]) && |results| == n
      invariant forall m :: 0 <= m < n && ops[m].OpValidate? ==>
                  RunOk(ops[..m]) && (results[m].Ok? <==> Accepts(ops[..m], ops[m].required))
    {
      RunPrefixOk(ops, n + 1);
      var r := Step(t, ops, n);
      results := results + [r];
    }
  }

  /** A strip pipeline, an index format that fits, an indexed draw, and then another format. */
  ghost function StaleRun(p: Pipeline): seq<Op> {
    [OpSetPipeline(p), OpSetIndexBuffer(Uint16, 64), OpValidate(DRAW_INDEXED), OpSetIndexBuffer(Uint32, 64)]
  }

  /** Setting another index format goes unnoticed: the full check fails, the tracker accepts. */
  lemma IndexFormatChangeIsMissed(p: Pipeline)
    requires p == Render([], [], map[], true, Uint16)
    ensures RunOk(StaleRun(p))
    ensures Accepts(StaleRun(p), DRAW_INDEXED) && !AllHold(StaleRun(p), DRAW_INDEXED)
  {
    var ops := StaleRun(p);
    assert ops[..3][..2] == ops[..2] && ops[..2][..1] == ops[..1] && ops[..1][..0] == [];
    assert SettingsAfter(ops[..1]) == Settings(Some(p), map[], {}, None);
    assert SettingsAfter(ops[..2]) == Settings(Some(p), map[], {}, Some(Uint16));
    assert RunOk(ops[..1]) && RunOk(ops[..2]);
    assert HoldsAfter(ops[..2], INDEX_BUFFER);
    assert IndexRemembered(ops[..3]);
    assert SettingsAfter(ops) == Settings(Some(p), map[], {}, Some(Uint32));
    assert IndexRemembered(ops);
    assert !HoldsAfter(ops, INDEX_BUFFER);
  }
}
