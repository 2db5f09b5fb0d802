/**
 Bind groups (src/dawn_native/BindGroup.cpp): validation of the entries against a layout, and the
 constructor that stores them in the layout's order.
 */
module BindGroupObjects {
  import opened BindingOrder
  import opened BindingCounts
  import opened LayoutValidation
  import opened BindGroupLayouts
  import opened Collections

  const WHOLE_SIZE := 0xFFFF_FFFF_FFFF_FFFF
  const UINT64_RANGE := 0x1_0000_0000_0000_0000

  /** `resource` is the buffer, view or sampler; offset and size matter for buffers only. */
  datatype GroupEntry = GroupEntry(binding: int, resource: int, offset: nat, size: nat, bufferSize: nat)

  datatype BufferData = BufferData(offset: nat, size: nat)

  /** The device's limits on bound buffers. */
  datatype Limits = Limits(maxUniformSize: nat, maxStorageSize: nat, uniformAlignment: nat, storageAlignment: nat)

  predicate LimitsOk(limits: Limits) {
    limits.uniformAlignment >= 1 && limits.storageAlignment >= 1
  }

  ghost predicate NumberOk(l: Layout, n: int)
    requires n in l.numbers
  {
    0 <= l.numbers[n] < |l.infos| && l.infos[l.numbers[n]].binding == n
  }

  ghost predicate IndexOk(l: Layout, i: int)
    requires 0 <= i < |l.infos|
  {
    && l.infos[i].binding in l.numbers && l.numbers[l.infos[i].binding] == i
    && (l.infos[i].layout.Buffer? <==> i < l.counts.buffer)
  }

  /** Binding numbers and indices correspond one to one, with the buffers first. */
  ghost predicate LayoutOk(l: Layout) {
    && (forall n {:trigger NumberOk(l, n)} :: n in l.numbers ==> NumberOk(l, n))
    && (forall i {:trigger IndexOk(l, i)} :: 0 <= i < |l.infos| ==> IndexOk(l, i))
    && Agrees(l.counts, l.infos) && l.counts.buffer <= |l.infos|
  }

  lemma BuiltLayoutOk(token: int, entries: seq<Entry>)
    requires DistinctBindings(entries)
    ensures LayoutOk(Build(token, entries))
  {
    BuiltLayout(token, entries);
    SortBindingsSorts(entries);
    NumbersFacts(SortBindings(entries));
  }

  /**
   Layouts built from accepted lists with at most k bindings that no stage sees meet the asserted
   bound if and only if k is at most 4.
   */
  lemma BuiltLayoutFitsIff(token: int, k: nat, allowInternalBinding: bool)
    ensures (forall s :: Accepted(s, allowInternalBinding) && UnseenIn(s) <= k ==>
               |Build(token, s).infos| <= MAX_BINDINGS) <==>
            k <= MAX_STORAGE_TEXTURES
  {
    LimitsBoundBindingsIff(k, allowInternalBinding);
    forall s | Accepted(s, allowInternalBinding)
      ensures |Build(token, s).infos| == |s|
    {
      BuiltLayout(token, s);
    }
  }

  /** Different numbers have different indices, all below the number of bindings. */
  lemma DistinctIndices(l: Layout, m: int, n: int)
    requires LayoutOk(l) && m in l.numbers && n in l.numbers
    ensures 0 <= l.numbers[m] < |l.infos|
    ensures m != n ==> l.numbers[m] != l.numbers[n]
  {
    assert NumberOk(l, m) && NumberOk(l, n);
  }

  /** The first n entries name bindings of the layout, none of them twice. */
  ghost predicate PrefixOk(l: Layout, entries: seq<GroupEntry>, n: int)
    requires 0 <= n <= |entries|
  {
    && (forall i :: 0 <= i < n ==> entries[i].binding in l.numbers)
    && (forall i, j :: 0 <= i < j < n ==> entries[i].binding != entries[j].binding)
  }

  /** Each entry names a binding of the layout, none is named twice, and there are as many as bindings. */
  ghost predicate EntriesOk(l: Layout, entries: seq<GroupEntry>) {
    |entries| == |l.infos| && PrefixOk(l, entries, |entries|)
  }

  /** The index that an entry sets. */
  ghost function IndexOf(l: Layout, e: GroupEntry): int {
    if e.binding in l.numbers then l.numbers[e.binding] else -1
  }

  ghost function Indices(l: Layout, entries: seq<GroupEntry>, n: nat): set<int>
    requires n <= |entries|
  {
    set i | 0 <= i < n :: IndexOf(l, entries[i])
  }

  lemma IndicesSnoc(l: Layout, entries: seq<GroupEntry>, n: nat)
    requires n < |entries|
    ensures Indices(l, entries, n + 1) == Indices(l, entries, n) + {IndexOf(l, entries[n])}
  {
  }

  lemma FullSubset(s: set<int>, n: nat)
    requires |s| == n && forall i :: i in s ==> 0 <= i < n
    ensures s == Below(n)
  {
    BelowCount(n);
    assert s <= Below(n);
    if s != Below(n) {
      assert s < Below(n);
      ProperSubsetSmaller(s, Below(n));
    }
  }

  lemma ProperSubsetSmaller(s: set<int>, t: set<int>)
    requires s < t
    ensures |s| < |t|
  {
    assert t == s + (t - s) && t - s != {};
    assert |t| == |s| + |t - s|;
  }

  /** The next entry's index is taken exactly if its number is. */
  lemma NextIndex(l: Layout, entries: seq<GroupEntry>, i: nat)
    requires LayoutOk(l) && i < |entries| && PrefixOk(l, entries, i) && entries[i].binding in l.numbers
    ensures IndexOf(l, entries[i]) !in Indices(l, entries, i) <==> PrefixOk(l, entries, i + 1)
    ensures !PrefixOk(l, entries, i + 1) ==> !PrefixOk(l, entries, |entries|)
  {
    forall j | 0 <= j < i
      ensures entries[j].binding != entries[i].binding ==> IndexOf(l, entries[j]) != IndexOf(l, entries[i])
    {
      DistinctIndices(l, entries[j].binding, entries[i].binding);
    }
  }

  datatype Outcome = Valid | Invalid | AssertionFails

  /**
   `typeOk` is what the check of an entry against its binding's type says. The program keeps
   bindingsSet in MAX_BINDINGS bits and asserts that the layout has no more bindings.
   */
  method ValidateBindGroupDescriptor(l: Layout, entries: seq<GroupEntry>, typeOk: seq<bool>) returns (r: Outcome)
    requires LayoutOk(l) && |typeOk| == |entries|
    ensures r == AssertionFails <==> |entries| == |l.infos| > MAX_BINDINGS
    ensures r == Valid <==>
            && EntriesOk(l, entries) && |l.infos| <= MAX_BINDINGS
            && forall i :: 0 <= i < |entries| ==> typeOk[i]
  {
    if |entries| != |l.infos| {
      return Invalid;
    }
    if |l.infos| > MAX_BINDINGS {
      return AssertionFails;
    }
    var bindingsSet: set<int> := {};
    for i := 0 to |entries|
      invariant PrefixOk(l, entries, i) && bindingsSet == Indices(l, entries, i)
      invariant forall j :: 0 <= j < i ==> typeOk[j]
    {
      if entries[i].binding !in l.numbers {
        return Invalid;
      }
      var bindingIndex := l.numbers[entries[i].binding];
      NextIndex(l, entries, i);
      DistinctIndices(l, entries[i].binding, entries[i].binding);
      assert 0 <= bindingIndex < MAX_BINDINGS;
      if bindingIndex in bindingsSet {
        return Invalid;
      }
      IndicesSnoc(l, entries, i);
      bindingsSet := bindingsSet + {bindingIndex};
      if !typeOk[i] {
        return Invalid;
      }
    }
    IndicesCount(l, entries, |entries|);
    // The number of bindings set is the number of bindings.
    FullSubset(bindingsSet, |l.infos|);
    assert forall i :: 0 <= i < |l.infos| ==> i in bindingsSet;
    return Valid;
  }

  /** If entries are accepted, every binding of the layout is set, by exactly one of them. */
  lemma EveryBindingSetOnce(l: Layout, entries: seq<GroupEntry>, index: nat) returns (i: nat)
    requires LayoutOk(l) && EntriesOk(l, entries) && index < |l.infos|
    ensures i < |entries| && l.numbers[entries[i].binding] == index
    ensures forall j :: 0 <= j < |entries| && l.numbers[entries[j].binding] == index ==> j == i
  {
    var indices := Indices(l, entries, |entries|);
    IndicesCount(l, entries, |entries|);
    FullSubset(indices, |l.infos|);
    assert index in indices;
    i :| 0 <= i < |entries| && IndexOf(l, entries[i]) == index;
    forall j | 0 <= j < |entries| && j != i
      ensures l.numbers[entries[j].binding] != index
    {
      DistinctIndices(l, entries[j].binding, entries[i].binding);
    }
  }

  lemma {:induction false} IndicesCount(l: Layout, entries: seq<GroupEntry>, n: nat)
    requires LayoutOk(l) && n <= |entries| && PrefixOk(l, entries, n)
    ensures |Indices(l, entries, n)| == n && forall k :: k in Indices(l, entries, n) ==> 0 <= k < |l.infos|
  {
    if n > 0 {
      IndicesCount(l, entries, n - 1);
      NextIndex(l, entries, n - 1);
      IndicesSnoc(l, entries, n - 1);
      DistinctIndices(l, entries[n - 1].binding, entries[n - 1].binding);
    }
  }

  /** The size bound for an entry; 64-bit arithmetic wraps. */
  function BoundSize(e: GroupEntry): nat {
    if e.size == WHOLE_SIZE then (e.bufferSize - e.offset) % UINT64_RANGE else e.size
  }

  /** A range of a buffer is what an entry asks for: the given size, or all behind the offset. */
  ghost predicate Covers(e: GroupEntry, data: BufferData) {
    && data.offset == e.offset
    && (e.size != WHOLE_SIZE ==> data.size == e.size)
    && (e.size == WHOLE_SIZE && e.offset <= e.bufferSize < UINT64_RANGE ==> data.offset + data.size == e.bufferSize)
  }

  /** The resource of an entry is at its index, and so is its range if it binds a buffer. */
  ghost predicate Stored(l: Layout, e: GroupEntry, bindings: seq<Option<int>>, bufferData: seq<BufferData>)
    requires LayoutOk(l) && e.binding in l.numbers
  {
    assert NumberOk(l, e.binding);
    var k := l.numbers[e.binding];
    && |bindings| == |l.infos| && bindings[k] == Some(e.resource)
    && |bufferData| == l.counts.buffer
    && (k < l.counts.buffer ==> Covers(e, bufferData[k]))
  }

  /** Of the checks on a bound buffer, those on its range; `minBindingSize` is that of the binding. */
  predicate ValidateBufferBinding(limits: Limits, e: GroupEntry, bufferType: BufferType, minBindingSize: nat)
    requires LimitsOk(limits)
  {
    var (maxBindingSize, alignment) :=
      match bufferType
      case Uniform => (limits.maxUniformSize, limits.uniformAlignment)
      case _ => (limits.maxStorageSize, limits.storageAlignment);
    if e.offset > e.bufferSize then false
    else
      var bindingSize := BoundSize(e);
      if bindingSize > e.bufferSize || bindingSize == 0 || e.offset > e.bufferSize - bindingSize then false
      else e.offset % alignment == 0 && minBindingSize <= bindingSize <= maxBindingSize
  }

  /** A range that a shader may use: not empty, inside the buffer, aligned, and of an allowed size. */
  ghost predicate Usable(limits: Limits, data: BufferData, bufferSize: nat, bufferType: BufferType, minSize: nat)
    requires LimitsOk(limits)
  {
    && data.size > 0 && data.offset + data.size <= bufferSize && minSize <= data.size
    && (bufferType == Uniform ==>
          data.size <= limits.maxUniformSize && data.offset % limits.uniformAlignment == 0)
    && (bufferType != Uniform ==>
          data.size <= limits.maxStorageSize && data.offset % limits.storageAlignment == 0)
  }

  /** The checks accept an entry exactly if the range it covers is usable. */
  lemma ValidBufferIff(limits: Limits, e: GroupEntry, data: BufferData, bufferType: BufferType, minSize: nat)
    requires LimitsOk(limits) && e.bufferSize < WHOLE_SIZE && Covers(e, data)
    ensures ValidateBufferBinding(limits, e, bufferType, minSize) <==>
            e.offset <= e.bufferSize && Usable(limits, data, e.bufferSize, bufferType, minSize)
  {
    if e.size == WHOLE_SIZE && e.offset <= e.bufferSize { assert BoundSize(e) == e.bufferSize - e.offset; }
  }

  /** Entry i binds a buffer that passes the checks of its binding. */
  ghost predicate BufferAccepted(limits: Limits, l: Layout, e: GroupEntry)
    requires LimitsOk(limits) && LayoutOk(l) && e.binding in l.numbers
  {
    assert NumberOk(l, e.binding);
    assert IndexOk(l, l.numbers[e.binding]);
    var k := l.numbers[e.binding];
    k < l.counts.buffer ==>
      && e.bufferSize < WHOLE_SIZE
      && ValidateBufferBinding(limits, e, l.infos[k].layout.bufferType, l.infos[k].layout.minBindingSize)
  }

  /** In the bind group of accepted entries, every buffer binding has a usable range of its buffer. */
  lemma BoundRangesUsable(limits: Limits, l: Layout, entries: seq<GroupEntry>, bindings: seq<Option<int>>,
                          bufferData: seq<BufferData>, k: nat) returns (i: nat)
    requires LimitsOk(limits) && LayoutOk(l) && EntriesOk(l, entries) && k < l.counts.buffer
    requires forall j :: 0 <= j < |entries| ==>
               Stored(l, entries[j], bindings, bufferData) && BufferAccepted(limits, l, entries[j])
    ensures i < |entries| && l.infos[k].binding == entries[i].binding
    ensures k < |bindings| && bindings[k] == Some(entries[i].resource)
    ensures k < |bufferData| && l.infos[k].layout.Buffer?
    ensures Usable(limits, bufferData[k], entries[i].bufferSize, l.infos[k].layout.bufferType,
                   l.infos[k].layout.minBindingSize)
  {
    i := EveryBindingSetOnce(l, entries, k);
    var e := entries[i];
    assert NumberOk(l, e.binding) && IndexOk(l, k);
    assert Stored(l, e, bindings, bufferData) && BufferAccepted(limits, l, e);
    ValidBufferIff(limits, e, bufferData[k], l.infos[k].layout.bufferType, l.infos[k].layout.minBindingSize);
  }

  /** The constructor of a bind group. No binding is written twice, none stays empty. */
  method Construct(l: Layout, entries: seq<GroupEntry>, unverifiedBufferSizes: array<nat>)
      returns (bindings: seq<Option<int>>, bufferData: seq<BufferData>)
    requires LayoutOk(l) && EntriesOk(l, entries) && unverifiedBufferSizes.Length == l.counts.unverified
    modifies unverifiedBufferSizes
    ensures forall i :: 0 <= i < |entries| ==> Stored(l, entries[i], bindings, bufferData)
    ensures forall k :: 0 <= k < |l.infos| ==> |bindings| == |l.infos| && bindings[k].Some?
    ensures |bufferData| == l.counts.buffer
    ensures unverifiedBufferSizes[..] == PackedSizes(l.infos, Sizes(bufferData, |l.infos|))
  {
    bindings := seq(|l.infos|, k => None);
    bufferData := seq(l.counts.buffer, k => BufferData(0, 0));
    for i := 0 to |entries|
      invariant |bindings| == |l.infos| && |bufferData| == l.counts.buffer
      invariant forall j :: 0 <= j < i ==> Stored(l, entries[j], bindings, bufferData)
      invariant forall k :: 0 <= k < |l.infos| && bindings[k].Some? ==> k in Indices(l, entries, i)
    {
      IndicesSnoc(l, entries, i);
      var bindingIndex := l.numbers[entries[i].binding];
      forall j | 0 <= j <= i
        ensures 0 <= l.numbers[entries[j].binding] < |l.infos|
        ensures j < i ==> IndexOf(l, entries[j]) != bindingIndex
      {
        DistinctIndices(l, entries[j].binding, entries[i].binding);
      }
      assert bindings[bindingIndex] == None;
      bindings := bindings[bindingIndex := Some(entries[i].resource)];
      if bindingIndex < l.counts.buffer {
        bufferData := bufferData[bindingIndex := BufferData(entries[i].offset, BoundSize(entries[i]))];
      }
    }
    forall k | 0 <= k < |l.infos|
      ensures bindings[k].Some?
    {
      var i := EveryBindingSetOnce(l, entries, k);
      assert Stored(l, entries[i], bindings, bufferData);
    }
    forall i | 0 <= i < |l.infos|
      ensures l.infos[i].layout.Buffer? <==> i < l.counts.buffer
    {
      assert IndexOk(l, i);
    }
    PackUnverifiedSizes(l.infos, l.counts, Sizes(bufferData, |l.infos|), unverifiedBufferSizes);
  }

  /** The sizes of the bound buffers, by index. */
  function Sizes(bufferData: seq<BufferData>, n: nat): (sizes: seq<nat>)
    ensures |sizes| == n
    ensures forall k :: 0 <= k < n && k < |bufferData| ==> sizes[k] == bufferData[k].size
  {
    seq(n, k requires 0 <= k < n => if k < |bufferData| then bufferData[k].size else 0)
  }
}
