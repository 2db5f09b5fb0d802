/**
 Bind group layouts (src/dawn_native/BindGroupLayout.cpp, BindingInfo.cpp, BindGroup.cpp): sorting,
 counting and numbering of bindings, equality of layouts and the memory of a bind group.
 */
module BindGroupLayouts {
  import opened DawnMath
  import opened BindingOrder
  import opened BindingCounts

  // ----- Packing -----

  function DynamicCount(s: seq<Entry>): nat {
    CountOf(s, DynamicUniforms) + CountOf(s, DynamicStorages)
  }

  /** In sorted entries the buffers come first, and of these the dynamic ones; the counts say how many. */
  lemma {:induction false} Packed(s: seq<Entry>)
    requires Sorted(s)
    ensures DynamicCount(s) <= CountOf(s, Buffers) <= |s| == CountOf(s, All)
    ensures forall i :: 0 <= i < |s| ==>
              && (s[i].layout.Buffer? <==> i < CountOf(s, Buffers))
              && (IsDynamic(s[i]) <==> i < DynamicCount(s))
  {
    if s != [] {
      var n := |s| - 1;
      var t := s[..n];
      Packed(t);
      forall i | 0 <= i < n
        ensures t[i] == s[i] && SortBindingsCompare(s[i], s[n])
      {
      }
      PackedStep(t, s[n]);
      assert t + [s[n]] == s;
    }
  }

  lemma PackedStep(t: seq<Entry>, e: Entry)
    requires DynamicCount(t) <= CountOf(t, Buffers) <= |t| == CountOf(t, All)
    requires forall i :: 0 <= i < |t| ==>
               && (t[i].layout.Buffer? <==> i < CountOf(t, Buffers))
               && (IsDynamic(t[i]) <==> i < DynamicCount(t))
               && SortBindingsCompare(t[i], e)
    ensures var s := t + [e];
            && DynamicCount(s) <= CountOf(s, Buffers) <= |s| == CountOf(s, All)
            && forall i :: 0 <= i < |s| ==>
                 && (s[i].layout.Buffer? <==> i < CountOf(s, Buffers))
                 && (IsDynamic(s[i]) <==> i < DynamicCount(s))
  {
    CountSnoc(t, e, All);
    CountSnoc(t, e, Buffers);
    CountSnoc(t, e, DynamicUniforms);
    CountSnoc(t, e, DynamicStorages);
    assert CountOf(t, Buffers) < |t| ==> !t[CountOf(t, Buffers)].layout.Buffer?;
    assert DynamicCount(t) < |t| ==> !IsDynamic(t[DynamicCount(t)]);
  }

  /** Dynamic buffers are in the order of their numbers, in which dynamic offsets are given. */
  lemma DynamicInOrder(s: seq<Entry>, i: nat, j: nat)
    requires Sorted(s) && i < j < DynamicCount(s)
    ensures j < |s| && IsDynamic(s[i]) && IsDynamic(s[j]) && s[i].binding < s[j].binding
  {
    Packed(s);
    assert SortBindingsCompare(s[i], s[j]);
  }

  // ----- Layouts -----

  datatype Layout = Layout(token: int, infos: seq<Entry>, numbers: map<int, int>, counts: Counts)

  function Infos(s: seq<Entry>): (infos: seq<Entry>)
    ensures |infos| == |s| && forall i :: 0 <= i < |s| ==> infos[i] == CreateBindGroupLayoutInfo(s[i])
  {
    seq(|s|, i requires 0 <= i < |s| => CreateBindGroupLayoutInfo(s[i]))
  }

  /** From binding numbers to indices. */
  function Numbers(s: seq<Entry>): map<int, int> {
    if s == [] then map[] else Numbers(s[..|s| - 1])[s[|s| - 1].binding := |s| - 1]
  }

  lemma {:induction false} NumbersFacts(s: seq<Entry>)
    requires DistinctBindings(s)
    ensures forall i :: 0 <= i < |s| ==> s[i].binding in Numbers(s) && Numbers(s)[s[i].binding] == i
    ensures forall n :: n in Numbers(s) ==> 0 <= Numbers(s)[n] < |s| && s[Numbers(s)[n]].binding == n
  {
    if s != [] {
      var t := s[..|s| - 1];
      NumbersFacts(t);
      forall i | 0 <= i < |t|
        ensures s[i].binding in Numbers(s) && Numbers(s)[s[i].binding] == i
      {
        assert t[i] == s[i];
      }
    }
  }

  /** The layout of a descriptor's entries. */
  ghost function Build(token: int, entries: seq<Entry>): Layout {
    var sorted := SortBindings(entries);
    Layout(token, Infos(sorted), Numbers(sorted), Recount(sorted))
  }

  /** A buffer in sorted entries has only buffers before it. */
  lemma BuffersFirst(sorted: seq<Entry>, i: nat)
    requires Sorted(sorted) && i < |sorted|
    ensures sorted[i].layout.Buffer? ==> CountOf(sorted[..i], Buffers) == i
  {
    var t := sorted[..i];
    Packed(t);
    assert SortedBefore(sorted, i);
    assert CountOf(t, Buffers) < i ==> !t[CountOf(t, Buffers)].layout.Buffer?;
  }

  ghost predicate SortedBefore(sorted: seq<Entry>, i: int)
    requires 0 <= i < |sorted|
  {
    forall j :: 0 <= j < i ==> SortBindingsCompare(sorted[..i][j], sorted[i])
  }

  class BindGroupLayoutBase {
    const mPipelineCompatibilityToken: int
    var mBindingInfo: seq<Entry>
    var mBindingMap: map<int, int>
    var mBindingCounts: Counts

    ghost function Model(): Layout
      reads this
    {
      Layout(mPipelineCompatibilityToken, mBindingInfo, mBindingMap, mBindingCounts)
    }

    constructor (token: int, entries: seq<Entry>)
      requires DistinctBindings(entries)
      ensures Model() == Build(token, entries)
    {
      mPipelineCompatibilityToken := token;
      mBindingInfo, mBindingMap, mBindingCounts := [], map[], NO_COUNTS;
      new;
      var sorted := SortBindings(entries);
      SortBindingsSorts(entries);
      for i := 0 to |sorted|
        invariant mBindingInfo == Infos(sorted[..i])
        invariant mBindingMap == Numbers(sorted[..i])
        invariant Agrees(mBindingCounts, sorted[..i])
      {
        AddBinding(sorted, i);
      }
      assert sorted[..|sorted|] == sorted;
      CountsUnique(mBindingCounts, Recount(sorted), sorted);
    }

    method AddBinding(sorted: seq<Entry>, i: nat)
      requires i < |sorted| && Sorted(sorted) && DistinctBindings(sorted)
      requires mBindingInfo == Infos(sorted[..i]) && mBindingMap == Numbers(sorted[..i])
      requires Agrees(mBindingCounts, sorted[..i])
      modifies this
      ensures mBindingInfo == Infos(sorted[..i + 1]) && mBindingMap == Numbers(sorted[..i + 1])
      ensures Agrees(mBindingCounts, sorted[..i + 1])
    {
      var binding := sorted[i];
      ghost var before, after := sorted[..i], sorted[..i + 1];
      assert after[..i] == before && after[i] == binding && after == before + [binding];
      mBindingInfo := mBindingInfo + [CreateBindGroupLayoutInfo(binding)];
      BuffersFirst(sorted, i);
      assert Counter(mBindingCounts, Buffers) == CountOf(before, Buffers);
      // Buffers are packed at the start.
      assert binding.layout.Buffer? ==> mBindingCounts.buffer == i;
      IncrementAgrees(mBindingCounts, before, binding);
      mBindingCounts := IncrementBindingCounts(mBindingCounts, binding);
      NumbersFacts(before);
      assert binding.binding !in mBindingMap;
      mBindingMap := mBindingMap[binding.binding := i];
    }

    /** The numbers of bindings in the infos are not compared, but the maps are. */
    method IsLayoutEqual(other: BindGroupLayoutBase, excludePipelineCompatibilityToken: bool) returns (equal: bool)
      ensures equal == SameLayout(Model(), other.Model(), excludePipelineCompatibilityToken)
    {
      if !excludePipelineCompatibilityToken && mPipelineCompatibilityToken != other.mPipelineCompatibilityToken {
        return false;
      }
      if |mBindingInfo| != |other.mBindingInfo| {
        return false;
      }
      for i := 0 to |mBindingInfo|
        invariant forall j :: 0 <= j < i ==> SameInfo(mBindingInfo[j], other.mBindingInfo[j])
      {
        if !SameInfo(mBindingInfo[i], other.mBindingInfo[i]) {
          return false;
        }
      }
      return mBindingMap == other.mBindingMap;
    }
  }

  predicate SameInfo(a: Entry, b: Entry) {
    a.visibility == b.visibility && a.layout == b.layout
  }

  predicate SameLayout(a: Layout, b: Layout, excludeToken: bool) {
    && (excludeToken || a.token == b.token)
    && |a.infos| == |b.infos| && (forall i :: 0 <= i < |a.infos| ==> SameInfo(a.infos[i], b.infos[i]))
    && a.numbers == b.numbers
  }

  // ----- Equality -----

  lemma InfosSorted(s: seq<Entry>)
    requires Sorted(s)
    ensures Sorted(Infos(s))
  {
    forall i, j | 0 <= i < j < |s|
      ensures SortBindingsCompare(Infos(s)[i], Infos(s)[j])
    {
      DefaultsKeepOrder(s[i], s[j]);
    }
  }

  lemma InfosElements(a: seq<Entry>, b: seq<Entry>)
    requires SameElements(a, b)
    ensures SameElements(Infos(a), Infos(b))
  {
    forall x | x in Infos(a)
      ensures x in Infos(b)
    {
      var i :| 0 <= i < |a| && Infos(a)[i] == x;
      assert a[i] in b;
      var j :| 0 <= j < |b| && b[j] == a[i];
      assert Infos(b)[j] == x;
    }
    forall x | x in Infos(b)
      ensures x in Infos(a)
    {
      var i :| 0 <= i < |b| && Infos(b)[i] == x;
      assert b[i] in a;
      var j :| 0 <= j < |a| && a[j] == b[i];
      assert Infos(a)[j] == x;
    }
  }

  lemma {:induction false} NumbersOfInfos(s: seq<Entry>)
    ensures Numbers(Infos(s)) == Numbers(s)
  {
    if s != [] {
      NumbersOfInfos(s[..|s| - 1]);
      assert Infos(s)[..|s| - 1] == Infos(s[..|s| - 1]);
    }
  }

  /** Defaults do not matter for counting. */
  lemma {:induction false} CountsOfInfos(s: seq<Entry>, p: Property)
    ensures CountOf(Infos(s), p) == CountOf(s, p)
  {
    if s != [] {
      CountsOfInfos(s[..|s| - 1], p);
      assert Infos(s)[..|s| - 1] == Infos(s[..|s| - 1]);
    }
  }

  lemma RecountInfos(s: seq<Entry>)
    ensures Recount(Infos(s)) == Recount(s)
  {
    forall p
      ensures Counter(Recount(s), p) == CountOf(Infos(s), p)
    {
      CountsOfInfos(s, p);
    }
    CountsUnique(Recount(s), Recount(Infos(s)), Infos(s));
  }

  /** Descriptors with the same bindings, in whatever order, give the same layout. */
  lemma SameBindingsSameLayout(token: int, a: seq<Entry>, b: seq<Entry>)
    requires DistinctBindings(a) && DistinctBindings(b) && SameElements(Infos(a), Infos(b))
    ensures Build(token, a) == Build(token, b)
  {
    var s, t := SortBindings(a), SortBindings(b);
    SortBindingsSorts(a);
    SortBindingsSorts(b);
    InfosSorted(s);
    InfosSorted(t);
    InfosElements(s, a);
    InfosElements(t, b);
    SortedUnique(Infos(s), Infos(t));
    NumbersOfInfos(s);
    NumbersOfInfos(t);
    RecountInfos(s);
    RecountInfos(t);
  }

  /** An undefined view dimension means 2D: the layouts are identical. */
  lemma UndefinedDimensionIs2D(token: int, entries: seq<Entry>, i: nat, e: Entry)
    requires DistinctBindings(entries) && i < |entries|
    requires e.binding == entries[i].binding && e.visibility == entries[i].visibility
    requires || (entries[i].layout.Texture? && entries[i].layout.textureDimension == 0 &&
                 e.layout == entries[i].layout.(textureDimension := 2))
             || (entries[i].layout.StorageTexture? && entries[i].layout.storageDimension == 0 &&
                 e.layout == entries[i].layout.(storageDimension := 2))
    ensures DistinctBindings(entries[i := e])
    ensures Build(token, entries) == Build(token, entries[i := e])
  {
    var changed := entries[i := e];
    assert Infos(changed) == Infos(entries);
    SameBindingsSameLayout(token, entries, changed);
  }

  /** In particular any permutation of the entries does. */
  lemma PermutedEntriesSameLayout(token: int, a: seq<Entry>, b: seq<Entry>)
    requires DistinctBindings(a) && DistinctBindings(b) && multiset(a) == multiset(b)
    ensures Build(token, a) == Build(token, b)
  {
    assert forall x :: x in a <==> x in multiset(a);
    assert forall x :: x in b <==> x in multiset(b);
    InfosElements(a, b);
    SameBindingsSameLayout(token, a, b);
  }

  /** Layouts are equal exactly when the descriptors describe the same bindings. */
  lemma LayoutEqualIff(tokenA: int, a: seq<Entry>, tokenB: int, b: seq<Entry>)
    requires DistinctBindings(a) && DistinctBindings(b)
    ensures SameLayout(Build(tokenA, a), Build(tokenB, b), false) <==>
            tokenA == tokenB && SameElements(Infos(a), Infos(b))
  {
    if tokenA == tokenB && SameElements(Infos(a), Infos(b)) {
      SameBindingsSameLayout(tokenA, a, b);
    }
    if SameLayout(Build(tokenA, a), Build(tokenB, b), false) {
      var s, t := SortBindings(a), SortBindings(b);
      SortBindingsSorts(a);
      SortBindingsSorts(b);
      NumbersFacts(s);
      NumbersFacts(t);
      forall i | 0 <= i < |s|
        ensures Infos(s)[i] == Infos(t)[i]
      {
        assert Numbers(t)[s[i].binding] == i;
      }
      assert Infos(s) == Infos(t);
      InfosElements(s, a);
      InfosElements(t, b);
    }
  }

  datatype Recorded = Recorded(index: int, visibility: nat, layout: Binding)

  ghost function Record(l: Layout, n: int): Recorded
    requires n in l.numbers && 0 <= l.numbers[n] < |l.infos|
  {
    var info := l.infos[l.numbers[n]];
    Recorded(l.numbers[n], info.visibility, info.layout)
  }

  /** What is recorded for the hash: the token and, by number, the index and the info without its number. */
  ghost function HashInput(l: Layout): (int, map<int, Recorded>)
    requires forall n :: n in l.numbers ==> 0 <= l.numbers[n] < |l.infos|
  {
    (l.token, map n | n in l.numbers :: Record(l, n))
  }

  /** Equal layouts record the same, so that they are found under the same hash. */
  lemma EqualLayoutsHashEqual(a: Layout, b: Layout)
    requires forall n :: n in a.numbers ==> 0 <= a.numbers[n] < |a.infos|
    requires SameLayout(a, b, false)
    ensures forall n :: n in b.numbers ==> 0 <= b.numbers[n] < |b.infos|
    ensures HashInput(a) == HashInput(b)
  {
    forall n | n in a.numbers
      ensures Record(a, n) == Record(b, n)
    {
      assert SameInfo(a.infos[a.numbers[n]], b.infos[a.numbers[n]]);
    }
    var x, y := HashInput(a).1, HashInput(b).1;
    assert x.Keys == y.Keys;
    assert forall n :: n in x ==> x[n] == Record(a, n) && y[n] == Record(b, n);
    assert x == y;
  }

  // ----- The memory of a bind group -----

  const SIZEOF_BUFFER_BINDING_DATA := 16
  const SIZEOF_UINT64 := 8

  /** References are as large as pointers, 4 or 8 bytes. */
  function GetBindingDataSize(c: Counts, refSize: nat): nat {
    var objectPointerStart := c.buffer * SIZEOF_BUFFER_BINDING_DATA;
    var bufferSizeArrayStart := Align(objectPointerStart + c.total * refSize, SIZEOF_UINT64);
    bufferSizeArrayStart + c.unverified * SIZEOF_UINT64
  }

  datatype Pointers = Pointers(bufferData: nat, bindings: nat, unverifiedBufferSizes: nat)

  function ComputeBindingDataPointers(c: Counts, refSize: nat, dataStart: nat): Pointers {
    var bindings := dataStart + c.buffer * SIZEOF_BUFFER_BINDING_DATA;
    Pointers(dataStart, bindings, Align(bindings + c.total * refSize, SIZEOF_UINT64))
  }

  lemma AlignShifted(start: nat, x: nat, a: nat)
    requires a >= 1 && start % a == 0
    ensures Align(start + x, a) == start + Align(x, a)
  {
    AlignIsLeast(x, a);
    AlignIsLeast(start + x, a);
    ModSum(start, Align(x, a), a);
    ModSum(Align(start + x, a), start, a);
  }

  lemma BufferDataMultiple(n: nat, refSize: nat)
    requires refSize == 4 || refSize == 8
    ensures n * SIZEOF_BUFFER_BINDING_DATA % 8 == 0 && n * SIZEOF_BUFFER_BINDING_DATA % refSize == 0
  {
    assert n * 16 == (2 * n) * 8 && n * 16 == (4 * n) * 4;
    MultipleMod(2 * n, 8);
    MultipleMod(4 * n, 4);
  }

  /** The three arrays are aligned, lie behind each other and end at the size that was reserved. */
  lemma SpansFillData(c: Counts, refSize: nat, dataStart: nat)
    requires (refSize == 4 || refSize == 8) && dataStart % 8 == 0
    ensures var p := ComputeBindingDataPointers(c, refSize, dataStart);
            && p.bufferData == dataStart && p.bufferData % 8 == 0
            && p.bufferData + c.buffer * SIZEOF_BUFFER_BINDING_DATA == p.bindings && p.bindings % refSize == 0
            && p.bindings + c.total * refSize <= p.unverifiedBufferSizes && p.unverifiedBufferSizes % 8 == 0
            && p.unverifiedBufferSizes + c.unverified * SIZEOF_UINT64 == dataStart + GetBindingDataSize(c, refSize)
  {
    var objectPointerStart := c.buffer * SIZEOF_BUFFER_BINDING_DATA;
    BufferDataMultiple(c.buffer, refSize);
    assert dataStart % refSize == 0 by { ModTransitive(dataStart, 8, refSize); }
    ModSum(dataStart, objectPointerStart, refSize);
    AlignShifted(dataStart, objectPointerStart + c.total * refSize, 8);
    AlignIsLeast(dataStart + objectPointerStart + c.total * refSize, 8);
  }

  // ----- Unverified buffer sizes -----

  /** The sizes of the unverified buffers, in order. */
  ghost function PackedSizes(infos: seq<Entry>, sizes: seq<nat>): (packed: seq<nat>)
    requires |sizes| >= |infos|
    ensures |packed| == CountOf(infos, UnverifiedBuffers)
  {
    if infos == [] then []
    else
      var n := |infos| - 1;
      PackedSizes(infos[..n], sizes) + if Unverified(infos[n]) then [sizes[n]] else []
  }

  /** The size of an unverified buffer is found at the number of unverified ones before it. */
  lemma {:induction false} PackedAt(infos: seq<Entry>, sizes: seq<nat>, i: nat)
    requires |sizes| >= |infos| && i < |infos| && Unverified(infos[i])
    ensures CountOf(infos[..i], UnverifiedBuffers) < |PackedSizes(infos, sizes)|
    ensures PackedSizes(infos, sizes)[CountOf(infos[..i], UnverifiedBuffers)] == sizes[i]
  {
    var n := |infos| - 1;
    if i < n {
      PackedAt(infos[..n], sizes, i);
      assert infos[..n][..i] == infos[..i];
    }
  }

  lemma PackStep(infos: seq<Entry>, sizes: seq<nat>, i: nat)
    requires i < |infos| <= |sizes|
    ensures PackedSizes(infos[..i + 1], sizes) ==
            PackedSizes(infos[..i], sizes) + if Unverified(infos[i]) then [sizes[i]] else []
  {
    assert infos[..i + 1][..i] == infos[..i];
  }

  lemma {:induction false} PackedPrefix(infos: seq<Entry>, sizes: seq<nat>, i: nat)
    requires i <= |infos| <= |sizes|
    ensures PackedSizes(infos[..i], sizes) <= PackedSizes(infos, sizes)
    decreases |infos| - i
  {
    if i == |infos| {
      assert infos[..i] == infos;
    } else {
      PackStep(infos, sizes, i);
      PackedPrefix(infos, sizes, i + 1);
    }
  }

  /** Only buffers can be unverified. */
  lemma {:induction false} NoMoreSizes(infos: seq<Entry>, sizes: seq<nat>, n: nat)
    requires n <= |infos| <= |sizes| && forall i :: n <= i < |infos| ==> !infos[i].layout.Buffer?
    ensures PackedSizes(infos[..n], sizes) == PackedSizes(infos, sizes)
    decreases |infos| - n
  {
    if n == |infos| {
      assert infos[..n] == infos;
    } else {
      PackStep(infos, sizes, n);
      NoMoreSizes(infos, sizes, n + 1);
    }
  }

  /** What a built layout says about its buffers. */
  lemma BuiltLayout(token: int, entries: seq<Entry>)
    requires DistinctBindings(entries)
    ensures var l := Build(token, entries);
            && |l.infos| == |entries| && Agrees(l.counts, l.infos) && Sorted(l.infos)
            && l.counts.buffer <= |l.infos|
            && (forall i :: 0 <= i < |l.infos| ==> (l.infos[i].layout.Buffer? <==> i < l.counts.buffer))
            && (forall i :: 0 <= i < |l.infos| ==>
                  (IsDynamic(l.infos[i]) <==> i < l.counts.dynamicUniform + l.counts.dynamicStorage))
            && (forall i, j :: 0 <= i < j < |l.infos| && IsDynamic(l.infos[j]) ==>
                  l.infos[i].binding < l.infos[j].binding)
  {
    var sorted := SortBindings(entries);
    SortBindingsSorts(entries);
    InfosSorted(sorted);
    RecountInfos(sorted);
    Packed(Infos(sorted));
    var infos := Infos(sorted);
    assert Counter(Recount(sorted), Buffers) == CountOf(infos, Buffers);
    assert Counter(Recount(sorted), DynamicUniforms) == CountOf(infos, DynamicUniforms);
    assert Counter(Recount(sorted), DynamicStorages) == CountOf(infos, DynamicStorages);
    forall i, j | 0 <= i < j < |infos| && IsDynamic(infos[j])
      ensures infos[i].binding < infos[j].binding
    {
      DynamicInOrder(infos, i, j);
    }
  }

  /** The loop of a bind group's constructor: it fills the array exactly. */
  method PackUnverifiedSizes(infos: seq<Entry>, counts: Counts, sizes: seq<nat>, unverifiedBufferSizes: array<nat>)
    requires Agrees(counts, infos) && counts.buffer <= |infos| == |sizes|
    requires forall i :: 0 <= i < |infos| ==> (infos[i].layout.Buffer? <==> i < counts.buffer)
    requires unverifiedBufferSizes.Length == counts.unverified
    modifies unverifiedBufferSizes
    ensures unverifiedBufferSizes[..] == PackedSizes(infos, sizes)
  {
    ghost var all := PackedSizes(infos, sizes);
    assert |all| == Counter(counts, UnverifiedBuffers);
    var packedIdx := 0;
    for bindingIndex := 0 to counts.buffer
      invariant packedIdx == |PackedSizes(infos[..bindingIndex], sizes)| <= |all| == unverifiedBufferSizes.Length
      invariant unverifiedBufferSizes[..packedIdx] == PackedSizes(infos[..bindingIndex], sizes)
    {
      PackStep(infos, sizes, bindingIndex);
      PackedPrefix(infos, sizes, bindingIndex + 1);
      if infos[bindingIndex].layout.minBindingSize == 0 {
        unverifiedBufferSizes[packedIdx] := sizes[bindingIndex];
        packedIdx := packedIdx + 1;
      }
    }
    NoMoreSizes(infos, sizes, counts.buffer);
    assert unverifiedBufferSizes[..] == unverifiedBufferSizes[..packedIdx];
  }
}
