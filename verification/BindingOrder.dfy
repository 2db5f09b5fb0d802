/**
 The order of bindings in a bind group layout (src/dawn_native/BindGroupLayout.cpp). The comparator
 looks at different members for different kinds of bindings; it is the lexicographic order of one
 key, so that a set of entries has exactly one sorted sequence.
 */
module BindingOrder {
  datatype BufferType = Uniform | Storage | InternalStorage | ReadOnlyStorage

  /** The one member of an entry that is set. Enumeration values are numbers; 0 is Undefined. */
  datatype Binding =
    | Buffer(bufferType: BufferType, hasDynamicOffset: bool, minBindingSize: nat)
    | Sampler(samplerType: nat)
    | Texture(sampleType: nat, textureDimension: nat, multisampled: bool)
    | StorageTexture(access: nat, format: nat, storageDimension: nat)
    | ExternalTexture

  /** `visibility` is a bit mask of shader stages. Binding infos are entries with defaults filled in. */
  datatype Entry = Entry(binding: int, visibility: nat, layout: Binding)

  const DIMENSION_2D := 2

  function BindingType(b: Binding): nat {
    match b
    case Buffer(_, _, _) => 0
    case Sampler(_) => 1
    case Texture(_, _, _) => 2
    case StorageTexture(_, _, _) => 3
    case ExternalTexture => 4
  }

  function WithDefaults(b: Binding): Binding {
    match b
    case Texture(_, dimension, _) => if dimension == 0 then b.(textureDimension := DIMENSION_2D) else b
    case StorageTexture(_, _, dimension) => if dimension == 0 then b.(storageDimension := DIMENSION_2D) else b
    case _ => b
  }

  function CreateBindGroupLayoutInfo(e: Entry): Entry {
    e.(layout := WithDefaults(e.layout))
  }

  predicate IsDynamic(e: Entry) {
    e.layout.Buffer? && e.layout.hasDynamicOffset
  }

  predicate SortBindingsCompare(a: Entry, b: Entry) {
    if a.layout.Buffer? != b.layout.Buffer? then a.layout.Buffer?
    else if a.layout.Buffer? && IsDynamic(a) != IsDynamic(b) then IsDynamic(a)
    else if a.layout.Buffer? && IsDynamic(a) then a.binding < b.binding
    else
      var aInfo, bInfo := CreateBindGroupLayoutInfo(a), CreateBindGroupLayoutInfo(b);
      if BindingType(aInfo.layout) != BindingType(bInfo.layout)
      then BindingType(aInfo.layout) < BindingType(bInfo.layout)
      else if a.visibility != b.visibility then a.visibility < b.visibility
      else if DifferInMembers(aInfo.layout, bInfo.layout) then MembersLess(aInfo.layout, bInfo.layout)
      else a.binding < b.binding
  }

  /** The comparison of the members of two bindings of one type; not all members take part. */
  predicate DifferInMembers(a: Binding, b: Binding)
    requires BindingType(a) == BindingType(b)
  {
    match a
    case Buffer(_, _, size) => size != b.minBindingSize
    case Sampler(samplerType) => samplerType != b.samplerType
    case Texture(sampleType, dimension, multisampled) =>
      multisampled != b.multisampled || dimension != b.textureDimension || sampleType != b.sampleType
    case StorageTexture(access, format, dimension) =>
      access != b.access || dimension != b.storageDimension || format != b.format
    case ExternalTexture => false
  }

  predicate MembersLess(a: Binding, b: Binding)
    requires BindingType(a) == BindingType(b)
  {
    match a
    case Buffer(_, _, size) => size < b.minBindingSize
    case Sampler(samplerType) => samplerType < b.samplerType
    case Texture(sampleType, dimension, multisampled) =>
      if multisampled != b.multisampled then !multisampled
      else if dimension != b.textureDimension then dimension < b.textureDimension
      else sampleType < b.sampleType
    case StorageTexture(access, format, dimension) =>
      if access != b.access then access < b.access
      else if dimension != b.storageDimension then dimension < b.storageDimension
      else format < b.format
    case ExternalTexture => false
  }

  // ----- The key behind the comparator -----

  datatype Key = Key(group: int, kind: int, visibility: int, first: int, second: int, third: int, binding: int)

  predicate KeyLess(a: Key, b: Key) {
    if a.group != b.group then a.group < b.group
    else if a.kind != b.kind then a.kind < b.kind
    else if a.visibility != b.visibility then a.visibility < b.visibility
    else if a.first != b.first then a.first < b.first
    else if a.second != b.second then a.second < b.second
    else if a.third != b.third then a.third < b.third
    else a.binding < b.binding
  }

  /** Dynamic buffers first, by number alone; then other buffers; then the rest. */
  function KeyOf(e: Entry): Key {
    if IsDynamic(e) then Key(0, 0, 0, 0, 0, 0, e.binding)
    else
      match WithDefaults(e.layout)
      case Buffer(_, _, size) => Key(1, 0, e.visibility, size, 0, 0, e.binding)
      case Sampler(samplerType) => Key(2, 1, e.visibility, samplerType, 0, 0, e.binding)
      case Texture(sampleType, dimension, multisampled) =>
        Key(2, 2, e.visibility, if multisampled then 1 else 0, dimension, sampleType, e.binding)
      case StorageTexture(access, format, dimension) => Key(2, 3, e.visibility, access, dimension, format, e.binding)
      case ExternalTexture => Key(2, 4, e.visibility, 0, 0, 0, e.binding)
  }

  lemma CompareIsKeyOrder(a: Entry, b: Entry)
    ensures SortBindingsCompare(a, b) <==> KeyLess(KeyOf(a), KeyOf(b))
  {
    match a.layout
    case Buffer(_, _, _) =>
    case Sampler(_) =>
    case Texture(_, _, _) =>
    case StorageTexture(_, _, _) =>
    case ExternalTexture =>
  }

  /** A strict order on all entries that decides between any two with different numbers. */
  lemma StrictTotalOrder(a: Entry, b: Entry, c: Entry)
    ensures !SortBindingsCompare(a, a)
    ensures SortBindingsCompare(a, b) ==> !SortBindingsCompare(b, a)
    ensures SortBindingsCompare(a, b) && SortBindingsCompare(b, c) ==> SortBindingsCompare(a, c)
    ensures a.binding != b.binding ==> SortBindingsCompare(a, b) || SortBindingsCompare(b, a)
  {
    CompareIsKeyOrder(a, a);
    CompareIsKeyOrder(a, b);
    CompareIsKeyOrder(b, a);
    CompareIsKeyOrder(b, c);
    CompareIsKeyOrder(a, c);
  }

  /** Filling in defaults does not change the order. */
  lemma DefaultsKeepOrder(a: Entry, b: Entry)
    ensures SortBindingsCompare(CreateBindGroupLayoutInfo(a), CreateBindGroupLayoutInfo(b)) == SortBindingsCompare(a, b)
  {
    CompareIsKeyOrder(a, b);
    CompareIsKeyOrder(CreateBindGroupLayoutInfo(a), CreateBindGroupLayoutInfo(b));
  }

  // ----- Sorting -----

  ghost predicate DistinctBindings(s: seq<Entry>) {
    forall i, j :: 0 <= i < j < |s| ==> s[i].binding != s[j].binding
  }

  ghost predicate Sorted(s: seq<Entry>) {
    forall i, j :: 0 <= i < j < |s| ==> SortBindingsCompare(s[i], s[j])
  }

  ghost predicate SameElements(a: seq<Entry>, b: seq<Entry>) {
    forall x :: x in a <==> x in b
  }

  /** There is only one sorted sequence of given entries, whatever algorithm sorts. */
  lemma {:induction false} SortedUnique(a: seq<Entry>, b: seq<Entry>)
    requires Sorted(a) && Sorted(b) && SameElements(a, b)
    ensures a == b
  {
    assert |b| > 0 ==> b[0] in a;
    if a != [] {
      assert a[0] in b;
      var j :| 0 <= j < |b| && b[j] == a[0];
      assert b[0] in a;
      var i :| 0 <= i < |a| && a[i] == b[0];
      StrictTotalOrder(a[0], b[0], a[0]);
      assert a[0] == b[0];
      TailElements(a);
      TailElements(b);
      assert SameElements(a[1..], b[1..]);
      SortedUnique(a[1..], b[1..]);
    }
  }

  lemma TailElements(a: seq<Entry>)
    requires Sorted(a) && a != []
    ensures forall x :: x in a[1..] <==> x in a && x != a[0]
    ensures Sorted(a[1..])
  {
    StrictTotalOrder(a[0], a[0], a[0]);
    forall x | x in a && x != a[0]
      ensures x in a[1..]
    {
      var i :| 0 <= i < |a| && a[i] == x;
      assert a[1..][i - 1] == x;
    }
    forall x | x in a[1..]
      ensures x in a && x != a[0]
    {
      var i :| 0 <= i < |a[1..]| && a[1..][i] == x;
      assert a[i + 1] == x;
    }
  }

  function Insert(e: Entry, s: seq<Entry>): seq<Entry> {
    if s == [] then [e]
    else if SortBindingsCompare(e, s[0]) then [e] + s
    else [s[0]] + Insert(e, s[1..])
  }

  /** What std::sort does to the entries. */
  function SortBindings(s: seq<Entry>): seq<Entry> {
    if s == [] then [] else Insert(s[0], SortBindings(s[1..]))
  }

  lemma {:induction false} InsertElements(e: Entry, s: seq<Entry>)
    ensures multiset(Insert(e, s)) == multiset(s) + multiset{e}
    ensures forall x :: x in Insert(e, s) <==> x == e || x in s
  {
    if s != [] {
      assert s == [s[0]] + s[1..];
      if !SortBindingsCompare(e, s[0]) { InsertElements(e, s[1..]); }
    }
  }

  lemma {:induction false} InsertSorted(e: Entry, s: seq<Entry>)
    requires Sorted(s) && forall i :: 0 <= i < |s| ==> s[i].binding != e.binding
    ensures Sorted(Insert(e, s))
  {
    if s != [] {
      var r := Insert(e, s);
      StrictTotalOrder(e, s[0], e);
      if SortBindingsCompare(e, s[0]) {
        forall j | 1 <= j < |r|
          ensures SortBindingsCompare(e, r[j])
        {
          StrictTotalOrder(e, s[0], s[j - 1]);
        }
      } else {
        InsertSorted(e, s[1..]);
        InsertElements(e, s[1..]);
        forall j | 1 <= j < |r|
          ensures SortBindingsCompare(s[0], r[j])
        {
          assert r[j] in Insert(e, s[1..]);
          if r[j] != e {
            var i :| 0 <= i < |s[1..]| && s[1..][i] == r[j];
            assert s[i + 1] == r[j];
          }
        }
      }
    }
  }

  lemma {:induction false} SortBindingsSorts(s: seq<Entry>)
    requires DistinctBindings(s)
    ensures Sorted(SortBindings(s)) && multiset(SortBindings(s)) == multiset(s) && |SortBindings(s)| == |s|
    ensures SameElements(SortBindings(s), s) && DistinctBindings(SortBindings(s))
  {
    if s != [] {
      SortBindingsSorts(s[1..]);
      var t := SortBindings(s[1..]);
      assert s == [s[0]] + s[1..];
      InsertElements(s[0], t);
      forall i | 0 <= i < |t|
        ensures t[i].binding != s[0].binding
      {
        assert t[i] in s[1..];
      }
      InsertSorted(s[0], t);
      LengthOfMultiset(SortBindings(s), s);
      SortedIsDistinct(SortBindings(s), s);
    }
  }

  lemma LengthOfMultiset(a: seq<Entry>, b: seq<Entry>)
    requires multiset(a) == multiset(b)
    ensures |a| == |b|
  {
    assert |multiset(a)| == |a| && |multiset(b)| == |b|;
  }

  lemma SortedIsDistinct(r: seq<Entry>, s: seq<Entry>)
    requires Sorted(r) && SameElements(r, s) && DistinctBindings(s)
    ensures DistinctBindings(r)
  {
    forall i, j | 0 <= i < j < |r|
      ensures r[i].binding != r[j].binding
    {
      StrictTotalOrder(r[i], r[i], r[i]);
      assert r[i] in s && r[j] in s;
    }
  }
}
