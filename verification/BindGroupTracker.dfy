/**
 Lazy application of bind groups (src/dawn_native/BindGroupTracker.h). The backend binds only the
 groups marked dirty; after every Apply the encoder is as if all groups had been bound again.
 */
module BindGroups {
  import opened Collections

  const MAX_BIND_GROUPS := 4
  const MAX_DYNAMIC_BUFFERS := 12

  /** A pipeline layout object: its address and the bind group layouts of groups 0, 1, ... */
  datatype PipelineLayout = PipelineLayout(address: int, layouts: seq<int>)

  /** A bind group object: its address and the number of dynamic offsets its layout asks for. */
  datatype BindGroup = BindGroup(address: int, dynamicCount: nat)

  predicate LayoutOk(l: PipelineLayout) {
    |l.layouts| <= MAX_BIND_GROUPS
  }

  function Mask(l: PipelineLayout): set<int> {
    Below(|l.layouts|)
  }

  /** Both layouts have group i and agree on the layouts of the groups up to it. */
  ghost predicate Compatible(l: PipelineLayout, m: PipelineLayout, i: int) {
    && 0 <= i < |l.layouts| && i < |m.layouts|
    && forall j :: 0 <= j <= i ==> l.layouts[j] == m.layouts[j]
  }

  /** How many leading groups the two layouts share. */
  method GroupsInheritUpTo(l: PipelineLayout, other: PipelineLayout) returns (k: nat)
    requires LayoutOk(l)
    ensures k <= MAX_BIND_GROUPS
    ensures forall i :: 0 <= i < MAX_BIND_GROUPS ==> (i < k <==> Compatible(other, l, i))
  {
    for i := 0 to MAX_BIND_GROUPS
      invariant i <= |l.layouts| && i <= |other.layouts|
      invariant forall j :: 0 <= j < i ==> l.layouts[j] == other.layouts[j]
    {
      if i !in Mask(l) || i >= |other.layouts| || l.layouts[i] != other.layouts[i] {
        return i;
      }
    }
    return MAX_BIND_GROUPS;
  }

  // ----- The encoder -----

  /** What an encoder has bound to a group: with which offsets and under which layout. */
  datatype Bound = Bound(group: BindGroup, offsets: seq<int>, layout: PipelineLayout)

  /** Group i is bound under a layout that agrees with l up to i. */
  ghost predicate Held(bound: seq<Option<Bound>>, l: PipelineLayout, i: int)
    requires 0 <= i < |bound|
  {
    bound[i].Some? && Compatible(bound[i].value.layout, l, i)
  }

  /**
   The binding state of a Vulkan command buffer. Binding group i under a layout may disturb lower
   groups unless all of them were bound under layouts compatible for them, and higher groups unless
   also group i itself was ("Pipeline Layout Compatibility" in the Vulkan specification). A
   disturbed group has to be bound again.
   */
  class Encoder {
    var bound: seq<Option<Bound>>
    /** The groups that were bound, in order. */
    var log: seq<int>

    constructor ()
      ensures bound == seq(MAX_BIND_GROUPS, i => None) && log == []
    {
      bound, log := seq(MAX_BIND_GROUPS, i => None), [];
    }

    method Bind(l: PipelineLayout, i: nat, group: BindGroup, offsets: seq<int>)
      requires i < |bound|
      modifies this
      ensures |bound| == |old(bound)| && bound[i] == Some(Bound(group, offsets, l)) && log == old(log) + [i]
      ensures (forall j :: 0 <= j < i ==> Held(old(bound), l, j)) ==>
                && (forall j :: 0 <= j < i ==> bound[j] == old(bound)[j])
                && (Held(old(bound), l, i) ==> forall j :: i < j < |bound| ==> bound[j] == old(bound)[j])
    {
      var was := bound;
      var lowerKept := forall j :: 0 <= j < i ==> IsHeld(was, l, j);
      var higherKept := lowerKept && IsHeld(was, l, i);
      bound := seq(|was|, j requires 0 <= j < |was| =>
        if j == i then Some(Bound(group, offsets, l))
        else if (if j < i then lowerKept else higherKept) then was[j] else None);
      log := log + [i];
    }

    predicate IsHeld(bound: seq<Option<Bound>>, l: PipelineLayout, i: nat)
      requires i < |bound|
      ensures IsHeld(bound, l, i) == Held(bound, l, i)
    {
      bound[i].Some? && i < |bound[i].value.layout.layouts| && i < |l.layouts| &&
      forall j :: 0 <= j <= i ==> bound[i].value.layout.layouts[j] == l.layouts[j]
    }
  }

  // ----- The tracker -----

  /** What the application asked for at a group. */
  datatype Request = Request(group: BindGroup, offsets: seq<int>)

  /** Group i is held with what was last asked for. */
  ghost predicate UpToDate(bound: seq<Option<Bound>>, requests: seq<Option<Request>>, l: PipelineLayout, i: int)
    requires 0 <= i < |bound| == |requests|
  {
    Held(bound, l, i) && requests[i] == Some(Request(bound[i].value.group, bound[i].value.offsets))
  }

  /** All groups of a layout are up to date. */
  ghost predicate AllUpToDate(bound: seq<Option<Bound>>, requests: seq<Option<Request>>, l: PipelineLayout) {
    && |l.layouts| <= |bound| == |requests|
    && forall i :: 0 <= i < |l.layouts| ==> UpToDate(bound, requests, l, i)
  }

  /** A group not marked dirty is up to date, and all groups before it are held. */
  ghost predicate Ready(bound: seq<Option<Bound>>, requests: seq<Option<Request>>, dirty: set<int>,
                        l: PipelineLayout, i: int)
    requires 0 <= i < |bound| == |requests|
  {
    i !in dirty ==> UpToDate(bound, requests, l, i) && forall j :: 0 <= j < i ==> Held(bound, l, j)
  }

  /** Group i is held with the object last asked for; its dynamic offsets may differ. */
  ghost predicate SameObject(bound: seq<Option<Bound>>, requests: seq<Option<Request>>, l: PipelineLayout, i: int)
    requires 0 <= i < |bound| == |requests|
  {
    Held(bound, l, i) && requests[i].Some? && requests[i].value.group == bound[i].value.group
  }

  /** The members of a set below n, in increasing order. */
  ghost function Ascending(s: set<int>, n: nat): seq<int> {
    if n == 0 then [] else Ascending(s, n - 1) + if n - 1 in s then [n - 1] else []
  }

  class BindGroupTracker {
    const CanInheritBindGroups: bool
    var mDirtyBindGroups: set<int>
    var mDirtyBindGroupsObjectChangedOrIsDynamic: set<int>
    var mBindGroupLayoutsMask: set<int>
    var mBindGroups: seq<Option<BindGroup>>
    var mDynamicOffsetCounts: seq<nat>
    var mDynamicOffsets: seq<seq<int>>
    var mPipelineLayout: Option<PipelineLayout>
    var mLastAppliedPipelineLayout: Option<PipelineLayout>
    const encoder: Encoder

    /** The group and offsets last set at each index. */
    ghost var requests: seq<Option<Request>>

    ghost predicate SlotOk(i: int)
      requires 0 <= i < |mBindGroups| == |mDynamicOffsetCounts| == |mDynamicOffsets| == |requests|
      reads this`mBindGroups, this`mDynamicOffsetCounts, this`mDynamicOffsets, this`requests
    {
      && |mDynamicOffsets[i]| == MAX_DYNAMIC_BUFFERS && mDynamicOffsetCounts[i] <= MAX_DYNAMIC_BUFFERS
      && (mBindGroups[i].None? ==> requests[i].None?)
      && (mBindGroups[i].Some? ==>
            && mDynamicOffsetCounts[i] == mBindGroups[i].value.dynamicCount
            && requests[i] == Some(Request(mBindGroups[i].value, mDynamicOffsets[i][..mDynamicOffsetCounts[i]])))
    }

    ghost predicate Sized()
      reads this, encoder
    {
      && |mBindGroups| == |mDynamicOffsetCounts| == |mDynamicOffsets| == MAX_BIND_GROUPS
      && |requests| == |encoder.bound| == MAX_BIND_GROUPS
      && (forall i :: 0 <= i < MAX_BIND_GROUPS ==> SlotOk(i))
      && (mPipelineLayout.Some? ==> LayoutOk(mPipelineLayout.value))
      && mDirtyBindGroups <= mDirtyBindGroupsObjectChangedOrIsDynamic <= mBindGroupLayoutsMask
    }

    /** Every group of the last applied layout is held, and up to date unless marked dirty. */
    ghost predicate Valid()
      reads this, encoder
    {
      && Sized()
      && match mLastAppliedPipelineLayout
         case None => mBindGroupLayoutsMask == {}
         case Some(l) =>
           && LayoutOk(l) && mBindGroupLayoutsMask == Mask(l)
           && (forall i :: 0 <= i < |l.layouts| ==> Held(encoder.bound, l, i))
           && (forall i :: 0 <= i < |l.layouts| && i !in mDirtyBindGroupsObjectChangedOrIsDynamic ==>
                 UpToDate(encoder.bound, requests, l, i))
           && (forall i :: 0 <= i < |l.layouts| && i !in mDirtyBindGroups ==>
                 SameObject(encoder.bound, requests, l, i))
    }

    /** Has group i of the pipeline's layout to be bound again, given the groups marked dirty? */
    ghost predicate MustBind(dirty: set<int>, i: int)
      requires mPipelineLayout.Some?
      reads this`mPipelineLayout, this`mLastAppliedPipelineLayout
    {
      0 <= i < |mPipelineLayout.value.layouts| &&
      (if mLastAppliedPipelineLayout == mPipelineLayout then i in dirty
       else if CanInheritBindGroups && mLastAppliedPipelineLayout.Some?
       then i in dirty || !Compatible(mLastAppliedPipelineLayout.value, mPipelineLayout.value, i)
       else true)
    }

    ghost function Due(dirty: set<int>): set<int>
      requires mPipelineLayout.Some?
      reads this`mPipelineLayout, this`mLastAppliedPipelineLayout
    {
      set i | 0 <= i < |mPipelineLayout.value.layouts| && MustBind(dirty, i)
    }

    constructor (canInherit: bool, encoder: Encoder)
      requires |encoder.bound| == MAX_BIND_GROUPS
      ensures Valid() && this.encoder == encoder && CanInheritBindGroups == canInherit && mPipelineLayout == None
      ensures requests == seq(MAX_BIND_GROUPS, i => None)
    {
      CanInheritBindGroups, this.encoder := canInherit, encoder;
      mDirtyBindGroups, mDirtyBindGroupsObjectChangedOrIsDynamic, mBindGroupLayoutsMask := {}, {}, {};
      mBindGroups := seq(MAX_BIND_GROUPS, i => None);
      mDynamicOffsetCounts := seq(MAX_BIND_GROUPS, i => 0);
      mDynamicOffsets := seq(MAX_BIND_GROUPS, i => seq(MAX_DYNAMIC_BUFFERS, j => 0));
      mPipelineLayout, mLastAppliedPipelineLayout := None, None;
      requests := seq(MAX_BIND_GROUPS, i => None);
    }

    method OnSetBindGroup(index: nat, bindGroup: BindGroup, dynamicOffsets: seq<int>)
      requires Valid() && index < MAX_BIND_GROUPS
      requires |dynamicOffsets| == bindGroup.dynamicCount <= MAX_DYNAMIC_BUFFERS
      modifies this
      ensures Valid() && mPipelineLayout == old(mPipelineLayout)
      ensures requests == old(requests)[index := Some(Request(bindGroup, dynamicOffsets))]
      ensures mLastAppliedPipelineLayout == old(mLastAppliedPipelineLayout)
      ensures mDirtyBindGroups <= old(mDirtyBindGroups) + {index}
      ensures mDirtyBindGroupsObjectChangedOrIsDynamic <= old(mDirtyBindGroupsObjectChangedOrIsDynamic) + {index}
      ensures old(requests)[index] == Some(Request(bindGroup, [])) ==>
                && mDirtyBindGroups == old(mDirtyBindGroups)
                && mDirtyBindGroupsObjectChangedOrIsDynamic == old(mDirtyBindGroupsObjectChangedOrIsDynamic)
    {
      assert SlotOk(index);
      if index in mBindGroupLayoutsMask {
        if mBindGroups[index] != Some(bindGroup) {
          mDirtyBindGroups := mDirtyBindGroups + {index};
          mDirtyBindGroupsObjectChangedOrIsDynamic := mDirtyBindGroupsObjectChangedOrIsDynamic + {index};
        }
        if |dynamicOffsets| > 0 {
          mDirtyBindGroupsObjectChangedOrIsDynamic := mDirtyBindGroupsObjectChangedOrIsDynamic + {index};
        }
      }
      assert index !in mDirtyBindGroupsObjectChangedOrIsDynamic && index in mBindGroupLayoutsMask ==>
        requests[index] == Some(Request(bindGroup, dynamicOffsets));
      SetSlot(index, bindGroup, dynamicOffsets);
    }

    method SetSlot(index: nat, bindGroup: BindGroup, dynamicOffsets: seq<int>)
      requires |mBindGroups| == |mDynamicOffsetCounts| == |mDynamicOffsets| == |requests| == MAX_BIND_GROUPS
      requires index < MAX_BIND_GROUPS && |dynamicOffsets| == bindGroup.dynamicCount <= MAX_DYNAMIC_BUFFERS
      requires forall i :: 0 <= i < MAX_BIND_GROUPS ==> SlotOk(i)
      modifies this`mBindGroups, this`mDynamicOffsetCounts, this`mDynamicOffsets, this`requests
      ensures |mBindGroups| == |mDynamicOffsetCounts| == |mDynamicOffsets| == |requests| == MAX_BIND_GROUPS
      ensures forall i :: 0 <= i < MAX_BIND_GROUPS ==> SlotOk(i)
      ensures requests == old(requests)[index := Some(Request(bindGroup, dynamicOffsets))]
    {
      assert SlotOk(index);
      mBindGroups := mBindGroups[index := Some(bindGroup)];
      mDynamicOffsetCounts := mDynamicOffsetCounts[index := |dynamicOffsets|];
      mDynamicOffsets := mDynamicOffsets[index := SetDynamicOffsets(mDynamicOffsets[index], dynamicOffsets)];
      requests := requests[index := Some(Request(bindGroup, dynamicOffsets))];
      forall i | 0 <= i < MAX_BIND_GROUPS
        ensures SlotOk(i)
      {
        assert old(SlotOk(i));
      }
    }

    /** The leading offsets are overwritten, the others stay. */
    static function SetDynamicOffsets(data: seq<int>, offsets: seq<int>): (r: seq<int>)
      requires |offsets| <= |data|
      ensures |r| == |data| && r[..|offsets|] == offsets && r[|offsets|..] == data[|offsets|..]
    {
      offsets + data[|offsets|..]
    }

    method OnSetPipeline(layout: PipelineLayout)
      requires Valid() && LayoutOk(layout)
      modifies this`mPipelineLayout
      ensures Valid() && mPipelineLayout == Some(layout)
    {
      mPipelineLayout := Some(layout);
    }

    method BeforeApply()
      requires Valid() && mPipelineLayout.Some?
      modifies this`mDirtyBindGroups, this`mDirtyBindGroupsObjectChangedOrIsDynamic, this`mBindGroupLayoutsMask
      ensures Sized() && mBindGroupLayoutsMask == Mask(mPipelineLayout.value)
      ensures forall i :: 0 <= i < |mPipelineLayout.value.layouts| ==>
                Ready(encoder.bound, requests, mDirtyBindGroupsObjectChangedOrIsDynamic, mPipelineLayout.value, i)
      ensures mDirtyBindGroupsObjectChangedOrIsDynamic == Due(old(mDirtyBindGroupsObjectChangedOrIsDynamic))
      ensures mDirtyBindGroups == Due(old(mDirtyBindGroups))
      ensures forall i :: 0 <= i < |mPipelineLayout.value.layouts| && i !in mDirtyBindGroups ==>
                SameObject(encoder.bound, requests, mPipelineLayout.value, i)
    {
      var layout := mPipelineLayout.value;
      if mLastAppliedPipelineLayout == mPipelineLayout {
        StaysReady(encoder.bound, requests, mDirtyBindGroupsObjectChangedOrIsDynamic,
                   mDirtyBindGroupsObjectChangedOrIsDynamic, layout, layout);
        return;
      }
      mBindGroupLayoutsMask := Mask(layout);
      if CanInheritBindGroups && mLastAppliedPipelineLayout != None {
        var last := mLastAppliedPipelineLayout.value;
        var inherited := GroupsInheritUpTo(layout, last);
        var dirtiedGroups := Below(MAX_BIND_GROUPS) - Below(inherited);
        ghost var dirty := mDirtyBindGroupsObjectChangedOrIsDynamic;
        mDirtyBindGroups := (mDirtyBindGroups + dirtiedGroups) * mBindGroupLayoutsMask;
        mDirtyBindGroupsObjectChangedOrIsDynamic :=
          (mDirtyBindGroupsObjectChangedOrIsDynamic + dirtiedGroups) * mBindGroupLayoutsMask;
        DirtyAfterChange(old(mDirtyBindGroups), inherited, last, layout);
        DirtyAfterChange(dirty, inherited, last, layout);
        StaysReady(encoder.bound, requests, dirty, mDirtyBindGroupsObjectChangedOrIsDynamic, last, layout);
        StaysSameObject(encoder.bound, requests, old(mDirtyBindGroups), mDirtyBindGroups, last, layout);
      } else {
        mDirtyBindGroups := mBindGroupLayoutsMask;
        mDirtyBindGroupsObjectChangedOrIsDynamic := mBindGroupLayoutsMask;
      }
    }

    method AfterApply()
      requires Sized() && mPipelineLayout.Some? && mBindGroupLayoutsMask == Mask(mPipelineLayout.value)
      requires AllUpToDate(encoder.bound, requests, mPipelineLayout.value)
      modifies this`mDirtyBindGroups, this`mDirtyBindGroupsObjectChangedOrIsDynamic, this`mLastAppliedPipelineLayout
      ensures Valid() && mLastAppliedPipelineLayout == mPipelineLayout
      ensures mDirtyBindGroups == mDirtyBindGroupsObjectChangedOrIsDynamic == {}
    {
      mDirtyBindGroups := {};
      mDirtyBindGroupsObjectChangedOrIsDynamic := {};
      mLastAppliedPipelineLayout := mPipelineLayout;
      forall i | 0 <= i < |mPipelineLayout.value.layouts|
        ensures Held(encoder.bound, mPipelineLayout.value, i)
      {
        assert UpToDate(encoder.bound, requests, mPipelineLayout.value, i);
      }
    }

    /** Bind the dirty groups in increasing order. All groups of the layout end up as last set. */
    method Apply()
      requires Valid() && mPipelineLayout.Some?
      requires forall i :: 0 <= i < |mPipelineLayout.value.layouts| ==> requests[i].Some?
      modifies this`mDirtyBindGroups, this`mDirtyBindGroupsObjectChangedOrIsDynamic, this`mBindGroupLayoutsMask
      modifies this`mLastAppliedPipelineLayout, encoder
      ensures Valid() && AllUpToDate(encoder.bound, requests, mPipelineLayout.value)
      ensures mLastAppliedPipelineLayout == mPipelineLayout && mDirtyBindGroupsObjectChangedOrIsDynamic == {}
      ensures encoder.log == old(encoder.log) + Ascending(old(Due(mDirtyBindGroupsObjectChangedOrIsDynamic)),
                                                          |mPipelineLayout.value.layouts|)
    {
      BeforeApply();
      var layout := mPipelineLayout.value;
      ghost var due := mDirtyBindGroupsObjectChangedOrIsDynamic;
      for i := 0 to |layout.layouts|
        invariant Sized() && mPipelineLayout == Some(layout) && mBindGroupLayoutsMask == Mask(layout)
        invariant Progress(layout, i)
        invariant mDirtyBindGroupsObjectChangedOrIsDynamic == due
        invariant encoder.log == old(encoder.log) + Ascending(due, i)
      {
        assert Ready(encoder.bound, requests, mDirtyBindGroupsObjectChangedOrIsDynamic, layout, i);
        if i in mDirtyBindGroupsObjectChangedOrIsDynamic {
          BindDirty(layout, i);
        }
      }
      AfterApply();
    }

    /** All groups before i are up to date, and those from i on still ready. */
    ghost predicate Progress(layout: PipelineLayout, i: int)
      requires Sized() && 0 <= i <= |layout.layouts| <= MAX_BIND_GROUPS
      reads this, encoder
    {
      && (forall j :: 0 <= j < i ==> UpToDate(encoder.bound, requests, layout, j))
      && (forall j :: i <= j < |layout.layouts| ==>
            Ready(encoder.bound, requests, mDirtyBindGroupsObjectChangedOrIsDynamic, layout, j))
    }

    method BindDirty(layout: PipelineLayout, i: nat)
      requires Sized() && i < |layout.layouts| && LayoutOk(layout) && requests[i].Some?
      requires i in mDirtyBindGroupsObjectChangedOrIsDynamic && Progress(layout, i)
      modifies encoder
      ensures Sized() && Progress(layout, i + 1) && encoder.log == old(encoder.log) + [i]
    {
      assert SlotOk(i);
      ghost var was := encoder.bound;
      encoder.Bind(layout, i, mBindGroups[i].value, mDynamicOffsets[i][..mDynamicOffsetCounts[i]]);
      RebindProgress(was, encoder.bound, requests, mDirtyBindGroupsObjectChangedOrIsDynamic, layout, i);
    }
  }

  /** With another layout, dirty are the groups that were and those that the layouts do not share. */
  lemma DirtyAfterChange(dirty: set<int>, inherited: nat, last: PipelineLayout, l: PipelineLayout)
    requires LayoutOk(l) && inherited <= MAX_BIND_GROUPS
    requires forall i :: 0 <= i < |l.layouts| ==> (i < inherited <==> Compatible(last, l, i))
    ensures (dirty + (Below(MAX_BIND_GROUPS) - Below(inherited))) * Mask(l) ==
            set i | 0 <= i < |l.layouts| && (i in dirty || !Compatible(last, l, i))
  {
  }

  /** A group is ready for a new layout if it was clean and the layouts agree up to it, or else is dirty. */
  lemma StaysReady(bound: seq<Option<Bound>>, requests: seq<Option<Request>>, dirty: set<int>, dirty': set<int>,
                   last: PipelineLayout, l: PipelineLayout)
    requires |bound| == |requests| == MAX_BIND_GROUPS && LayoutOk(last) && LayoutOk(l)
    requires forall i :: 0 <= i < |last.layouts| ==> Held(bound, last, i)
    requires forall i :: 0 <= i < |last.layouts| && i !in dirty ==> UpToDate(bound, requests, last, i)
    requires forall i :: 0 <= i < |l.layouts| && i !in dirty' ==> i !in dirty && Compatible(last, l, i)
    ensures forall i :: 0 <= i < |l.layouts| ==> Ready(bound, requests, dirty', l, i)
  {
    forall i | 0 <= i < |l.layouts|
      ensures Ready(bound, requests, dirty', l, i)
    {
      if i !in dirty' {
        assert Compatible(last, l, i);
        forall j | 0 <= j <= i
          ensures Held(bound, l, j)
        {
          assert Held(bound, last, j) && Compatible(last, l, j);
        }
      }
    }
  }

  lemma StaysSameObject(bound: seq<Option<Bound>>, requests: seq<Option<Request>>, dirty: set<int>, dirty': set<int>,
                        last: PipelineLayout, l: PipelineLayout)
    requires |bound| == |requests| == MAX_BIND_GROUPS && LayoutOk(last) && LayoutOk(l)
    requires forall i :: 0 <= i < |last.layouts| && i !in dirty ==> SameObject(bound, requests, last, i)
    requires forall i :: 0 <= i < |l.layouts| && i !in dirty' ==> i !in dirty && Compatible(last, l, i)
    ensures forall i :: 0 <= i < |l.layouts| && i !in dirty' ==> SameObject(bound, requests, l, i)
  {
    forall i | 0 <= i < |l.layouts| && i !in dirty'
      ensures SameObject(bound, requests, l, i)
    {
      assert Compatible(last, l, i) && SameObject(bound, requests, last, i);
    }
  }

  /** Binding group i disturbs none of the groups that are up to date or still ready. */
  lemma RebindProgress(was: seq<Option<Bound>>, bound: seq<Option<Bound>>, requests: seq<Option<Request>>,
                       dirty: set<int>, l: PipelineLayout, i: nat)
    requires |was| == |bound| == |requests| == MAX_BIND_GROUPS && i < |l.layouts| && LayoutOk(l)
    requires bound[i].Some? && bound[i].value.layout == l
    requires requests[i] == Some(Request(bound[i].value.group, bound[i].value.offsets))
    requires (forall j :: 0 <= j < i ==> Held(was, l, j)) ==>
               && (forall j :: 0 <= j < i ==> bound[j] == was[j])
               && (Held(was, l, i) ==> forall j :: i < j < |bound| ==> bound[j] == was[j])
    requires forall j :: 0 <= j < i ==> UpToDate(was, requests, l, j)
    requires forall j :: i <= j < |l.layouts| ==> Ready(was, requests, dirty, l, j)
    ensures forall j :: 0 <= j <= i ==> UpToDate(bound, requests, l, j)
    ensures forall j :: i < j < |l.layouts| ==> Ready(bound, requests, dirty, l, j)
  {
    forall j | 0 <= j < i
      ensures Held(was, l, j)
    {
      assert UpToDate(was, requests, l, j);
    }
    forall j | 0 <= j <= i
      ensures UpToDate(bound, requests, l, j)
    {
      if j < i { assert UpToDate(was, requests, l, j) && bound[j] == was[j]; }
    }
    forall j | i < j < |l.layouts|
      ensures Ready(bound, requests, dirty, l, j)
    {
      if j !in dirty {
        assert Ready(was, requests, dirty, l, j);
        assert Held(was, l, i);
        forall m | 0 <= m < j
          ensures Held(bound, l, m)
        {
          assert m != i ==> Held(was, l, m) && bound[m] == was[m];
        }
      }
    }
  }

  // ----- Whole command buffers -----

  datatype Command =
    | SetBindGroup(index: nat, group: BindGroup, offsets: seq<int>)
    | SetPipeline(layout: PipelineLayout)
    | Draw

  /** What was last set at a group. */
  ghost function LastSet(commands: seq<Command>, i: int): Option<Request> {
    if commands == [] then None
    else
      var c := commands[|commands| - 1];
      if c.SetBindGroup? && c.index == i then Some(Request(c.group, c.offsets))
      else LastSet(commands[..|commands| - 1], i)
  }

  ghost function LastLayout(commands: seq<Command>): Option<PipelineLayout> {
    if commands == [] then None
    else
      var c := commands[|commands| - 1];
      if c.SetPipeline? then Some(c.layout) else LastLayout(commands[..|commands| - 1])
  }

  /** What encoder validation lets through: known groups, right offset counts, nothing missing at a draw. */
  ghost predicate CommandOk(commands: seq<Command>, n: int)
    requires 0 <= n < |commands|
  {
    match commands[n]
    case SetBindGroup(index, group, offsets) =>
      index < MAX_BIND_GROUPS && |offsets| == group.dynamicCount <= MAX_DYNAMIC_BUFFERS
    case SetPipeline(layout) => LayoutOk(layout)
    case Draw =>
      && LastLayout(commands[..n]).Some?
      && forall i :: 0 <= i < |LastLayout(commands[..n]).value.layouts| ==> LastSet(commands[..n], i).Some?
  }

  ghost predicate LastSetAt(commands: seq<Command>, requests: seq<Option<Request>>) {
    |requests| == MAX_BIND_GROUPS && forall i :: 0 <= i < MAX_BIND_GROUPS ==> requests[i] == LastSet(commands, i)
  }

  /** The encoder's state is the one the commands so far ask for. */
  ghost predicate Effective(commands: seq<Command>, bound: seq<Option<Bound>>) {
    LastLayout(commands).Some? &&
    exists requests :: LastSetAt(commands, requests) && AllUpToDate(bound, requests, LastLayout(commands).value)
  }

  ghost predicate Follows(tracker: BindGroupTracker, commands: seq<Command>)
    reads tracker, tracker.encoder
  {
    && tracker.Valid() && tracker.mPipelineLayout == LastLayout(commands) && LastSetAt(commands, tracker.requests)
    && (commands != [] && commands[|commands| - 1].Draw? ==>
          && tracker.mLastAppliedPipelineLayout == tracker.mPipelineLayout
          && tracker.mDirtyBindGroupsObjectChangedOrIsDynamic == {})
  }

  lemma {:induction false} AscendingNone(s: set<int>, n: nat)
    requires s == {}
    ensures Ascending(s, n) == []
  {
    if n > 0 { AscendingNone(s, n - 1); }
  }

  /** One command. A draw right after a draw binds nothing. */

  method Step(tracker: BindGroupTracker, commands: seq<Command>, n: nat)
    requires n < |commands| && CommandOk(commands, n) && Follows(tracker, commands[..n])
    modifies tracker, tracker.encoder
    ensures Follows(tracker, commands[..n + 1])
    ensures commands[n].Draw? ==> Effective(commands[..n + 1], tracker.encoder.bound)
    ensures commands[n].Draw? && n > 0 && commands[n - 1].Draw? ==> tracker.encoder.log == old(tracker.encoder.log)
  {
    assert commands[..n + 1][..n] == commands[..n];
    if commands[n].Draw? && n > 0 && commands[n - 1].Draw? {
      AscendingNone(tracker.Due(tracker.mDirtyBindGroupsObjectChangedOrIsDynamic),
                    |tracker.mPipelineLayout.value.layouts|);
    }
    match commands[n]
    case SetBindGroup(index, group, offsets) => tracker.OnSetBindGroup(index, group, offsets);
    case SetPipeline(layout) => tracker.OnSetPipeline(layout);
    case Draw => tracker.Apply();
  }

  /** Over any accepted command sequence, each draw finds the groups that were last set. */
  method Replay(canInherit: bool, commands: seq<Command>) returns (encoder: Encoder)
    requires forall n :: 0 <= n < |commands| ==> CommandOk(commands, n)
    ensures commands != [] && commands[|commands| - 1].Draw? ==> Effective(commands, encoder.bound)
  {
    encoder := new Encoder();
    var tracker := new BindGroupTracker(canInherit, encoder);
    for n := 0 to |commands|
      invariant Follows(tracker, commands[..n]) && tracker.encoder == encoder
      invariant fresh(tracker) && fresh(encoder)
      invariant n > 0 && commands[n - 1].Draw? ==> Effective(commands[..n], encoder.bound)
    {
      Step(tracker, commands, n);
    }
    assert commands[..|commands|] == commands;
  }
}
