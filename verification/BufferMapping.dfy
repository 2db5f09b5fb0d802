/**
 Mapping of buffers (src/dawn_native/Buffer.cpp). An application callback can run in the middle of
 Unmap, Destroy, MapAsync and the completion of a request, and may itself call any of them. A run is
 therefore a sequence of calls and of returns from callbacks, with a stack of the calls that wait
 for their callback.
 */
module BufferMapping {
  import opened Collections

  datatype MapState = Unmapped | Mapped | MappedAtCreation | Destroyed

  datatype Mode = Mode(read: bool, write: bool)

  datatype Status = Success | Error | DeviceLost | DestroyedBeforeCallback | UnmappedBeforeCallback

  /** What a request asks to map. */
  datatype Range = Range(mode: Mode, offset: nat, size: nat)

  /** `callback` says whether the callback of request lastMapID is still to be called. */
  datatype Buffer = Buffer(size: nat, mapRead: bool, mapWrite: bool, state: MapState, alive: bool,
                           lastMapID: nat, callback: bool, mapped: Range)

  /** The callback of an accepted request is called. */
  datatype Fired = Fired(request: nat, status: Status)

  const WHOLE_MAP_SIZE := 0xFFFF_FFFF_FFFF_FFFF

  // ----- One buffer -----

  predicate ValidMapAsync(b: Buffer, lost: bool, r: Range) {
    && !lost && r.offset <= b.size && r.offset % 8 == 0 && r.size % 4 == 0 && r.size <= b.size - r.offset
    && b.state == Unmapped && r.mode.read != r.mode.write
    && (if r.mode.read then b.mapRead else b.mapWrite)
  }

  function WholeSize(b: Buffer, r: Range): Range {
    if r.size == WHOLE_MAP_SIZE && r.offset <= b.size then r.(size := b.size - r.offset) else r
  }

  /** A validated request; its number is new. */
  function Accept(b: Buffer, r: Range, hasCallback: bool): Buffer {
    b.(lastMapID := b.lastMapID + 1, mapped := r, callback := hasCallback, state := Mapped)
  }

  function CallMapCallback(b: Buffer, lost: bool, mapID: nat, status: Status): (Buffer, Option<Fired>) {
    if b.callback && mapID == b.lastMapID
    then (b.(callback := false), Some(Fired(mapID, if lost then DeviceLost else status)))
    else (b, None)
  }

  /** The end of UnmapInternal, after a callback has returned. */
  function FinishUnmap(b: Buffer): Buffer {
    b.(callback := false, state := Unmapped)
  }

  predicate ValidUnmap(b: Buffer, lost: bool) {
    !lost && (b.state == Mapped || b.state == MappedAtCreation)
  }

  /** The range is aligned, inside the mapped one, and may be accessed that way. */
  predicate CanGetMappedRange(b: Buffer, writable: bool, offset: nat, size: nat) {
    if offset % 8 != 0 || size % 4 != 0 then false
    else if size > b.mapped.size || offset < b.mapped.offset then false
    else if offset - b.mapped.offset > b.mapped.size - size then false
    else
      match b.state
      case MappedAtCreation => true
      case Mapped => !writable || b.mapped.mode.write
      case Unmapped => false
      case Destroyed => false
  }

  // ----- The buffer and the calls around it -----

  /** A call that waits for its callback to return. */
  datatype Frame = FromUnmap | FromDestroy | FromMapAsync | FromCompletion

  /**
   `tasks` are the requests whose completion is queued, `requests` all accepted ones, `wanted` those
   that came with a callback, `log` the callbacks called so far and `dropped` those forgotten.
   */
  datatype System = System(buffer: Buffer, lost: bool, tasks: set<nat>, stack: seq<Frame>, log: seq<Fired>,
                           requests: map<nat, Range>, wanted: set<nat>, dropped: set<nat>)

  datatype Action =
    | MapAsync(range: Range, hasCallback: bool, implFails: bool)
    | Complete(id: nat)
    | Unmap
    | Destroy
    | LoseDevice
    | Return

  function Init(size: nat, mapRead: bool, mapWrite: bool, mappedAtCreation: bool): System {
    System(Buffer(size, mapRead, mapWrite, if mappedAtCreation then MappedAtCreation else Unmapped, true, 0, false,
                  Range(Mode(false, false), 0, if mappedAtCreation then size else 0)),
           false, {}, [], [], map[], {}, {})
  }

  /** Continue with the result of CallMapCallback: run the callback, if it is to be called. */
  function Deliver(s: System, result: (Buffer, Option<Fired>), frame: Frame): System {
    match result.1
    case None => s.(buffer := result.0)
    case Some(fired) => s.(buffer := result.0, log := s.log + [fired], stack := s.stack + [frame])
  }

  /** Completions refer to queued tasks; Destroy holds a lock, so it does not nest. */
  predicate Enabled(s: System, a: Action) {
    match a
    case Complete(id) => id in s.tasks
    case Destroy => FromDestroy !in s.stack
    case Return => s.stack != []
    case _ => true
  }

  function MapAsyncStep(s: System, range: Range, hasCallback: bool, implFails: bool): System {
    var r := WholeSize(s.buffer, range);
    if !ValidMapAsync(s.buffer, s.lost, r) then
      if hasCallback then s.(stack := s.stack + [FromMapAsync]) else s
    else
      var b := Accept(s.buffer, r, hasCallback);
      var id := b.lastMapID;
      var t := s.(buffer := b, requests := s.requests[id := r],
                  wanted := if hasCallback then s.wanted + {id} else s.wanted);
      if implFails then Deliver(t, CallMapCallback(b, s.lost, id, DeviceLost), FromMapAsync)
      else t.(tasks := s.tasks + {id})
  }

  /** UnmapInternal up to the callback, or to its end if there is none to call. */
  function UnmapStep(s: System, status: Status, frame: Frame): System {
    if s.buffer.state == Mapped then
      var result := CallMapCallback(s.buffer, s.lost, s.buffer.lastMapID, status);
      if result.1.Some? then Deliver(s, result, frame) else FinishFrame(s, frame)
    else s.(buffer := s.buffer.(state := if frame == FromDestroy then Destroyed else Unmapped))
  }

  /** The rest of the waiting call. */
  function FinishFrame(s: System, frame: Frame): System {
    match frame
    case FromUnmap =>
      s.(buffer := FinishUnmap(s.buffer),
         dropped := if s.buffer.callback then s.dropped + {s.buffer.lastMapID} else s.dropped)
    case FromDestroy =>
      s.(buffer := FinishUnmap(s.buffer).(state := Destroyed),
         dropped := if s.buffer.callback then s.dropped + {s.buffer.lastMapID} else s.dropped)
    case FromMapAsync => s
    case FromCompletion => s
  }

  function Step(s: System, a: Action): System
    requires Enabled(s, a)
  {
    match a
    case MapAsync(range, hasCallback, implFails) => MapAsyncStep(s, range, hasCallback, implFails)
    case Complete(id) =>
      Deliver(s.(tasks := s.tasks - {id}), CallMapCallback(s.buffer, s.lost, id, Success), FromCompletion)
    case Unmap => if ValidUnmap(s.buffer, s.lost) then UnmapStep(s, UnmappedBeforeCallback, FromUnmap) else s
    case Destroy =>
      if s.buffer.alive then
        UnmapStep(s.(buffer := s.buffer.(alive := false)), DestroyedBeforeCallback, FromDestroy)
      else s
    case LoseDevice => s.(lost := true)
    case Return => FinishFrame(s.(stack := s.stack[..|s.stack| - 1]), s.stack[|s.stack| - 1])
  }

  // ----- What every step keeps -----

  ghost function FiredSet(log: seq<Fired>): set<nat> {
    set i | 0 <= i < |log| :: log[i].request
  }

  ghost function Pending(s: System): set<nat> {
    if s.buffer.callback then {s.buffer.lastMapID} else {}
  }

  ghost predicate RangeOk(b: Buffer) {
    && (b.state == Mapped || b.state == MappedAtCreation ==> b.mapped.offset + b.mapped.size <= b.size)
    && (b.state == Mapped ==> b.mapped.mode.read != b.mapped.mode.write)
  }

  /** Every accepted request with a callback is called once, pending or dropped, and only one of these. */
  ghost predicate Accounted(s: System) {
    && s.wanted == FiredSet(s.log) + s.dropped + Pending(s)
    && FiredSet(s.log) !! s.dropped && FiredSet(s.log) !! Pending(s) && s.dropped !! Pending(s)
    && (forall i, j :: 0 <= i < j < |s.log| ==> s.log[i].request != s.log[j].request)
  }

  ghost predicate Inv(s: System) {
    && RangeOk(s.buffer) && Accounted(s)
    && (s.buffer.callback ==> s.buffer.state == Mapped)
    && (s.buffer.state == Mapped ==>
          s.buffer.lastMapID in s.requests && s.requests[s.buffer.lastMapID] == s.buffer.mapped)
    && (forall id :: id in s.wanted || id in s.tasks ==> id <= s.buffer.lastMapID)
    && (forall id :: id in s.requests ==> 1 <= id <= s.buffer.lastMapID)
  }

  lemma FiredAppend(log: seq<Fired>, f: Fired)
    ensures FiredSet(log + [f]) == FiredSet(log) + {f.request}
  {
    var t := log + [f];
    forall x | x in FiredSet(log) + {f.request}
      ensures x in FiredSet(t)
    {
      if x in FiredSet(log) {
        var i :| 0 <= i < |log| && log[i].request == x;
        assert t[i].request == x;
      } else {
        assert t[|log|].request == x;
      }
    }
  }

  lemma DeliverKeepsInv(s: System, mapID: nat, status: Status, frame: Frame)
    requires Inv(s)
    ensures Inv(Deliver(s, CallMapCallback(s.buffer, s.lost, mapID, status), frame))
  {
    var f := Fired(mapID, if s.lost then DeviceLost else status);
    FiredAppend(s.log, f);
    if s.buffer.callback && mapID == s.buffer.lastMapID {
      forall i | 0 <= i < |s.log|
        ensures s.log[i].request != mapID
      {
        assert s.log[i].request in FiredSet(s.log);
      }
    }
  }

  lemma FinishKeepsInv(s: System, frame: Frame)
    requires Inv(s)
    ensures Inv(FinishFrame(s, frame))
  {
  }

  lemma MapAsyncKeepsInv(s: System, range: Range, hasCallback: bool, implFails: bool)
    requires Inv(s)
    ensures Inv(MapAsyncStep(s, range, hasCallback, implFails))
  {
    var r := WholeSize(s.buffer, range);
    if ValidMapAsync(s.buffer, s.lost, r) {
      var b := Accept(s.buffer, r, hasCallback);
      var id := b.lastMapID;
      var t := s.(buffer := b, requests := s.requests[id := r],
                  wanted := if hasCallback then s.wanted + {id} else s.wanted);
      assert id !in s.wanted;
      assert Inv(t);
      DeliverKeepsInv(t, id, DeviceLost, FromMapAsync);
    }
  }

  lemma UnmapKeepsInv(s: System, status: Status, frame: Frame)
    requires Inv(s)
    ensures Inv(UnmapStep(s, status, frame))
  {
    DeliverKeepsInv(s, s.buffer.lastMapID, status, frame);
    FinishKeepsInv(s, frame);
  }

  lemma StepKeepsInv(s: System, a: Action)
    requires Inv(s) && Enabled(s, a)
    ensures Inv(Step(s, a))
  {
    match a
    case MapAsync(range, hasCallback, implFails) => MapAsyncKeepsInv(s, range, hasCallback, implFails);
    case Complete(id) => DeliverKeepsInv(s.(tasks := s.tasks - {id}), id, Success, FromCompletion);
    case Unmap => UnmapKeepsInv(s, UnmappedBeforeCallback, FromUnmap);
    case Destroy => UnmapKeepsInv(s.(buffer := s.buffer.(alive := false)), DestroyedBeforeCallback, FromDestroy);
    case LoseDevice =>
    case Return => FinishKeepsInv(s.(stack := s.stack[..|s.stack| - 1]), s.stack[|s.stack| - 1]);
  }

  // ----- Runs -----

  /** Each action is possible when it is taken. */
  predicate Legal(s: System, run: seq<Action>)
    decreases |run|
  {
    run == [] || (Enabled(s, run[0]) && Legal(Step(s, run[0]), run[1..]))
  }

  function Exec(s: System, run: seq<Action>): System
    requires Legal(s, run)
    decreases |run|
  {
    if run == [] then s else Exec(Step(s, run[0]), run[1..])
  }

  lemma {:induction false} RunKeepsInv(s: System, run: seq<Action>)
    requires Inv(s) && Legal(s, run)
    ensures Inv(Exec(s, run))
    decreases |run|
  {
    if run != [] {
      StepKeepsInv(s, run[0]);
      RunKeepsInv(Step(s, run[0]), run[1..]);
    }
  }

  lemma InitInv(size: nat, mapRead: bool, mapWrite: bool, mappedAtCreation: bool)
    ensures Inv(Init(size, mapRead, mapWrite, mappedAtCreation))
  {
  }

  /**
   Over every run, however callbacks nest: no callback is called twice, and once the buffer is not
   Mapped, each accepted request's callback has been called or was dropped.
   */
  lemma CallbacksOverRuns(size: nat, mapRead: bool, mapWrite: bool, mappedAtCreation: bool, run: seq<Action>)
    requires Legal(Init(size, mapRead, mapWrite, mappedAtCreation), run)
    ensures var s := Exec(Init(size, mapRead, mapWrite, mappedAtCreation), run);
            && (forall i, j :: 0 <= i < j < |s.log| ==> s.log[i].request != s.log[j].request)
            && (s.buffer.state != Mapped ==> s.wanted == FiredSet(s.log) + s.dropped)
            && FiredSet(s.log) !! s.dropped
  {
    InitInv(size, mapRead, mapWrite, mappedAtCreation);
    RunKeepsInv(Init(size, mapRead, mapWrite, mappedAtCreation), run);
  }

  /** A completed task calls its own request's callback or none; success is reported for a range that is mapped. */
  lemma CompletionIsOwn(s: System, id: nat)
    requires Inv(s) && Enabled(s, Complete(id))
    ensures var t := Step(s, Complete(id));
            || t.log == s.log
            || exists status :: && t.log == s.log + [Fired(id, status)] && id in s.wanted
                                && (status == Success ==> t.buffer.state == Mapped && id in s.requests &&
                                                          t.buffer.mapped == s.requests[id])
  {
  }

  /** A stale request does nothing at all. */
  lemma StaleCompletion(s: System, id: nat)
    requires Inv(s) && Enabled(s, Complete(id)) && (id != s.buffer.lastMapID || s.buffer.state != Mapped)
    ensures Step(s, Complete(id)) == s.(tasks := s.tasks - {id})
  {
  }

  // ----- Dropped callbacks -----

  predicate Unmapping(s: System) {
    FromUnmap in s.stack || FromDestroy in s.stack
  }

  /** A callback is dropped exactly when Unmap or Destroy resumes and finds a newer request pending. */
  lemma DropsIff(s: System, a: Action)
    requires Inv(s) && Enabled(s, a)
    ensures Step(s, a).dropped != s.dropped <==>
            && a == Return && s.buffer.callback
            && (s.stack[|s.stack| - 1] == FromUnmap || s.stack[|s.stack| - 1] == FromDestroy)
  {
  }

  /** No request is accepted inside the callback of an Unmap or Destroy. */
  predicate Polite(s: System, a: Action) {
    a.MapAsync? ==> !(Unmapping(s) && ValidMapAsync(s.buffer, s.lost, WholeSize(s.buffer, a.range)))
  }

  predicate PoliteRun(s: System, run: seq<Action>)
    requires Legal(s, run)
    decreases |run|
  {
    run == [] || (Polite(s, run[0]) && PoliteRun(Step(s, run[0]), run[1..]))
  }

  lemma PoliteStep(s: System, a: Action)
    requires Inv(s) && Enabled(s, a) && Polite(s, a) && (Unmapping(s) ==> !s.buffer.callback)
    ensures var t := Step(s, a);
            (Unmapping(t) ==> !t.buffer.callback) && t.dropped == s.dropped
  {
    if a == Return {
      assert s.stack[|s.stack| - 1] in s.stack;
      assert forall f :: f in s.stack[..|s.stack| - 1] ==> f in s.stack;
    }
  }

  /** Then nothing is dropped: whenever the buffer is not Mapped, every callback has been called exactly once. */
  lemma {:induction false} PoliteRunsDropNothing(s: System, run: seq<Action>)
    requires Inv(s) && (Unmapping(s) ==> !s.buffer.callback) && s.dropped == {}
    requires Legal(s, run) && PoliteRun(s, run)
    ensures var t := Exec(s, run);
            t.dropped == {} && (t.buffer.state != Mapped ==> t.wanted == FiredSet(t.log))
    decreases |run|
  {
    if run != [] {
      StepKeepsInv(s, run[0]);
      PoliteStep(s, run[0]);
      PoliteRunsDropNothing(Step(s, run[0]), run[1..]);
    }
  }

  // ----- Two runs step by step -----

  lemma ExecCons(s: System, a: Action, rest: seq<Action>, t: System)
    requires Enabled(s, a) && Step(s, a) == t && Legal(t, rest)
    ensures Legal(s, [a] + rest) && Exec(s, [a] + rest) == Exec(t, rest)
  {
    assert ([a] + rest)[1..] == rest;
  }

  function SmallBuffer(): System {
    Init(8, true, false, false)
  }

  predicate WholeRange(r: Range) {
    r == Range(Mode(true, false), 0, 8)
  }

  /** A request is pending. */
  function Requested(r: Range): System {
    SmallBuffer().(buffer := Buffer(8, true, false, Mapped, true, 1, true, r), tasks := {1},
                   requests := map[1 := r], wanted := {1})
  }

  /** Unmap waits for the callback of the request. */
  function InCallback(r: Range): System {
    Requested(r).(buffer := Requested(r).buffer.(callback := false), stack := [FromUnmap],
                  log := [Fired(1, UnmappedBeforeCallback)])
  }

  lemma StepRequest(r: Range)
    requires WholeRange(r)
    ensures Step(SmallBuffer(), MapAsync(r, true, false)) == Requested(r)
  {
  }

  lemma StepUnmap(r: Range)
    ensures Step(Requested(r), Unmap) == InCallback(r)
  {
  }

  /** Unmapped inside the callback. */
  function UnmappedInside(r: Range): System {
    InCallback(r).(buffer := InCallback(r).buffer.(state := Unmapped))
  }

  /** Mapped again inside the callback. */
  function RequestedInside(r: Range): System {
    UnmappedInside(r).(buffer := Buffer(8, true, false, Mapped, true, 2, true, r), tasks := {1, 2},
                       requests := map[1 := r, 2 := r], wanted := {1, 2})
  }

  /** Unmap has resumed. */
  function Resumed(r: Range): System {
    RequestedInside(r).(buffer := Buffer(8, true, false, Unmapped, true, 2, false, r), stack := [], dropped := {2})
  }

  lemma StepUnmapInside(r: Range)
    ensures Step(InCallback(r), Unmap) == UnmappedInside(r)
  {
  }

  lemma StepRequestInside(r: Range)
    requires WholeRange(r)
    ensures Step(UnmappedInside(r), MapAsync(r, true, false)) == RequestedInside(r)
  {
    assert {1} + {2} == {1, 2};
  }

  lemma StepResume(r: Range)
    ensures Step(RequestedInside(r), Return) == Resumed(r)
  {
    assert [FromUnmap][..0] == [];
  }

  /** Inside the callback of an Unmap: unmap, map again, return. The second callback is never called. */
  lemma NestedMapIsDropped(r: Range)
    requires WholeRange(r)
    ensures var run := [MapAsync(r, true, false), Unmap, Unmap, MapAsync(r, true, false), Return];
            Legal(SmallBuffer(), run) && Exec(SmallBuffer(), run) == Resumed(r)
    ensures Resumed(r).dropped == {2} && Resumed(r).buffer.state == Unmapped && Resumed(r).stack == []
  {
    var m := MapAsync(r, true, false);
    StepResume(r);
    ExecCons(RequestedInside(r), Return, [], Resumed(r));
    StepRequestInside(r);
    ExecCons(UnmappedInside(r), m, [Return] + [], RequestedInside(r));
    StepUnmapInside(r);
    ExecCons(InCallback(r), Unmap, [m] + ([Return] + []), UnmappedInside(r));
    StepUnmap(r);
    ExecCons(Requested(r), Unmap, [Unmap] + ([m] + ([Return] + [])), InCallback(r));
    StepRequest(r);
    ExecCons(SmallBuffer(), m, [Unmap] + ([Unmap] + ([m] + ([Return] + []))), Requested(r));
    assert [m] + ([Unmap] + ([Unmap] + ([m] + ([Return] + [])))) == [m, Unmap, Unmap, m, Return];
  }

  // ----- Destroyed buffers -----

  /** Destroy is not called on a live buffer inside the callback of an Unmap. */
  predicate Orderly(s: System, a: Action) {
    a == Destroy && s.buffer.alive ==> FromUnmap !in s.stack
  }

  predicate OrderlyRun(s: System, run: seq<Action>)
    requires Legal(s, run)
    decreases |run|
  {
    run == [] || (Orderly(s, run[0]) && OrderlyRun(Step(s, run[0]), run[1..]))
  }

  /** A dead buffer is Destroyed, or will be when the waiting Destroy resumes. */
  ghost predicate DeadIsDestroyed(s: System) {
    && (!s.buffer.alive && FromDestroy !in s.stack ==> s.buffer.state == Destroyed && FromUnmap !in s.stack)
    && (forall i, j :: 0 <= i < j < |s.stack| && s.stack[j] == FromDestroy ==> s.stack[i] != FromUnmap)
    && (FromDestroy in s.stack ==> !s.buffer.alive)
  }

  lemma OrderlyStep(s: System, a: Action)
    requires DeadIsDestroyed(s) && Enabled(s, a) && Orderly(s, a)
    ensures DeadIsDestroyed(Step(s, a))
  {
    var t := Step(s, a);
    if a == Return {
      var n := |s.stack| - 1;
      assert t.stack == s.stack[..n] && s.stack[n] in s.stack;
      assert forall f :: f in t.stack ==> f in s.stack;
      assert forall f :: f in s.stack ==> f in t.stack || f == s.stack[n];
    } else if t.stack != s.stack {
      var f := t.stack[|s.stack|];
      assert t.stack == s.stack + [f];
    }
  }

  /** In orderly runs a destroyed buffer stays destroyed. */
  lemma {:induction false} OrderlyRunsStayDestroyed(s: System, run: seq<Action>)
    requires DeadIsDestroyed(s) && Legal(s, run) && OrderlyRun(s, run)
    ensures var t := Exec(s, run);
            !t.buffer.alive && t.stack == [] ==> t.buffer.state == Destroyed
    decreases |run|
  {
    if run != [] {
      OrderlyStep(s, run[0]);
      OrderlyRunsStayDestroyed(Step(s, run[0]), run[1..]);
    }
  }

  /** A step takes a buffer out of the state Destroyed exactly when an Unmap resumes behind a Destroy. */
  lemma RevivedIff(s: System, a: Action)
    requires s.buffer.state == Destroyed && Enabled(s, a) && Inv(s)
    ensures Step(s, a).buffer.state != Destroyed <==> a == Return && s.stack[|s.stack| - 1] == FromUnmap
  {
  }

  /** Destroyed inside the callback. */
  function DestroyedInside(r: Range): System {
    InCallback(r).(buffer := InCallback(r).buffer.(alive := false, state := Destroyed))
  }

  /** Unmap has resumed behind the Destroy. */
  function Revived(r: Range): System {
    DestroyedInside(r).(buffer := Buffer(8, true, false, Unmapped, false, 1, false, r), stack := [])
  }

  lemma StepDestroyInside(r: Range)
    ensures Enabled(InCallback(r), Destroy) && Step(InCallback(r), Destroy) == DestroyedInside(r)
  {
  }

  lemma StepResumeDestroyed(r: Range)
    ensures Step(DestroyedInside(r), Return) == Revived(r)
  {
    assert [FromUnmap][..0] == [];
  }

  /** Destroying a buffer inside the callback of its Unmap leaves it Unmapped: it can be mapped again. */
  lemma DestroyInUnmapIsUndone(r: Range)
    requires WholeRange(r)
    ensures var run := [MapAsync(r, true, false), Unmap, Destroy, Return];
            Legal(SmallBuffer(), run) && Exec(SmallBuffer(), run) == Revived(r)
    ensures !Revived(r).buffer.alive && Revived(r).buffer.state == Unmapped
    ensures ValidMapAsync(Revived(r).buffer, false, r)
  {
    var m := MapAsync(r, true, false);
    StepResumeDestroyed(r);
    ExecCons(DestroyedInside(r), Return, [], Revived(r));
    StepDestroyInside(r);
    ExecCons(InCallback(r), Destroy, [Return] + [], DestroyedInside(r));
    StepUnmap(r);
    ExecCons(Requested(r), Unmap, [Destroy] + ([Return] + []), InCallback(r));
    StepRequest(r);
    ExecCons(SmallBuffer(), m, [Unmap] + ([Destroy] + ([Return] + [])), Requested(r));
    assert [m] + ([Unmap] + ([Destroy] + ([Return] + []))) == [m, Unmap, Destroy, Return];
  }

  // ----- Mapped ranges -----

  /** A granted range lies in the mapped range and in the buffer; writing is granted for write mappings only. */
  lemma GrantedRange(s: System, writable: bool, offset: nat, size: nat)
    requires Inv(s)
    ensures CanGetMappedRange(s.buffer, writable, offset, size) <==>
            && offset % 8 == 0 && size % 4 == 0
            && s.buffer.mapped.offset <= offset && offset + size <= s.buffer.mapped.offset + s.buffer.mapped.size
            && (s.buffer.state == MappedAtCreation ||
                (s.buffer.state == Mapped && (writable ==> !s.buffer.mapped.mode.read)))
    ensures CanGetMappedRange(s.buffer, writable, offset, size) ==> offset + size <= s.buffer.size
  {
  }
}
