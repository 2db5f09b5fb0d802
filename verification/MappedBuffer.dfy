/** The fields of a buffer and the methods that change them (src/dawn_native/Buffer.cpp). */
module MappedBuffer {
  import opened BufferMapping
  import opened Collections

  /** Methods that call the application stop there; the rest of Unmap and Destroy is FinishUnmap. */
  class BufferBase {
    const mSize: nat
    const mapRead: bool
    const mapWrite: bool
    var mState: MapState
    var alive: bool
    var mLastMapID: nat
    var mMapCallback: bool
    var mMapMode: Mode
    var mMapOffset: nat
    var mMapSize: nat

    function Model(): Buffer
      reads this
    {
      Buffer(mSize, mapRead, mapWrite, mState, alive, mLastMapID, mMapCallback, Range(mMapMode, mMapOffset, mMapSize))
    }

    constructor (size: nat, mapRead: bool, mapWrite: bool, mappedAtCreation: bool)
      ensures Model() == Init(size, mapRead, mapWrite, mappedAtCreation).buffer
    {
      mSize, this.mapRead, this.mapWrite := size, mapRead, mapWrite;
      mState, alive, mLastMapID, mMapCallback := Unmapped, true, 0, false;
      mMapMode, mMapOffset, mMapSize := Mode(false, false), 0, 0;
      if mappedAtCreation {
        mState, mMapOffset, mMapSize := MappedAtCreation, 0, size;
      }
    }

    /** The callback is marked as called before it is called. */
    method CallMapCallback(mapID: nat, status: Status, lost: bool) returns (fired: Option<Fired>)
      modifies this`mMapCallback
      ensures (Model(), fired) == BufferMapping.CallMapCallback(old(Model()), lost, mapID, status)
    {
      fired := None;
      if mMapCallback && mapID == mLastMapID {
        mMapCallback := false;
        fired := Some(Fired(mapID, if lost then DeviceLost else status));
      }
    }

    method ValidateMapAsync(mode: Mode, offset: nat, size: nat, lost: bool) returns (status: Status)
      ensures status == Success <==> ValidMapAsync(Model(), lost, Range(mode, offset, size))
      ensures status == DeviceLost <==> lost
      ensures status == Success || status == DeviceLost || status == Error
    {
      if lost {
        return DeviceLost;
      }
      if offset > mSize || offset % 8 != 0 || size % 4 != 0 || size > mSize - offset {
        return Error;
      }
      if mState != Unmapped {
        return Error;
      }
      if mode.read == mode.write {
        return Error;
      }
      if mode.read {
        if !mapRead {
          return Error;
        }
      } else if !mapWrite {
        return Error;
      }
      return Success;
    }

    /** `rejected` is the status passed to the callback at once; `fired` the callback of an accepted request. */
    method APIMapAsync(mode: Mode, offset: nat, size: nat, hasCallback: bool, implFails: bool, lost: bool)
        returns (rejected: Option<Status>, fired: Option<Fired>, tracked: bool)
      modifies this
      ensures var r := WholeSize(old(Model()), Range(mode, offset, size));
              if ValidMapAsync(old(Model()), lost, r) then
                var b := Accept(old(Model()), r, hasCallback);
                && rejected == None && tracked == !implFails
                && (Model(), fired) ==
                   if implFails then BufferMapping.CallMapCallback(b, lost, b.lastMapID, DeviceLost) else (b, None)
              else
                && Model() == old(Model()) && fired == None && !tracked
                && rejected == Some(if lost then DeviceLost else Error)
    {
      var size := size;
      fired, rejected, tracked := None, None, false;
      if size == WHOLE_MAP_SIZE && offset <= mSize {
        size := mSize - offset;
      }
      var status := ValidateMapAsync(mode, offset, size, lost);
      if status != Success {
        rejected := Some(status);
        return;
      }
      mLastMapID := mLastMapID + 1;
      mMapMode, mMapOffset, mMapSize := mode, offset, size;
      mMapCallback := hasCallback;
      mState := Mapped;
      if implFails {
        fired := CallMapCallback(mLastMapID, DeviceLost, lost);
        return;
      }
      tracked := true;
    }

    /** UnmapInternal up to the callback; `waits` says that it is being called. */
    method BeginUnmap(status: Status, lost: bool) returns (waits: bool, fired: Option<Fired>)
      modifies this`mMapCallback, this`mState
      ensures waits == fired.Some? == (old(mState) == Mapped && old(mMapCallback))
      ensures waits ==> (Model(), fired) == BufferMapping.CallMapCallback(old(Model()), lost, old(mLastMapID), status)
      ensures !waits && old(mState) == Mapped ==> Model() == BufferMapping.FinishUnmap(old(Model()))
      ensures !waits && old(mState) != Mapped ==> Model() == old(Model()).(state := Unmapped)
    {
      waits, fired := false, None;
      if mState == Mapped {
        fired := CallMapCallback(mLastMapID, status, lost);
        if fired.Some? {
          waits := true;
          return;
        }
        FinishUnmap();
        return;
      }
      mState := Unmapped;
    }

    /** UnmapInternal after the callback. */
    method FinishUnmap()
      modifies this`mMapCallback, this`mState
      ensures Model() == BufferMapping.FinishUnmap(old(Model()))
    {
      mMapCallback := false;
      mState := Unmapped;
    }

    method APIUnmap(lost: bool) returns (waits: bool, fired: Option<Fired>)
      modifies this`mMapCallback, this`mState
      ensures !ValidUnmap(old(Model()), lost) ==> Model() == old(Model()) && !waits && fired == None
      ensures ValidUnmap(old(Model()), lost) ==>
                && waits == fired.Some? == old(mMapCallback && mState == Mapped)
                && (!waits ==> Model() == old(Model()).(state := Unmapped))
                && (waits ==> (Model(), fired) ==
                              BufferMapping.CallMapCallback(old(Model()), lost, old(mLastMapID),
                                                            UnmappedBeforeCallback))
    {
      if lost || mState == Unmapped || mState == Destroyed {
        return false, None;
      }
      waits, fired := BeginUnmap(UnmappedBeforeCallback, lost);
    }

    /** Destroy up to the callback of the unmapping it may cause. */
    method BeginDestroy(lost: bool) returns (waits: bool, fired: Option<Fired>)
      modifies this`mMapCallback, this`mState, this`alive
      ensures !alive
      ensures !old(alive) ==> Model() == old(Model()) && !waits && fired == None
      ensures old(alive) ==> waits == fired.Some? == old(mMapCallback && mState == Mapped)
      ensures old(alive) && !waits ==> Model() == old(Model()).(alive := false, state := Destroyed)
      ensures waits ==>
                (Model(), fired) == BufferMapping.CallMapCallback(old(Model()).(alive := false), lost, old(mLastMapID),
                                                                  DestroyedBeforeCallback)
    {
      waits, fired := false, None;
      if alive {
        alive := false;
        if mState == Mapped {
          waits, fired := BeginUnmap(DestroyedBeforeCallback, lost);
        } else if mState == MappedAtCreation && mSize != 0 {
          mState := Unmapped;
        }
        if !waits {
          mState := Destroyed;
        }
      }
    }

    /** Destroy after that callback. */
    method FinishDestroy()
      modifies this`mMapCallback, this`mState
      ensures Model() == BufferMapping.FinishUnmap(old(Model())).(state := Destroyed)
    {
      FinishUnmap();
      mState := Destroyed;
    }

    method CanGetMappedRange(writable: bool, offset: nat, size: nat) returns (ok: bool)
      ensures ok == BufferMapping.CanGetMappedRange(Model(), writable, offset, size)
      ensures ok && RangeOk(Model()) ==> offset + size <= mSize
    {
      if offset % 8 != 0 || size % 4 != 0 {
        return false;
      }
      if size > mMapSize || offset < mMapOffset {
        return false;
      }
      var offsetInMappedRange := offset - mMapOffset;
      if offsetInMappedRange > mMapSize - size {
        return false;
      }
      match mState
      case MappedAtCreation => return true;
      case Mapped => return !writable || mMapMode.write;
      case Unmapped => return false;
      case Destroyed => return false;
    }
  }

  // ----- Whole runs -----

  /** The object, the calls that wait and the callbacks called so far are those of a state of the protocol. */
  ghost predicate Shows(b: BufferBase, lost: bool, tasks: set<nat>, stack: seq<Frame>, log: seq<Fired>, s: System)
    reads b
  {
    b.Model() == s.buffer && lost == s.lost && tasks == s.tasks && stack == s.stack && log == s.log
  }

  /** A callback that is to be called is recorded, and the call waits for it. */
  method Call(fired: Option<Fired>, frame: Frame, stack: seq<Frame>, log: seq<Fired>)
      returns (stack': seq<Frame>, log': seq<Fired>)
    ensures fired.None? ==> stack' == stack && log' == log
    ensures fired.Some? ==> stack' == stack + [frame] && log' == log + [fired.value]
  {
    stack', log' := stack, log;
    if fired.Some? {
      stack', log' := stack + [frame], log + [fired.value];
    }
  }

  /** A request: reject it and call its callback at once, or accept and queue it. */
  method Request(b: BufferBase, range: Range, hasCallback: bool, implFails: bool, lost: bool, tasks: set<nat>,
                 stack: seq<Frame>, log: seq<Fired>, ghost s: System)
      returns (tasks': set<nat>, stack': seq<Frame>, log': seq<Fired>)
    requires Shows(b, lost, tasks, stack, log, s)
    modifies b
    ensures Shows(b, lost, tasks', stack', log', MapAsyncStep(s, range, hasCallback, implFails))
  {
    tasks' := tasks;
    var rejected, fired, tracked := b.APIMapAsync(range.mode, range.offset, range.size, hasCallback, implFails, lost);
    if rejected.Some? {
      stack', log' := if hasCallback then stack + [FromMapAsync] else stack, log;
    } else {
      stack', log' := Call(fired, FromMapAsync, stack, log);
      if tracked {
        tasks' := tasks + {b.mLastMapID};
      }
    }
  }

  /** One step of a run on the object. */
  method Step(b: BufferBase, a: Action, lost: bool, tasks: set<nat>, stack: seq<Frame>, log: seq<Fired>,
              ghost s: System)
      returns (lost': bool, tasks': set<nat>, stack': seq<Frame>, log': seq<Fired>)
    requires Shows(b, lost, tasks, stack, log, s) && Enabled(s, a)
    modifies b
    ensures Shows(b, lost', tasks', stack', log', BufferMapping.Step(s, a))
  {
    lost', tasks', stack', log' := lost, tasks, stack, log;
    match a
    case MapAsync(range, hasCallback, implFails) =>
      tasks', stack', log' := Request(b, range, hasCallback, implFails, lost, tasks, stack, log, s);
    case Complete(id) =>
      tasks' := tasks - {id};
      var fired := b.CallMapCallback(id, Success, lost);
      stack', log' := Call(fired, FromCompletion, stack, log);
    case Unmap =>
      var waits, fired := b.APIUnmap(lost);
      stack', log' := Call(fired, FromUnmap, stack, log);
    case Destroy =>
      var waits, fired := b.BeginDestroy(lost);
      stack', log' := Call(fired, FromDestroy, stack, log);
    case LoseDevice => lost' := true;
    case Return =>
      stack' := stack[..|stack| - 1];
      var frame := stack[|stack| - 1];
      if frame == FromUnmap {
        b.FinishUnmap();
      } else if frame == FromDestroy {
        b.FinishDestroy();
      }
  }

  /**
   The object over any run: it is in the state of the protocol, its callbacks are called at most once
   each, and in a run without requests inside the callback of Unmap or Destroy all of them were
   called once it is not Mapped.
   */
  method Replay(size: nat, mapRead: bool, mapWrite: bool, mappedAtCreation: bool, run: seq<Action>)
      returns (b: BufferBase, log: seq<Fired>)
    requires Legal(Init(size, mapRead, mapWrite, mappedAtCreation), run)
    ensures var s := Exec(Init(size, mapRead, mapWrite, mappedAtCreation), run);
            b.Model() == s.buffer && log == s.log
    ensures forall i, j :: 0 <= i < j < |log| ==> log[i].request != log[j].request
    ensures PoliteRun(Init(size, mapRead, mapWrite, mappedAtCreation), run) && b.mState != Mapped ==>
              FiredSet(log) == Exec(Init(size, mapRead, mapWrite, mappedAtCreation), run).wanted
  {
    ghost var init := Init(size, mapRead, mapWrite, mappedAtCreation);
    ghost var s := init;
    b := new BufferBase(size, mapRead, mapWrite, mappedAtCreation);
    var lost, tasks, stack := false, {}, [];
    log := [];
    for n := 0 to |run|
      invariant fresh(b) && Shows(b, lost, tasks, stack, log, s)
      invariant Legal(s, run[n..]) && Exec(s, run[n..]) == Exec(init, run)
    {
      assert run[n..][0] == run[n] && run[n..][1..] == run[n + 1..];
      lost, tasks, stack, log := Step(b, run[n], lost, tasks, stack, log, s);
      s := BufferMapping.Step(s, run[n]);
    }
    CallbacksOverRuns(size, mapRead, mapWrite, mappedAtCreation, run);
    if PoliteRun(init, run) {
      InitInv(size, mapRead, mapWrite, mappedAtCreation);
      PoliteRunsDropNothing(init, run);
    }
  }
}
