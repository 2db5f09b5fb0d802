/**
 What an application sees of a mapped buffer (src/dawn_native/Buffer.cpp): which requests are accepted
 and what they map, what each call leaves behind, and what the status given to a callback tells.
 */
module MappingLaws {
  import opened BufferMapping

  // ----- Requests -----

  /** The size a request asks for: all behind its offset if it gives none. */
  ghost function AskedSize(b: Buffer, r: Range): int {
    if r.size == 0xFFFF_FFFF_FFFF_FFFF then b.size - r.offset else r.size
  }

  /** The rules for a request. */
  ghost predicate MayMap(s: System, r: Range) {
    && !s.lost && s.buffer.state == Unmapped
    && AskedSize(s.buffer, r) >= 0 && r.offset + AskedSize(s.buffer, r) <= s.buffer.size
    && r.offset % 8 == 0 && AskedSize(s.buffer, r) % 4 == 0
    && ((r.mode == Mode(true, false) && s.buffer.mapRead) || (r.mode == Mode(false, true) && s.buffer.mapWrite))
  }

  /** A request gets a new number exactly if the rules allow it, and then maps what it asked for. */
  lemma RequestIff(s: System, r: Range, hasCallback: bool, implFails: bool)
    requires Inv(s)
    ensures var t := Step(s, MapAsync(r, hasCallback, implFails));
            && (MayMap(s, r) <==> t.buffer.lastMapID == s.buffer.lastMapID + 1)
            && (MayMap(s, r) ==>
                  && t.buffer.state == Mapped
                  && t.buffer.mapped == Range(r.mode, r.offset, AskedSize(s.buffer, r))
                  && t.buffer.callback == (hasCallback && !implFails)
                  && t.tasks == s.tasks + if implFails then {} else {t.buffer.lastMapID})
            && (!MayMap(s, r) ==>
                  t == s.(stack := s.stack + if hasCallback then [FromMapAsync] else []))
  {
  }

  /** A buffer mapped at creation is accessible as a whole, and any other not at all. */
  lemma CreatedMapped(size: nat, mapRead: bool, mapWrite: bool, mappedAtCreation: bool, writable: bool,
                      offset: nat, length: nat)
    ensures CanGetMappedRange(Init(size, mapRead, mapWrite, mappedAtCreation).buffer, writable, offset, length) <==>
            mappedAtCreation && offset % 8 == 0 && length % 4 == 0 && offset + length <= size
  {
  }

  // ----- What calls leave behind -----

  /** Unmap ends the mapping, now or once its callback has returned; without a mapping it does nothing. */
  lemma AfterUnmap(s: System)
    requires Inv(s)
    ensures var t := Step(s, Unmap);
            && (s.lost || s.buffer.state == Unmapped || s.buffer.state == Destroyed ==> t == s)
            && (!s.lost && (s.buffer.state == Mapped || s.buffer.state == MappedAtCreation) ==>
                  && !t.buffer.callback && t.buffer.alive == s.buffer.alive && t.tasks == s.tasks
                  && (if s.buffer.callback then t.buffer.state == Mapped && t.stack == s.stack + [FromUnmap]
                      else t.buffer.state == Unmapped && t.stack == s.stack))
  {
  }

  /** Destroy does its work once: the buffer is Destroyed, now or once its callback has returned. */
  lemma AfterDestroy(s: System)
    requires Inv(s) && Enabled(s, Destroy)
    ensures var t := Step(s, Destroy);
            && !t.buffer.alive && t.tasks == s.tasks
            && (!s.buffer.alive ==> t == s)
            && (s.buffer.alive ==>
                  && !t.buffer.callback
                  && (if s.buffer.callback then t.buffer.state == Mapped && t.stack == s.stack + [FromDestroy]
                      else t.buffer.state == Destroyed && t.stack == s.stack))
  {
  }

  /** A callback returns to the call that waits for it, which then ends. */
  lemma AfterReturn(s: System)
    requires Inv(s) && Enabled(s, Return)
    ensures var t, frame := Step(s, Return), s.stack[|s.stack| - 1];
            && s.stack == t.stack + [frame] && t.log == s.log && t.tasks == s.tasks
            && (frame == FromUnmap ==> t.buffer.state == Unmapped && !t.buffer.callback)
            && (frame == FromDestroy ==> t.buffer.state == Destroyed && !t.buffer.callback)
            && (frame == FromMapAsync || frame == FromCompletion ==> t.buffer == s.buffer)
  {
  }

  // ----- What a status tells -----

  /** A completed request succeeds while its range is mapped, unless the device was lost. */
  lemma CompletionReports(s: System, id: nat)
    requires Inv(s) && Enabled(s, Complete(id)) && s.buffer.callback && id == s.buffer.lastMapID
    ensures var t := Step(s, Complete(id));
            && t.log == s.log + [Fired(id, if s.lost then DeviceLost else Success)]
            && t.buffer == s.buffer.(callback := false) && t.stack == s.stack + [FromCompletion]
            && t.buffer.state == Mapped && id in s.requests && t.buffer.mapped == s.requests[id]
  {
  }

  /** The event behind a callback. */
  ghost predicate Caused(s: System, a: Action, f: Fired) {
    match f.status
    case Success => a == Complete(f.request) && !s.lost
    case UnmappedBeforeCallback => a == Unmap && !s.lost && f.request == s.buffer.lastMapID
    case DestroyedBeforeCallback => a == Destroy && !s.lost && s.buffer.alive && f.request == s.buffer.lastMapID
    case DeviceLost => s.lost || (a.MapAsync? && a.implFails)
    case Error => false
  }

  /** The step takes a pending callback: it completes, ends or fails the request it belongs to. */
  ghost predicate Answers(s: System, a: Action) {
    match a
    case MapAsync(range, hasCallback, implFails) => MayMap(s, range) && hasCallback && implFails
    case Complete(id) => s.buffer.callback && id == s.buffer.lastMapID
    case Unmap => s.buffer.callback && !s.lost
    case Destroy => s.buffer.callback && s.buffer.alive
    case LoseDevice => false
    case Return => false
  }

  /** A step calls one callback or none, and the status is the one of its cause. */
  lemma StepReports(s: System, a: Action)
    requires Inv(s) && Enabled(s, a)
    ensures var t := Step(s, a);
            && s.log <= t.log
            && |t.log| == |s.log| + (if Answers(s, a) then 1 else 0)
            && (Answers(s, a) ==> Caused(s, a, t.log[|s.log|]) && t.log[|s.log|].request == t.buffer.lastMapID)
  {
    if a.MapAsync? { RequestIff(s, a.range, a.hasCallback, a.implFails); }
  }

  lemma {:induction false} LogGrows(s: System, run: seq<Action>)
    requires Inv(s) && Legal(s, run)
    ensures s.log <= Exec(s, run).log
    decreases |run|
  {
    if run != [] {
      StepReports(s, run[0]);
      StepKeepsInv(s, run[0]);
      LogGrows(Step(s, run[0]), run[1..]);
    }
  }

  lemma ExecFirst(s: System, run: seq<Action>, k: nat)
    requires run != [] && Legal(s, run) && k <= |run| - 1
    requires Legal(Step(s, run[0]), run[1..][..k])
    ensures Legal(s, run[..k + 1]) && Exec(s, run[..k + 1]) == Exec(Step(s, run[0]), run[1..][..k])
  {
    assert run[..k + 1][1..] == run[1..][..k];
  }

  /**
   Over every run each callback was called by a step that explains its status: Success by its own
   completion, UnmappedBeforeCallback by Unmap, DestroyedBeforeCallback by Destroy, DeviceLost by a
   lost device or a failing backend. Error is not reported for accepted requests.
   */
  lemma {:induction false} StatusTells(s: System, run: seq<Action>, i: nat) returns (k: nat)
    requires Inv(s) && Legal(s, run) && |s.log| <= i < |Exec(s, run).log|
    ensures k < |run| && Legal(s, run[..k]) && Enabled(Exec(s, run[..k]), run[k])
    ensures |Exec(s, run[..k]).log| == i && Caused(Exec(s, run[..k]), run[k], Exec(s, run).log[i])
    decreases |run|
  {
    var t := Step(s, run[0]);
    StepReports(s, run[0]);
    StepKeepsInv(s, run[0]);
    LogGrows(t, run[1..]);
    if i < |t.log| {
      k := 0;
    } else {
      var j := StatusTells(t, run[1..], i);
      ExecFirst(s, run, j);
      k := j + 1;
    }
  }

  /** Once the device is lost it stays lost, no request is accepted, and every callback is told so. */
  lemma {:induction false} LostForGood(s: System, run: seq<Action>, i: nat)
    requires Inv(s) && s.lost && Legal(s, run)
    ensures Exec(s, run).lost && Exec(s, run).buffer.lastMapID == s.buffer.lastMapID
    ensures |s.log| <= i < |Exec(s, run).log| ==> Exec(s, run).log[i].status == DeviceLost
    decreases |run|
  {
    if run != [] {
      var t := Step(s, run[0]);
      StepReports(s, run[0]);
      StepKeepsInv(s, run[0]);
      LogGrows(t, run[1..]);
      LostForGood(t, run[1..], i);
    }
  }

  lemma LosesDevice(s: System)
    ensures Enabled(s, LoseDevice) && Step(s, LoseDevice).lost && Step(s, LoseDevice).buffer == s.buffer
  {
  }
}
