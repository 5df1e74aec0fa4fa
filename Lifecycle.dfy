/**
 * The abstract state of one `Stream` together with the part of the runtime it
 * touches, and what each lifecycle call does to it. The methods of
 * `PortAudioStream.Stream` are proved to act exactly as these functions say;
 * the lemmas below are the guarantees that follow: idempotent `Close` and
 * `dispose`, and no GCHandle freed twice along any sequence of calls.
 * Native results are the `code` arguments; 0 is `ErrorCode.NoError`.
 */
module Lifecycle {

  import opened Wrappers
  import opened ErrorCodes
  import opened Interop

  /** A `_NativeInterfacingCallback`: the delegate and the GCHandle pinning it. */
  datatype PinnedCallback = PinnedCallback(fn: Delegate, handle: nat)

  datatype StreamState = StreamState(
    streamPtr: int,                // the native `PaStream *`; 0 once closed
    disposed: bool,
    userDataHandle: nat,           // GCHandle pinning the caller's user data
    userData: nat,                 // the user-data object registered at construction
    streamCallback: PinnedCallback,           // the processing delegate
    finishedCallback: Option<PinnedCallback>, // the last completion delegate set, if any
    handles: map<nat, Pinned>,     // every live GCHandle of the runtime
    freed: seq<nat>,               // every GCHandle freed so far, in order
    next: nat)                     // the runtime's next fresh handle

  /** `if (ec != ErrorCode.NoError) throw new PortAudioException(ec, ...)`. */
  function Check(code: int): (r: Outcome<Exception>)
    ensures r == Pass <==> code == Value(NoError)
    ensures r != Pass ==> r == Fail(PortAudioException(code))
  {
    NoErrorIsZero(NoError);
    if code == Value(NoError) then Pass else Fail(PortAudioException(code))
  }

  /** `Close()`: no native call once the pointer is zero; otherwise close
      natively and clear the pointer only on success. */
  function CloseStep(s: StreamState, code: int): (StreamState, Outcome<Exception>) {
    if s.streamPtr == 0 then (s, Pass)
    else if Check(code).Fail? then (s, Check(code))
    else (s.(streamPtr := 0), Pass)
  }

  /** `GCHandle.Free` on the runtime part of the state. */
  function FreeHandle(s: StreamState, h: nat): StreamState {
    s.(handles := s.handles - {h}, freed := s.freed + [h])
  }

  /** The handles a completed `dispose` releases, in the order it frees them. */
  function OwnedHandles(s: StreamState): seq<nat> {
    [s.userDataHandle, s.streamCallback.handle]
      + (if s.finishedCallback.Some? then [s.finishedCallback.value.handle] else [])
  }

  /** `dispose(disposing)`: nothing once disposed; otherwise `Close()`, and
      only if that returns, free user data, the stream callback and the
      finished callback if one is set, then mark the stream disposed.
      `disposing` selects an empty block in the source and changes nothing. */
  function DisposeStep(s: StreamState, disposing: bool, code: int): (StreamState, Outcome<Exception>) {
    if s.disposed then (s, Pass)
    else
      var (c, closed) := CloseStep(s, code);
      if closed.Fail? then (c, closed)
      else
        var a := FreeHandle(FreeHandle(c, c.userDataHandle), c.streamCallback.handle);
        var b := if c.finishedCallback.Some? then FreeHandle(a, c.finishedCallback.value.handle) else a;
        (b.(disposed := true), Pass)
  }

  /** `SetFinishedCallback(fcb)`: a null delegate throws before anything
      happens; otherwise a new handle is pinned and stored in
      `finishedCallback`, replacing (not freeing) the previous one, and only
      then is the native result checked. */
  function SetFinishedStep(s: StreamState, fcb: Option<Delegate>, code: int): (StreamState, Outcome<Exception>) {
    match fcb
    case None => (s, Fail(ArgumentNullException))
    case Some(d) =>
      var h := s.next;
      (s.(handles := s.handles[h := CallbackDelegate(d)], next := s.next + 1,
          finishedCallback := Some(PinnedCallback(d, h))),
       Check(code))
  }

  /** The calls a program can make on an open `Stream`, with the native
      result each one would get. */
  datatype Call =
    | Close(code: int)
    | Dispose(disposing: bool, code: int)
    | Start(code: int)
    | Stop(code: int)
    | Abort(code: int)
    | SetFinishedCallback(fcb: Option<Delegate>, code: int)

  function Step(s: StreamState, c: Call): (StreamState, Outcome<Exception>) {
    match c
    case Close(code) => CloseStep(s, code)
    case Dispose(disposing, code) => DisposeStep(s, disposing, code)
    case Start(code) => (s, Check(code))
    case Stop(code) => (s, Check(code))
    case Abort(code) => (s, Check(code))
    case SetFinishedCallback(fcb, code) => SetFinishedStep(s, fcb, code)
  }

  /** The state after a sequence of calls; a call that throws is caught by the
      program, which goes on with the next one. */
  function Run(s: StreamState, calls: seq<Call>): StreamState
    decreases |calls|
  {
    if calls == [] then s else Run(Step(s, calls[0]).0, calls[1..])
  }

  /** What holds of a stream between calls: the runtime's table is well
      formed, a disposed stream has no native pointer, and until disposal the
      stream's own handles are live, distinct, and each still pins what it was
      allocated for: the user data registered at construction and the
      stream's own delegates. */
  ghost predicate Inv(s: StreamState) {
    && TableValid(s.handles, s.freed, s.next)
    && (s.disposed ==> s.streamPtr == 0)
    && (!s.disposed ==> Registered(s))
  }

  ghost predicate Registered(s: StreamState) {
    && s.userDataHandle in s.handles
    && s.handles[s.userDataHandle] == UserObject(s.userData)
    && s.streamCallback.handle in s.handles
    && s.handles[s.streamCallback.handle] == CallbackDelegate(s.streamCallback.fn)
    && s.userDataHandle != s.streamCallback.handle
    && (s.finishedCallback.Some? ==>
          && s.finishedCallback.value.handle in s.handles
          && s.handles[s.finishedCallback.value.handle] == CallbackDelegate(s.finishedCallback.value.fn)
          && s.finishedCallback.value.handle != s.userDataHandle
          && s.finishedCallback.value.handle != s.streamCallback.handle)
  }

  // ---- Close ---------------------------------------------------------------

  /** With a zero pointer `Close` returns at once, changes nothing and does not
      throw. A successful `Close` clears the pointer; a failing one throws the
      native code and leaves the state as it was. */
  lemma CloseBehaviour(s: StreamState, code: int)
    ensures s.streamPtr == 0 ==> CloseStep(s, code) == (s, Pass)
    ensures s.streamPtr != 0 && code == 0 ==> CloseStep(s, code) == (s.(streamPtr := 0), Pass)
    ensures s.streamPtr != 0 && code != 0 ==>
              CloseStep(s, code) == (s, Fail(PortAudioException(code)))
  {
  }

  /** A second `Close` after one that returned is a no-op, whatever the native
      engine would answer. */
  lemma CloseIdempotent(s: StreamState, first: int, second: int)
    requires CloseStep(s, first).1 == Pass
    ensures CloseStep(CloseStep(s, first).0, second) == (CloseStep(s, first).0, Pass)
  {
  }

  // ---- dispose -------------------------------------------------------------

  /** Once disposed, `dispose` returns without any effect. */
  lemma DisposeWhenDisposed(s: StreamState, disposing: bool, code: int)
    requires s.disposed
    ensures DisposeStep(s, disposing, code) == (s, Pass)
  {
  }

  /** If the `Close` inside `dispose` throws, nothing after it runs: no handle
      is freed, the stream is not disposed and the exception propagates. */
  lemma DisposeCloseFails(s: StreamState, disposing: bool, code: int)
    requires !s.disposed && s.streamPtr != 0 && code != 0
    ensures DisposeStep(s, disposing, code) == (s, Fail(PortAudioException(code)))
  {
  }

  /** A `dispose` that completes leaves the stream disposed with a zero
      pointer, and has freed exactly the user-data handle, the stream-callback
      handle and, iff one was set, the finished-callback handle, each once. */
  lemma DisposeCompletes(s: StreamState, disposing: bool, code: int)
    requires Inv(s) && !s.disposed
    requires s.streamPtr == 0 || code == 0
    ensures var (t, r) := DisposeStep(s, disposing, code);
      && r == Pass && t.disposed && t.streamPtr == 0
      && t.freed == s.freed + OwnedHandles(s)
      && t.handles == s.handles - (set h | h in OwnedHandles(s))
      && (s.finishedCallback.Some? <==> |t.freed| == |s.freed| + 3)
      && Inv(t)
  {
    var t := DisposeStep(s, disposing, code).0;
    var c := CloseStep(s, code).0;
    assert c == s.(streamPtr := 0);
    var own := set h | h in OwnedHandles(s);
    if s.finishedCallback.Some? {
      assert own == {s.userDataHandle, s.streamCallback.handle, s.finishedCallback.value.handle};
    } else {
      assert own == {s.userDataHandle, s.streamCallback.handle};
    }
    assert t.handles == s.handles - own;
    FreshFreesKeepTable(s.handles, s.freed, s.next, OwnedHandles(s));
  }

  /** Freeing distinct live handles keeps the table well formed. */
  lemma FreshFreesKeepTable(handles: map<nat, Pinned>, freed: seq<nat>, next: nat, hs: seq<nat>)
    requires TableValid(handles, freed, next)
    requires forall i :: 0 <= i < |hs| ==> hs[i] in handles
    requires forall i, j :: 0 <= i < j < |hs| ==> hs[i] != hs[j]
    ensures TableValid(handles - (set h | h in hs), freed + hs, next)
  {
    var rest := handles - (set h | h in hs);
    var log := freed + hs;
    forall i | 0 <= i < |log|
      ensures 1 <= log[i] < next && log[i] !in rest
    {
      if i >= |freed| {
        assert log[i] == hs[i - |freed|];
      }
    }
    forall i, j | 0 <= i < j < |log|
      ensures log[i] != log[j]
    {
      if j >= |freed| {
        assert log[j] == hs[j - |freed|];
        if i >= |freed| {
          assert log[i] == hs[i - |freed|];
        } else {
          assert log[i] == freed[i] && freed[i] !in handles;
        }
      }
    }
  }

  /** Explicit `Dispose()` followed by the finalizer's `dispose(false)`: the
      stream's handles are freed exactly once in total, whichever of the two
      calls completes, and none of them if both see `Close` throw. */
  lemma DisposeThenFinalize(s: StreamState, first: int, second: int)
    requires Inv(s) && !s.disposed
    ensures var (a, r1) := DisposeStep(s, true, first);
      var (b, _) := DisposeStep(a, false, second);
      && Inv(b)
      && (r1 == Pass ==> b == a)
      && b.freed == s.freed + (if b.disposed then OwnedHandles(s) else [])
  {
    var (a, r1) := DisposeStep(s, true, first);
    if r1 == Pass {
      DisposeCompletes(s, true, first);
    } else {
      assert a == s;
      if s.streamPtr == 0 || second == 0 {
        DisposeCompletes(s, false, second);
      }
    }
  }

  // ---- SetFinishedCallback -------------------------------------------------

  /** `SetFinishedCallback` stores a freshly pinned handle whether or not the
      native call then succeeds; the previous registration stays pinned and is
      not freed. A null delegate throws and changes nothing. */
  lemma SetFinishedOverwrites(s: StreamState, fcb: Option<Delegate>, code: int)
    requires Inv(s)
    ensures var (t, r) := SetFinishedStep(s, fcb, code);
      && (fcb.None? ==> t == s && r == Fail(ArgumentNullException))
      && (fcb.Some? ==>
            && t.finishedCallback == Some(PinnedCallback(fcb.value, s.next)) && s.next !in s.handles
            && t.handles == s.handles[s.next := CallbackDelegate(fcb.value)]
            && t.freed == s.freed
            && (!s.disposed && s.finishedCallback.Some? ==>
                  var prev := s.finishedCallback.value;
                  prev.handle in t.handles && t.handles[prev.handle] == CallbackDelegate(prev.fn))
            && (r == Pass <==> code == 0))
      && Inv(t)
  {
    NoErrorIsZero(NoError);
  }

  // ---- sequences of calls --------------------------------------------------

  /** Every call keeps the invariant. */
  lemma StepPreservesInv(s: StreamState, c: Call)
    requires Inv(s)
    ensures Inv(Step(s, c).0)
  {
    match c
    case Dispose(disposing, code) =>
      if !s.disposed && (s.streamPtr == 0 || Check(code).Pass?) {
        DisposeCompletes(s, disposing, code);
      }
    case SetFinishedCallback(fcb, code) =>
      SetFinishedOverwrites(s, fcb, code);
    case _ =>
  }

  /** Along any sequence of calls, with any native results and any exceptions
      caught, the invariant holds; in particular no GCHandle is ever freed
      twice, and the user data stays pinned until the stream is disposed. */
  lemma {:induction false} RunPreservesInv(s: StreamState, calls: seq<Call>)
    requires Inv(s)
    ensures Inv(Run(s, calls))
    ensures var t := Run(s, calls);
      forall i, j :: 0 <= i < j < |t.freed| ==> t.freed[i] != t.freed[j]
    decreases |calls|
  {
    if calls != [] {
      StepPreservesInv(s, calls[0]);
      RunPreservesInv(Step(s, calls[0]).0, calls[1..]);
    }
  }

  /** No call changes which user data and processing callback the stream was
      opened with. */
  lemma {:induction false} RunKeepsRegistration(s: StreamState, calls: seq<Call>)
    ensures var t := Run(s, calls);
      t.userDataHandle == s.userDataHandle && t.userData == s.userData
      && t.streamCallback == s.streamCallback
    decreases |calls|
  {
    if calls != [] {
      RunKeepsRegistration(Step(s, calls[0]).0, calls[1..]);
    }
  }

  /** The user data registered when the stream was opened is still pinned,
      unchanged, after any sequence of calls that has not disposed it. */
  lemma UserDataPinnedUntilDisposed(s: StreamState, calls: seq<Call>)
    requires Inv(s) && !s.disposed
    requires !Run(s, calls).disposed
    ensures s.userDataHandle in Run(s, calls).handles
    ensures Run(s, calls).handles[s.userDataHandle] == UserObject(s.userData)
  {
    RunPreservesInv(s, calls);
    RunKeepsRegistration(s, calls);
  }

  /** Likewise the processing delegate: until disposal the stream's own
      callback handle still pins the delegate it was opened with. */
  lemma CallbackPinnedUntilDisposed(s: StreamState, calls: seq<Call>)
    requires Inv(s) && !s.disposed
    requires !Run(s, calls).disposed
    ensures Run(s, calls).streamCallback == s.streamCallback
    ensures s.streamCallback.handle in Run(s, calls).handles
    ensures Run(s, calls).handles[s.streamCallback.handle] == CallbackDelegate(s.streamCallback.fn)
  {
    RunPreservesInv(s, calls);
    RunKeepsRegistration(s, calls);
  }

  /** After disposal no call frees anything again, the stream stays disposed
      and its native pointer stays zero. */
  lemma {:induction false} NothingFreedAfterDispose(s: StreamState, calls: seq<Call>)
    requires Inv(s) && s.disposed
    ensures var t := Run(s, calls);
      t.freed == s.freed && t.disposed && t.streamPtr == 0
    decreases |calls|
  {
    if calls != [] {
      StepPreservesInv(s, calls[0]);
      NothingFreedAfterDispose(Step(s, calls[0]).0, calls[1..]);
    }
  }

  /** After disposal every pinned handle stays pinned, to the same object,
      whatever calls follow: nothing releases a handle once `dispose` has
      completed. */
  lemma {:induction false} DisposedKeepsPinned(s: StreamState, calls: seq<Call>)
    requires Inv(s) && s.disposed
    ensures forall h :: h in s.handles ==>
      h in Run(s, calls).handles && Run(s, calls).handles[h] == s.handles[h]
    decreases |calls|
  {
    if calls != [] {
      StepPreservesInv(s, calls[0]);
      var t := Step(s, calls[0]).0;
      assert s.next !in s.handles;
      assert forall h :: h in s.handles ==> h in t.handles && t.handles[h] == s.handles[h];
      DisposedKeepsPinned(t, calls[1..]);
    }
  }

  /** `SetFinishedCallback` on a disposed stream still pins its delegate, and
      that handle is never freed by any later call. */
  lemma SetFinishedAfterDisposeLeaks(s: StreamState, d: Delegate, code: int, calls: seq<Call>)
    requires Inv(s) && s.disposed
    ensures var t := SetFinishedStep(s, Some(d), code).0;
      var u := Run(t, calls);
      var h := t.finishedCallback.value.handle;
      && h in u.handles && u.handles[h] == CallbackDelegate(d)
      && (forall i :: 0 <= i < |u.freed| ==> u.freed[i] != h)
  {
    var t := SetFinishedStep(s, Some(d), code).0;
    SetFinishedOverwrites(s, Some(d), code);
    DisposedKeepsPinned(t, calls);
    NothingFreedAfterDispose(t, calls);
  }
}
