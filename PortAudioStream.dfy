/**
 * `PortAudioSharp.Stream` and its helper `_NativeInterfacingCallback`.
 * Every call into the native engine is replaced by an argument carrying the
 * integer it would return; the .NET runtime is `Interop.Runtime`.
 */
module PortAudioStream {

  import opened Wrappers
  import opened ErrorCodes
  import opened Interop
  import opened Lifecycle

  /** `_NativeInterfacingCallback<CB>`: a delegate kept pinned by a GCHandle
      so the native engine can call it. */
  class NativeInterfacingCallback {
    const callback: Delegate
    const handle: nat

    /** The constructor past its null check: `GCHandle.Alloc(cb)`. */
    constructor (cb: Delegate, rt: Runtime)
      requires rt.Valid()
      modifies rt
      ensures rt.Valid()
      ensures callback == cb && handle == old(rt.next) && rt.next == old(rt.next) + 1
      ensures rt.handles == old(rt.handles)[handle := CallbackDelegate(cb)]
      ensures rt.blocks == old(rt.blocks) && rt.freed == old(rt.freed)
      ensures rt.finalizeSuppressed == old(rt.finalizeSuppressed)
    {
      var h := rt.Alloc(CallbackDelegate(cb));
      callback, handle := cb, h;
    }

    /** `Free()`: release the pinning handle. */
    method Free(rt: Runtime)
      requires rt.Valid() && handle in rt.handles
      modifies rt
      ensures rt.Valid()
      ensures rt.handles == old(rt.handles) - {handle} && rt.freed == old(rt.freed) + [handle]
      ensures rt.blocks == old(rt.blocks) && rt.next == old(rt.next)
      ensures rt.finalizeSuppressed == old(rt.finalizeSuppressed)
    {
      rt.Free(handle);
    }
  }

  /** `new _NativeInterfacingCallback<CB>(cb)`: a null delegate throws
      `ArgumentNullException` before anything is pinned. */
  method NewNativeInterfacingCallback(cb: Option<Delegate>, rt: Runtime)
    returns (r: Result<NativeInterfacingCallback, Exception>)
    requires rt.Valid()
    modifies rt
    ensures rt.Valid()
    ensures cb.None? ==> r == Failure(ArgumentNullException) && unchanged(rt)
    ensures cb.Some? ==>
      && r.Success? && fresh(r.value)
      && r.value.callback == cb.value && r.value.handle == old(rt.next)
      && rt.next == old(rt.next) + 1
      && rt.handles == old(rt.handles)[r.value.handle := CallbackDelegate(cb.value)]
      && rt.blocks == old(rt.blocks) && rt.freed == old(rt.freed)
      && rt.finalizeSuppressed == old(rt.finalizeSuppressed)
  {
    if cb.None? {
      return Failure(ArgumentNullException);
    }
    var c := new NativeInterfacingCallback(cb.value, rt);
    r := Success(c);
  }

  class Stream {
    /** The runtime the stream's handles and blocks live in. */
    const rt: Runtime

    var disposed: bool
    var streamPtr: int
    var userDataHandle: nat
    var streamCallback: NativeInterfacingCallback?
    var finishedCallback: NativeInterfacingCallback?
    var inputParameters: Option<StreamParameters>
    var outputParameters: Option<StreamParameters>

    /** The user-data object passed to the constructor. */
    ghost var userData: nat

    /** The stream's state in the terms of `Lifecycle`. */
    ghost function Abs(): StreamState
      reads this, rt
      requires streamCallback != null
    {
      StreamState(
        streamPtr, disposed, userDataHandle, userData,
        PinnedCallback(streamCallback.callback, streamCallback.handle),
        if finishedCallback == null then None
        else Some(PinnedCallback(finishedCallback.callback, finishedCallback.handle)),
        rt.handles, rt.freed, rt.next)
    }

    ghost predicate Valid()
      reads this, rt
    {
      && rt.Valid()
      && streamCallback != null
      && Inv(Abs())
    }

    /** Allocation with the field initializers: not disposed, a zero native
        pointer, no callbacks and no parameters yet. */
    constructor Allocate(rt: Runtime)
      ensures this.rt == rt && !disposed && streamPtr == 0 && userDataHandle == 0
      ensures streamCallback == null && finishedCallback == null
      ensures inputParameters.None? && outputParameters.None?
    {
      this.rt := rt;
      disposed := false;
      streamPtr := 0;
      userDataHandle := 0;
      streamCallback := null;
      finishedCallback := null;
      inputParameters := None;
      outputParameters := None;
      userData := 0;
    }

    /** The `Stream(...)` constructor. `openResult` and `openedStream` are what
        `Pa_OpenStream` returns and writes to its `out` argument; `sampleRate`,
        `framesPerBuffer` and `streamFlags` only travel to that call.
        `inBlock`/`outBlock` name the staged parameter blocks (0 for none). */
    static method Open(
      rt: Runtime,
      inParams: Option<StreamParameters>,
      outParams: Option<StreamParameters>,
      sampleRate: real,
      framesPerBuffer: uint32,
      streamFlags: uint32,
      callback: Option<Delegate>,
      userData: nat,
      openResult: int,
      openedStream: int)
      returns (r: Result<Stream, Exception>, ghost inBlock: nat, ghost outBlock: nat)
      requires rt.Valid()
      modifies rt
      ensures rt.Valid()
      ensures rt.finalizeSuppressed == old(rt.finalizeSuppressed)
      // a null callback throws before anything is allocated
      ensures callback.None? ==>
        r == Failure(ArgumentNullException) && unchanged(rt) && inBlock == 0 && outBlock == 0
      // otherwise the callback, then the user data, are pinned ...
      ensures callback.Some? ==>
        && rt.handles == old(rt.handles)[old(rt.next) := CallbackDelegate(callback.value)]
                                        [old(rt.next) + 1 := UserObject(userData)]
        && rt.freed == old(rt.freed)
      // ... and a block is staged for a direction iff its parameters are present
      ensures callback.Some? ==>
        && (inBlock != 0 <==> inParams.Some?) && (outBlock != 0 <==> outParams.Some?)
        && inBlock !in old(rt.blocks) && outBlock !in old(rt.blocks)
        && (inBlock != 0 && outBlock != 0 ==> inBlock != outBlock)
      // a failed open throws its code before the blocks are freed: they stay live
      ensures callback.Some? && openResult != 0 ==>
        && r == Failure(PortAudioException(openResult))
        && rt.blocks == Staged(Staged(old(rt.blocks), inBlock, inParams), outBlock, outParams)
      // a successful open frees every staged block and yields a valid, open stream
      ensures callback.Some? && openResult == 0 ==>
        && rt.blocks == old(rt.blocks)
        && r.Success? && fresh(r.value)
        && r.value.Valid() && r.value.rt == rt
        && r.value.streamPtr == openedStream && !r.value.disposed
        && r.value.inputParameters == inParams && r.value.outputParameters == outParams
        && r.value.userData == userData
        && r.value.userDataHandle == old(rt.next) + 1
        && r.value.finishedCallback == null
        && r.value.streamCallback != null && r.value.streamCallback.callback == callback.value
        && r.value.streamCallback.handle == old(rt.next)
    {
      inBlock, outBlock := 0, 0;
      ghost var n, pinned := rt.next, rt.handles;
      var s := new Stream.Allocate(rt);

      var cb := NewNativeInterfacingCallback(callback, rt);
      if cb.Failure? {
        return Failure(cb.error), inBlock, outBlock;
      }
      s.streamCallback := cb.value;

      s.userDataHandle := rt.Alloc(UserObject(userData));
      s.userData := userData;
      assert s.streamCallback.handle == n && s.userDataHandle == n + 1;
      assert rt.handles == pinned[n := CallbackDelegate(callback.value)][n + 1 := UserObject(userData)];
      assert Registered(s.Abs());

      s.inputParameters := inParams;
      s.outputParameters := outParams;

      var status: Outcome<Exception>;
      status, inBlock, outBlock := s.StageAndOpen(inParams, outParams, openResult, openedStream);
      if status.Fail? {
        return Failure(status.error), inBlock, outBlock;
      }
      r := Success(s);
    }

    /** The second half of the constructor: stage a parameter block per
        present direction, issue `Pa_OpenStream`, throw on failure, and only
        then free the staged blocks. */
    method StageAndOpen(
      inParams: Option<StreamParameters>,
      outParams: Option<StreamParameters>,
      openResult: int,
      openedStream: int)
      returns (r: Outcome<Exception>, ghost inBlock: nat, ghost outBlock: nat)
      requires Valid() && !disposed
      modifies this`streamPtr, rt
      ensures Valid() && streamPtr == openedStream
      ensures r == Check(openResult)
      ensures rt.handles == old(rt.handles) && rt.freed == old(rt.freed)
      ensures rt.finalizeSuppressed == old(rt.finalizeSuppressed)
      ensures (inBlock != 0 <==> inParams.Some?) && (outBlock != 0 <==> outParams.Some?)
      ensures inBlock !in old(rt.blocks) && outBlock !in old(rt.blocks)
      ensures inBlock != 0 && outBlock != 0 ==> inBlock != outBlock
      ensures r.Fail? ==>
        rt.blocks == Staged(Staged(old(rt.blocks), inBlock, inParams), outBlock, outParams)
      ensures r.Pass? ==> rt.blocks == old(rt.blocks)
    {
      ghost var before := rt.blocks;
      var inParamsPtr := StageParameters(rt, inParams);
      var outParamsPtr := StageParameters(rt, outParams);
      inBlock, outBlock := inParamsPtr, outParamsPtr;

      streamPtr := openedStream;
      r := Check(openResult);
      if r.Fail? {
        return;
      }

      ReleaseParameters(rt, inParamsPtr);
      ReleaseParameters(rt, outParamsPtr);
      ReleaseRestores(before, inBlock, inParams, outBlock, outParams);
    }

    /** `dispose(bool disposing)`, proved to act as `Lifecycle.DisposeStep`. */
    method dispose(disposing: bool, closeResult: int) returns (r: Outcome<Exception>)
      requires Valid()
      modifies this`streamPtr, this`disposed, rt
      ensures Valid()
      ensures (Abs(), r) == DisposeStep(old(Abs()), disposing, closeResult)
      ensures rt.blocks == old(rt.blocks) && rt.finalizeSuppressed == old(rt.finalizeSuppressed)
    {
      if disposed {
        return Pass;
      }
      ghost var s0 := Abs();
      r := Close(closeResult);
      if r.Fail? {
        return;
      }
      assert Abs() == CloseStep(s0, closeResult).0;
      rt.Free(userDataHandle);
      streamCallback.Free(rt);
      if finishedCallback != null {
        finishedCallback.Free(rt);
      }
      disposed := true;
      DisposeCompletes(s0, disposing, closeResult);
    }

    /** `Dispose()`: `dispose(true)`, then, only if that returned,
        `GC.SuppressFinalize(this)`. */
    method Dispose(closeResult: int) returns (r: Outcome<Exception>)
      requires Valid()
      modifies this`streamPtr, this`disposed, rt
      ensures Valid()
      ensures (Abs(), r) == DisposeStep(old(Abs()), true, closeResult)
      ensures rt.blocks == old(rt.blocks)
      ensures rt.finalizeSuppressed ==
        old(rt.finalizeSuppressed) + (if r == Pass then {this} else {})
    {
      r := dispose(true, closeResult);
      if r == Pass {
        rt.SuppressFinalize(this);
      }
    }

    /** The finalizer `~Stream()`: `dispose(false)`. */
    method Finalize(closeResult: int) returns (r: Outcome<Exception>)
      requires Valid()
      modifies this`streamPtr, this`disposed, rt
      ensures Valid()
      ensures (Abs(), r) == DisposeStep(old(Abs()), false, closeResult)
      ensures rt.blocks == old(rt.blocks) && rt.finalizeSuppressed == old(rt.finalizeSuppressed)
    {
      r := dispose(false, closeResult);
    }

    /** `SetFinishedCallback(fcb)`, proved to act as `Lifecycle.SetFinishedStep`. */
    method SetFinishedCallback(fcb: Option<Delegate>, nativeResult: int)
      returns (r: Outcome<Exception>)
      requires Valid()
      modifies this`finishedCallback, rt
      ensures Valid()
      ensures (Abs(), r) == SetFinishedStep(old(Abs()), fcb, nativeResult)
      ensures fcb.Some? ==> fresh(finishedCallback) && finishedCallback.callback == fcb.value
      ensures rt.blocks == old(rt.blocks) && rt.finalizeSuppressed == old(rt.finalizeSuppressed)
    {
      ghost var s0 := Abs();
      var cb := NewNativeInterfacingCallback(fcb, rt);
      if cb.Failure? {
        return Fail(cb.error);
      }
      finishedCallback := cb.value;
      r := Check(nativeResult);
      SetFinishedOverwrites(s0, fcb, nativeResult);
    }

    /** `Close()`, proved to act as `Lifecycle.CloseStep`: the native close is
        only issued while the pointer is non-zero, and the pointer is cleared
        only when it succeeds. */
    method Close(closeResult: int) returns (r: Outcome<Exception>)
      requires Valid()
      modifies this`streamPtr
      ensures Valid()
      ensures (Abs(), r) == CloseStep(old(Abs()), closeResult)
    {
      if streamPtr == 0 {
        return Pass;
      }
      r := Check(closeResult);
      if r.Fail? {
        return;
      }
      streamPtr := 0;
    }

    /** `Start()`: throws the native code unless it is `NoError`; changes no
        field of the stream. */
    method Start(nativeResult: int) returns (r: Outcome<Exception>)
      ensures r == Pass <==> nativeResult == Value(NoError)
      ensures r != Pass ==> r == Fail(PortAudioException(nativeResult))
    {
      r := Check(nativeResult);
    }

    /** `Stop()`: as `Start`, for `Pa_StopStream`. */
    method Stop(nativeResult: int) returns (r: Outcome<Exception>)
      ensures r == Pass <==> nativeResult == Value(NoError)
      ensures r != Pass ==> r == Fail(PortAudioException(nativeResult))
    {
      r := Check(nativeResult);
    }

    /** `Abort()`: as `Start`, for `Pa_AbortStream`. */
    method Abort(nativeResult: int) returns (r: Outcome<Exception>)
      ensures r == Pass <==> nativeResult == Value(NoError)
      ensures r != Pass ==> r == Fail(PortAudioException(nativeResult))
    {
      r := Check(nativeResult);
    }

    /** `IsStopped`: 1 is true, 0 is false, anything else is thrown. */
    function IsStopped(nativeResult: int): (r: Result<bool, Exception>)
      ensures r.Success? <==> nativeResult == 1 || nativeResult == 0
      ensures r.Success? ==> r.value == (nativeResult == 1)
      ensures r.Failure? ==> r.error == PortAudioException(nativeResult)
    {
      if nativeResult == 1 then Success(true)
      else if nativeResult == 0 then Success(false)
      else Failure(PortAudioException(nativeResult))
    }

    /** `IsActive`: the same decoding as `IsStopped`, for `Pa_IsStreamActive`. */
    function IsActive(nativeResult: int): (r: Result<bool, Exception>)
      ensures r.Success? <==> nativeResult == 1 || nativeResult == 0
      ensures r.Success? ==> r.value == (nativeResult == 1)
      ensures r.Failure? ==> r.error == PortAudioException(nativeResult)
    {
      if nativeResult == 1 then Success(true)
      else if nativeResult == 0 then Success(false)
      else Failure(PortAudioException(nativeResult))
    }

    /** `GetUserData<UD>(userDataPtr)`: the object the handle pins. */
    static function GetUserData(rt: Runtime, userDataPtr: nat): Pinned
      reads rt
      requires userDataPtr in rt.handles
    {
      rt.Target(userDataPtr)
    }
  }

  /** The blocks after staging `p` at `addr`: unchanged when there are no
      parameters. */
  function Staged(blocks: map<nat, StreamParameters>, addr: nat, p: Option<StreamParameters>)
    : map<nat, StreamParameters>
  {
    if p.Some? then blocks[addr := p.value] else blocks
  }

  /** The blocks after `if (ptr != IntPtr.Zero) Marshal.FreeHGlobal(ptr)`. */
  function Released(blocks: map<nat, StreamParameters>, addr: nat): map<nat, StreamParameters> {
    if addr != 0 then blocks - {addr} else blocks
  }

  /** A block holding `p` when parameters are given (`AllocHGlobal` and
      `StructureToPtr`), `IntPtr.Zero` otherwise. */
  method StageParameters(rt: Runtime, p: Option<StreamParameters>) returns (addr: nat)
    requires rt.Valid()
    modifies rt
    ensures rt.Valid()
    ensures addr != 0 <==> p.Some?
    ensures p.Some? ==> addr == old(rt.next) && rt.next == old(rt.next) + 1
    ensures p.None? ==> rt.next == old(rt.next)
    ensures addr !in old(rt.blocks)
    ensures rt.blocks == Staged(old(rt.blocks), addr, p)
    ensures rt.handles == old(rt.handles) && rt.freed == old(rt.freed)
    ensures rt.finalizeSuppressed == old(rt.finalizeSuppressed)
  {
    addr := 0;
    if p.Some? {
      addr := rt.AllocHGlobal(p.value);
    }
  }

  /** `if (ptr != IntPtr.Zero) Marshal.FreeHGlobal(ptr)`. */
  method ReleaseParameters(rt: Runtime, addr: nat)
    requires rt.Valid() && (addr != 0 ==> addr in rt.blocks)
    modifies rt
    ensures rt.Valid()
    ensures rt.blocks == Released(old(rt.blocks), addr)
    ensures rt.handles == old(rt.handles) && rt.freed == old(rt.freed) && rt.next == old(rt.next)
    ensures rt.finalizeSuppressed == old(rt.finalizeSuppressed)
  {
    if addr != 0 {
      rt.FreeHGlobal(addr);
    }
  }

  /** Releasing both staged blocks gives back the blocks there were before. */
  lemma ReleaseRestores(
    m: map<nat, StreamParameters>,
    a: nat, p: Option<StreamParameters>,
    b: nat, q: Option<StreamParameters>)
    requires a !in m && b !in m
    requires (a != 0 <==> p.Some?) && (b != 0 <==> q.Some?)
    requires a != 0 && b != 0 ==> a != b
    ensures Released(Released(Staged(Staged(m, a, p), b, q), a), b) == m
  {
    var l := Released(Released(Staged(Staged(m, a, p), b, q), a), b);
    assert l.Keys == m.Keys;
  }

  /** The two queries decode every native result alike, and read every
      declared error code correctly: `NoError` (0) as false, every other
      member as an exception carrying it; only the undeclared 1 reads true. */
  lemma QueriesDecodeErrorCodes(s: Stream, e: ErrorCode)
    ensures forall v :: s.IsStopped(v) == s.IsActive(v)
    ensures s.IsStopped(Value(e)) ==
      if e == NoError then Success(false) else Failure(PortAudioException(Value(e)))
    ensures s.IsStopped(1) == Success(true) && Value(e) != 1
  {
    NoErrorIsZero(e);
    if e != NoError {
      ErrorsAreNegative(e);
    }
  }

  /** While the stream is not disposed, `GetUserData` on the token handed to
      the native engine at construction returns the object registered there. */
  lemma UserDataRoundTrip(s: Stream)
    requires s.Valid() && !s.disposed
    ensures s.userDataHandle in s.rt.handles
    ensures Stream.GetUserData(s.rt, s.userDataHandle) == UserObject(s.userData)
  {
  }
}
