# PortAudioSharp stream lifecycle, modelled in Dafny

PortAudioSharp is a C# binding over the native PortAudio audio I/O library.
Almost all of it forwards single calls to the native library. The part with
logic of its own is `Stream`, the object that owns one native `PaStream`.
That is what this project models:

- the native stream pointer `streamPtr`, which is `IntPtr.Zero` once closed;
- the `disposed` guard;
- the GCHandles that pin the caller's user data, the processing callback and
  the optional finished callback;
- the unmanaged (`AllocHGlobal`) blocks that hold the per-direction
  `StreamParameters` around the native open call;
- the 1 / 0 / error decoding of `IsStopped` and `IsActive`.

It also models the numbering of the `ErrorCode` enumeration, on which that
decoding relies.

The native engine is an oracle. Each method takes the integer the native call
would return as an argument (`openResult` and `openedStream` for
`Pa_OpenStream`; `closeResult` for `Pa_CloseStream`, taken by `Close` and
by the three disposal methods; `nativeResult` for every other native call).
The .NET runtime is `Interop.Runtime`, which holds:

- a table of live GCHandles and the object each one pins;
- a table of live HGlobal blocks and the structure written into each;
- one counter that hands out fresh handles and addresses;
- a ghost log of every GCHandle freed;
- the set of objects whose finalizer is suppressed.

Freeing a handle or block that is not live is a precondition violation.
Because handles are never reused, any call sequence that verifies frees each
handle at most once. A C# exception is a `Fail`/`Failure` value (module
`Wrappers`). The method returns at the point of the `throw`, so nothing after
the `throw` runs.

Files:

- `Wrappers.dfy`: the `Option`, `Outcome` and `Result` types.
- `ErrorCodes.dfy`: the enumeration, its declaration order and C#'s
  implicit-numbering rule.
- `Interop.dfy`: the runtime (GCHandles, HGlobal, `SuppressFinalize`).
- `Lifecycle.dfy`: the abstract state of one stream, one function per
  lifecycle call, and the lemmas about any sequence of calls.
- `PortAudioStream.dfy`: the `Stream` and `_NativeInterfacingCallback`
  classes. `Close`, `dispose`, `Dispose`, `Finalize` and `SetFinishedCallback`
  are each proved to change the abstract state exactly as their `Lifecycle`
  function says. `Open`, `StageAndOpen` and `NativeInterfacingCallback.Free`
  state their effect on the runtime directly.

## Model

| member | source | states |
|---|---|---|
| ErrorCodes.Ordinal | PortAudioSharp/Enumerations/ErrorCode.cs:10-43 | each member's declared position k, with `Declaration[k]` being that member |
| ErrorCodes.ImplicitLayout | PortAudioSharp/Enumerations/ErrorCode.cs:14-42 | under C#'s rule ("explicit initializer, else previous + 1"), the k-th member after `NoError` has value -10000 + (k - 1) |
| ErrorCodes.ValueByPosition | PortAudioSharp/Enumerations/ErrorCode.cs:12-42 | every member's value from its position: 0 for `NoError`, -10000 + (k - 1) otherwise; only `NoError` has position 0 |
| ErrorCodes.NoErrorIsZero | PortAudioSharp/Enumerations/ErrorCode.cs:12 | `NoError` is 0 and is the only member equal to 0 |
| ErrorCodes.ErrorRangeEnds | PortAudioSharp/Enumerations/ErrorCode.cs:14-42 | `NotInitialized` is -10000 and `BadBufferPtr` is -9972 |
| ErrorCodes.ConsecutiveErrorValues | PortAudioSharp/Enumerations/ErrorCode.cs:14-42 | each error member is one more than the error member declared before it |
| ErrorCodes.ErrorsAreNegative | PortAudioSharp/Enumerations/ErrorCode.cs:8-42 | every member other than `NoError` lies in [-10000, -9972], so it is negative and never 1 |
| ErrorCodes.ValuesDistinct | PortAudioSharp/Enumerations/ErrorCode.cs:12-42 | distinct members have distinct values |
| Lifecycle.Check | PortAudioSharp/Stream.cs:303-305 | the `if (ec != NoError) throw` pattern: returns normally iff the code equals `NoError`'s value, otherwise throws an exception carrying that code |
| Lifecycle.CloseBehaviour | PortAudioSharp/Stream.cs:284-296 | zero pointer: no effect, no exception. Non-zero pointer and success: pointer becomes zero. Non-zero pointer and failure: throws the code, state unchanged |
| Lifecycle.CloseIdempotent | PortAudioSharp/Stream.cs:284-296 | after a `Close` that returned, a second `Close` is a no-op and does not throw, whatever the native engine would answer |
| Lifecycle.DisposeWhenDisposed | PortAudioSharp/Stream.cs:245-248 | once disposed, `dispose` has no effect and does not throw |
| Lifecycle.DisposeCloseFails | PortAudioSharp/Stream.cs:256-262 | if the inner `Close` throws, `dispose` throws the same code, frees nothing and leaves `disposed` false |
| Lifecycle.DisposeCompletes | PortAudioSharp/Stream.cs:245-263 | a completed `dispose` leaves the stream disposed with a zero pointer. It frees, once each, the user-data and stream-callback handles, plus the finished-callback handle iff one was set |
| Lifecycle.DisposeThenFinalize | PortAudioSharp/Stream.cs:228-263 | explicit `Dispose` then the finalizer's `dispose(false)`: the stream's handles are freed exactly once in total if either call completes, and not at all otherwise |
| Lifecycle.SetFinishedOverwrites | PortAudioSharp/Stream.cs:269-277 | a null delegate throws and changes nothing. Otherwise a fresh handle replaces `finishedCallback` whether or not the native call succeeds; the previous handle stays pinned; nothing is freed |
| Lifecycle.StepPreservesInv | PortAudioSharp/Stream.cs:245-328 | every lifecycle call keeps the invariant. The handle table is well formed and a disposed stream has a zero pointer. Until disposal the stream's handles are live and distinct, and each still pins what it was allocated for: the user data, or its own delegate |
| Lifecycle.RunPreservesInv | PortAudioSharp/Stream.cs:228-328 | along any sequence of calls, with any native results and exceptions caught, the invariant holds; no GCHandle is ever freed twice |
| Lifecycle.RunKeepsRegistration | PortAudioSharp/Stream.cs:184-187 | no call changes the user-data handle, the user-data object, or the stream callback (delegate and handle) set by the constructor |
| Lifecycle.CallbackPinnedUntilDisposed | PortAudioSharp/Stream.cs:184 | until disposal, after any sequence of calls, the stream-callback handle still pins the processing delegate the stream was opened with |
| Lifecycle.UserDataPinnedUntilDisposed | PortAudioSharp/Stream.cs:186-187 | until disposal, after any sequence of calls, the user-data handle still pins the object registered at construction |
| Lifecycle.NothingFreedAfterDispose | PortAudioSharp/Stream.cs:245-263 | after disposal, no sequence of calls frees anything again; the stream stays disposed with a zero pointer |
| Lifecycle.DisposedKeepsPinned | PortAudioSharp/Stream.cs:245-248 | once disposed, every handle still pinned stays pinned to the same object, whatever calls follow |
| Lifecycle.SetFinishedAfterDisposeLeaks | PortAudioSharp/Stream.cs:269-277 | `SetFinishedCallback` on a disposed stream pins its delegate under a handle that no later call ever frees |
| PortAudioStream.NativeInterfacingCallback.constructor | PortAudioSharp/Stream.cs:560-565 | pins the delegate with a fresh GCHandle and keeps the delegate |
| PortAudioStream.NewNativeInterfacingCallback | PortAudioSharp/Stream.cs:560-565 | a null delegate throws `ArgumentNullException` and allocates nothing; otherwise one fresh handle pins the delegate |
| PortAudioStream.NativeInterfacingCallback.Free | PortAudioSharp/Stream.cs:570-573 | releases exactly the callback's own handle, which must be live |
| PortAudioStream.Stream.Allocate | PortAudioSharp/Stream.cs:93-111 | field initializers: not disposed, zero pointer, no callbacks, no parameters |
| PortAudioStream.Stream.Open | PortAudioSharp/Stream.cs:173-226 | a null callback throws `ArgumentNullException` and allocates nothing. Otherwise it pins the callback (under the first fresh handle, kept as the stream's `streamCallback.handle`) and then the user data (under the next one), stages a fresh block iff a direction's parameters are present, and keeps both parameter sets. An open failure throws the code with the staged blocks still live; success frees them and yields a valid, undisposed stream holding the native pointer |
| PortAudioStream.Stream.StageAndOpen | PortAudioSharp/Stream.cs:193-225 | stages a block per present direction, stores the native pointer and checks the open code; only on success frees every staged block |
| PortAudioStream.StageParameters | PortAudioSharp/Stream.cs:196-205 | allocates a fresh block holding the parameters iff they are present; `IntPtr.Zero` otherwise |
| PortAudioStream.ReleaseParameters | PortAudioSharp/Stream.cs:222-225 | frees the block iff the pointer is not `IntPtr.Zero` |
| PortAudioStream.ReleaseRestores | PortAudioSharp/Stream.cs:193-225 | freeing both staged blocks restores the block table to what it was before staging |
| PortAudioStream.Stream.dispose | PortAudioSharp/Stream.cs:245-263 | changes the stream and runtime exactly as `Lifecycle.DisposeStep`; keeps `Valid()` |
| PortAudioStream.Stream.Dispose | PortAudioSharp/Stream.cs:236-240 | `dispose(true)`; the finalizer is suppressed iff that returned without throwing |
| PortAudioStream.Stream.Finalize | PortAudioSharp/Stream.cs:228-231 | `dispose(false)`, with the same effect as `Lifecycle.DisposeStep` |
| PortAudioStream.Stream.SetFinishedCallback | PortAudioSharp/Stream.cs:269-277 | changes the stream and runtime exactly as `Lifecycle.SetFinishedStep`; the new `finishedCallback` is fresh and holds the given delegate |
| PortAudioStream.Stream.Close | PortAudioSharp/Stream.cs:284-296 | changes the stream exactly as `Lifecycle.CloseStep`; may modify `streamPtr` only |
| PortAudioStream.Stream.Start | PortAudioSharp/Stream.cs:301-306 | returns iff the native code is `NoError`, otherwise throws that code; modifies nothing |
| PortAudioStream.Stream.Stop | PortAudioSharp/Stream.cs:312-317 | returns iff the native code is `NoError`, otherwise throws that code; modifies nothing |
| PortAudioStream.Stream.Abort | PortAudioSharp/Stream.cs:323-328 | returns iff the native code is `NoError`, otherwise throws that code; modifies nothing |
| PortAudioStream.Stream.IsStopped | PortAudioSharp/Stream.cs:345-359 | 1 gives true, 0 gives false, any other value throws that value |
| PortAudioStream.Stream.IsActive | PortAudioSharp/Stream.cs:375-389 | 1 gives true, 0 gives false, any other value throws that value |
| PortAudioStream.QueriesDecodeErrorCodes | PortAudioSharp/Stream.cs:339-341 | the two queries decode alike. `NoError` (0) reads as false, every other declared code as an exception carrying it, and only the undeclared 1 reads as true |
| PortAudioStream.UserDataRoundTrip | PortAudioSharp/Stream.cs:525-526 | on an undisposed stream, `GetUserData` applied to the token given to the native engine returns the object registered at construction |

## Behaviour of the code worth knowing

The model follows the code in each of these cases:

- The constructor's own documentation (PortAudioSharp/Stream.cs:148-150)
  says a NULL callback opens the stream in blocking read/write mode. The code
  instead throws `ArgumentNullException` when it wraps the callback
  (Stream.cs:184, 562), before anything is pinned.
- The constructor does not check that at least one of the two parameter sets
  is present.
- When the native open fails, the constructor throws before it frees the
  staged parameter blocks (PortAudioSharp/Stream.cs:218-225), so the blocks
  leak. The user-data and callback handles also stay pinned.
- `dispose` does not absorb an exception from its inner `Close`: the call
  throws, nothing is freed and `disposed` stays false. `Dispose` then skips
  `GC.SuppressFinalize`, so the finalizer tries again later.
- A second `SetFinishedCallback` replaces the previous registration but never
  frees its handle. The new handle is stored even when the native call fails.
  Called after disposal, it pins a handle that nothing frees any more.
- After disposal, `Start`, `Stop`, `Abort`, `Close` and the queries do not
  check `disposed`. They pass the zero pointer to the native engine; only
  `Close` skips the native call.

## Left out

- The P/Invoke declarations (`Native`) and the static `PortAudio` facade
  (initialize/terminate, device, version and error-text queries). These are
  foreign calls; their results appear only as integer arguments.
- `CpuLoad`: a floating-point native query.
- The real-time callback invocation, its timing and the function pointer
  (`Ptr`, `Marshal.GetFunctionPointerForDelegate`), which is only handed to
  the native engine.
- `Stream.Open`: `sampleRate`, `framesPerBuffer` and `streamFlags` are
  accepted but only travel to the native open call.
- `Stream.Open`: when the constructor throws, the half-built C# object is not
  returned, and its later finalization, which runs `dispose(false)` on it, is
  not modelled. After a failed native open that finalizer would free the
  handles as usual. After a null callback (Stream.cs:562) it would reach
  `userDataHandle.Free()` (Stream.cs:257) on a handle that was never
  allocated; in .NET that throws on the finalizer thread.
- The garbage collector's finalizer thread. The finalizer is modelled as one
  more sequential `dispose(false)` call (`Stream.Finalize`), and the
  non-atomic `disposed` check is not modelled as a race.
- `PortAudioStream.Stream.GetUserData` returns the pinned target. It models
  neither the cast to `UD` nor `GCHandle.FromIntPtr` on a handle that is not
  live: such a handle is excluded by its precondition.
- The struct layout and marshalling of `StreamParameters`, `DeviceInfo`,
  `VersionInfo` and `StreamCallbackTimeInfo`, and `StreamParameters.ToString`:
  these are binary-interface and formatting concerns.
- The flag enumerations `StreamFlags`, `SampleFormat`, `StreamCallbackFlags`
  and `StreamCallbackResult`: inert constants whose combinations the native
  engine checks.
- `PortAudioException`: only the code it carries is modelled; its message is
  not.
- `LoadNativeLibrary`, whose body is commented out, and the build script
  scripts/generate.py, which only renders templates to files.
