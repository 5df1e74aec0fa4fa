/**
 * The `ErrorCode` enumeration of PortAudioSharp and the numbers the C#
 * compiler gives its members: `NoError` and `NotInitialized` carry explicit
 * initializers, every other member takes the value of the member declared
 * before it plus one.
 */
module ErrorCodes {

  import opened Wrappers

  datatype ErrorCode =
    | NoError
    | NotInitialized
    | UnanticipatedHostError
    | InvalidChannelCount
    | InvalidSampleRate
    | InvalidDevice
    | InvalidFlag
    | SampleFormatNotSupported
    | BadIODeviceCombination
    | InsufficientMemory
    | BufferTooBig
    | BufferTooSmall
    | NullCallback
    | BadStreamPtr
    | TimedOut
    | InternalError
    | DeviceUnavailable
    | IncompatibleHostApiSpecificStreamInfo
    | StreamIsStopped
    | StreamIsNotStopped
    | InputOverflowed
    | OutputUnderflowed
    | HostApiNotFound
    | InvalidHostApi
    | CanNotReadFromACallbackStream
    | CanNotWriteToACallbackStream
    | CanNotReadFromAnOutputOnlyStream
    | CanNotWriteToAnInputOnlyStream
    | IncompatibleStreamHostApi
    | BadBufferPtr

  /** The exceptions the stream layer throws. A `PortAudioException` carries the
      raw native result, which C# stores in an `ErrorCode` whether or not it
      names a declared member. */
  datatype Exception =
    | PortAudioException(code: int)
    | ArgumentNullException

  /** The members in the order the enumeration declares them. */
  const Declaration: seq<ErrorCode> := [
    NoError,
    NotInitialized, UnanticipatedHostError, InvalidChannelCount, InvalidSampleRate,
    InvalidDevice, InvalidFlag, SampleFormatNotSupported, BadIODeviceCombination,
    InsufficientMemory, BufferTooBig, BufferTooSmall, NullCallback, BadStreamPtr,
    TimedOut, InternalError, DeviceUnavailable, IncompatibleHostApiSpecificStreamInfo,
    StreamIsStopped, StreamIsNotStopped, InputOverflowed, OutputUnderflowed,
    HostApiNotFound, InvalidHostApi, CanNotReadFromACallbackStream,
    CanNotWriteToACallbackStream, CanNotReadFromAnOutputOnlyStream,
    CanNotWriteToAnInputOnlyStream, IncompatibleStreamHostApi, BadBufferPtr
  ]

  /** The explicit initializer written next to a member, if any. */
  function Initializer(e: ErrorCode): Option<int> {
    match e
    case NoError => Some(0)
    case NotInitialized => Some(-10000)
    case _ => None
  }

  /** The position of a member in the declaration. */
  function Ordinal(e: ErrorCode): (k: nat)
    ensures k < |Declaration| && Declaration[k] == e
  {
    match e
    case NoError => 0
    case NotInitialized => 1
    case UnanticipatedHostError => 2
    case InvalidChannelCount => 3
    case InvalidSampleRate => 4
    case InvalidDevice => 5
    case InvalidFlag => 6
    case SampleFormatNotSupported => 7
    case BadIODeviceCombination => 8
    case InsufficientMemory => 9
    case BufferTooBig => 10
    case BufferTooSmall => 11
    case NullCallback => 12
    case BadStreamPtr => 13
    case TimedOut => 14
    case InternalError => 15
    case DeviceUnavailable => 16
    case IncompatibleHostApiSpecificStreamInfo => 17
    case StreamIsStopped => 18
    case StreamIsNotStopped => 19
    case InputOverflowed => 20
    case OutputUnderflowed => 21
    case HostApiNotFound => 22
    case InvalidHostApi => 23
    case CanNotReadFromACallbackStream => 24
    case CanNotWriteToACallbackStream => 25
    case CanNotReadFromAnOutputOnlyStream => 26
    case CanNotWriteToAnInputOnlyStream => 27
    case IncompatibleStreamHostApi => 28
    case BadBufferPtr => 29
  }

  /** C#'s rule for the k-th declared member: its initializer if it has one,
      otherwise 0 for the first member and the previous member's value plus one
      for the others. */
  function ValueAt(k: nat): int
    requires k < |Declaration|
  {
    match Initializer(Declaration[k])
    case Some(v) => v
    case None => if k == 0 then 0 else ValueAt(k - 1) + 1
  }

  /** The integer a member stands for (`(int)e` in C#). */
  function Value(e: ErrorCode): int {
    ValueAt(Ordinal(e))
  }

  /** Every member after `NotInitialized` is numbered implicitly: the k-th
      declared member (k >= 1) is -10000 + (k - 1). */
  lemma {:induction false} ImplicitLayout(k: nat)
    requires 1 <= k < |Declaration|
    ensures ValueAt(k) == -10000 + (k - 1)
  {
    if k > 1 {
      assert Initializer(Declaration[k]) == None;
      ImplicitLayout(k - 1);
    }
  }

  /** The value of every member in terms of its position: 0 for `NoError`,
      -10000 + (k - 1) for the k-th member after it. */
  lemma ValueByPosition(e: ErrorCode)
    ensures e == NoError <==> Ordinal(e) == 0
    ensures Value(e) == if e == NoError then 0 else -10000 + (Ordinal(e) - 1)
  {
    if e != NoError {
      ImplicitLayout(Ordinal(e));
    }
  }

  /** `NoError` is 0, and it is the only member that is 0. */
  lemma NoErrorIsZero(e: ErrorCode)
    ensures Value(NoError) == 0
    ensures Value(e) == 0 <==> e == NoError
  {
    ValueByPosition(e);
  }

  /** `NotInitialized` opens the error range at -10000 and `BadBufferPtr`,
      the last member, closes it at -9972. */
  lemma ErrorRangeEnds()
    ensures Value(NotInitialized) == -10000
    ensures Value(BadBufferPtr) == -9972
  {
    ImplicitLayout(29);
  }

  /** The 29 error members are numbered consecutively in declaration order. */
  lemma ConsecutiveErrorValues(k: nat)
    requires 1 <= k < |Declaration| - 1
    ensures ValueAt(k + 1) == ValueAt(k) + 1
  {
    ImplicitLayout(k);
    ImplicitLayout(k + 1);
  }

  /** Every member other than `NoError` is negative, inside [-10000, -9972];
      in particular no member is 1. */
  lemma ErrorsAreNegative(e: ErrorCode)
    requires e != NoError
    ensures -10000 <= Value(e) <= -9972
    ensures Value(e) < 0 && Value(e) != 1
  {
    ValueByPosition(e);
  }

  /** No two members share a value. */
  lemma ValuesDistinct(a: ErrorCode, b: ErrorCode)
    requires a != b
    ensures Value(a) != Value(b)
  {
    ValueByPosition(a);
    ValueByPosition(b);
    assert Ordinal(a) == Ordinal(b) ==> a == b;
  }
}
