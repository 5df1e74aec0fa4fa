/**
 * The parts of the .NET runtime the stream layer leans on, reduced to what
 * it does with them: `GCHandle.Alloc`/`Free`/`FromIntPtr(..).Target`
 * (a table of live handles and the object each one pins),
 * `Marshal.AllocHGlobal` + `StructureToPtr` / `FreeHGlobal` (a table of live
 * unmanaged blocks and the parameter structure written into each), and
 * `GC.SuppressFinalize`. Handles and block addresses are positive integers
 * drawn from one counter, so none is ever handed out twice; 0 plays
 * `IntPtr.Zero`.
 */
module Interop {

  newtype uint32 = x: int | 0 <= x < 0x1_0000_0000

  /** A managed delegate instance, known only by its identity. */
  datatype Delegate = Delegate(id: nat)

  /** What a GCHandle keeps alive: the caller's user-data object (known by its
      identity) or a callback delegate. */
  datatype Pinned = UserObject(obj: nat) | CallbackDelegate(fn: Delegate)

  /** `StreamParameters`, the per-direction descriptor handed to the native
      open call. Its fields are carried, never interpreted, by this layer. */
  datatype StreamParameters = StreamParameters(
    device: int,
    channelCount: int,
    sampleFormat: uint32,
    suggestedLatency: real,
    hostApiSpecificStreamInfo: int)

  /** The handle table is well formed: every live handle and every freed one
      was handed out before `next`, nothing freed is live again, and no handle
      occurs twice in the free log (no double free). */
  ghost predicate TableValid(handles: map<nat, Pinned>, freed: seq<nat>, next: nat) {
    && 1 <= next
    && (forall h :: h in handles ==> 1 <= h < next)
    && (forall i :: 0 <= i < |freed| ==> 1 <= freed[i] < next && freed[i] !in handles)
    && (forall i, j :: 0 <= i < j < |freed| ==> freed[i] != freed[j])
  }

  class Runtime {
    /** Live GCHandles and the object each one pins. */
    var handles: map<nat, Pinned>
    /** Live HGlobal blocks and the structure marshalled into each. */
    var blocks: map<nat, StreamParameters>
    /** The next handle or address to hand out. */
    var next: nat
    /** Objects whose finalizer the program has suppressed. */
    var finalizeSuppressed: set<object>
    /** Every GCHandle freed so far, in order. */
    ghost var freed: seq<nat>

    ghost predicate Valid()
      reads this
    {
      && TableValid(handles, freed, next)
      && (forall a :: a in blocks ==> 1 <= a < next)
    }

    constructor ()
      ensures Valid()
      ensures handles == map[] && blocks == map[] && freed == [] && finalizeSuppressed == {}
    {
      handles, blocks, next, finalizeSuppressed := map[], map[], 1, {};
      freed := [];
    }

    /** `GCHandle.Alloc(target)`. */
    method Alloc(target: Pinned) returns (h: nat)
      requires Valid()
      modifies this
      ensures Valid()
      ensures h == old(next) && next == old(next) + 1 && h !in old(handles)
      ensures handles == old(handles)[h := target]
      ensures blocks == old(blocks) && freed == old(freed)
      ensures finalizeSuppressed == old(finalizeSuppressed)
    {
      h := next;
      handles := handles[h := target];
      next := next + 1;
    }

    /** `GCHandle.Free()`; freeing a handle that is not live is a fault of the
        program, so only live handles may be freed. */
    method Free(h: nat)
      requires Valid() && h in handles
      modifies this
      ensures Valid()
      ensures handles == old(handles) - {h} && freed == old(freed) + [h]
      ensures blocks == old(blocks) && next == old(next)
      ensures finalizeSuppressed == old(finalizeSuppressed)
    {
      handles := handles - {h};
      freed := freed + [h];
    }

    /** `GCHandle.FromIntPtr(h).Target`. */
    function Target(h: nat): Pinned
      reads this
      requires h in handles
    {
      handles[h]
    }

    /** `Marshal.AllocHGlobal(Marshal.SizeOf(p))` followed by
        `Marshal.StructureToPtr(p, addr, false)`. */
    method AllocHGlobal(p: StreamParameters) returns (addr: nat)
      requires Valid()
      modifies this
      ensures Valid()
      ensures addr == old(next) && next == old(next) + 1 && addr != 0 && addr !in old(blocks)
      ensures blocks == old(blocks)[addr := p]
      ensures handles == old(handles) && freed == old(freed)
      ensures finalizeSuppressed == old(finalizeSuppressed)
    {
      addr := next;
      blocks := blocks[addr := p];
      next := next + 1;
    }

    /** `Marshal.FreeHGlobal(addr)` on a live block. */
    method FreeHGlobal(addr: nat)
      requires Valid() && addr in blocks
      modifies this
      ensures Valid()
      ensures blocks == old(blocks) - {addr}
      ensures handles == old(handles) && freed == old(freed) && next == old(next)
      ensures finalizeSuppressed == old(finalizeSuppressed)
    {
      blocks := blocks - {addr};
    }

    /** `GC.SuppressFinalize(obj)`. */
    method SuppressFinalize(obj: object)
      modifies this
      ensures finalizeSuppressed == old(finalizeSuppressed) + {obj}
      ensures handles == old(handles) && blocks == old(blocks)
      ensures freed == old(freed) && next == old(next)
    {
      finalizeSuppressed := finalizeSuppressed + {obj};
    }
  }
}
