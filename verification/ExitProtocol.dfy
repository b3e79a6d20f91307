/**
 Leaving the firmware: read the memory map, exit boot services with its key, retry once, jump.
 The firmware is arbitrary. At any call it may change its map, which takes a key it has not used before,
 and it may refuse any request. It accepts an exit only with the key of its current map (sections 7.2
 and 7.4 of the UEFI Specification).
 */
module ExitProtocol {
  import opened BootBytes

  /** The firmware's memory map as bytes, and the size of one descriptor. */
  datatype MemMap = MemMap(bytes: seq<Byte>, stride: nat)

  datatype Call = Console | FileIo | GetMap(ok: bool) | Exit(ok: bool)

  /** What the firmware does at one call: perhaps change its map, and serve or refuse. */
  datatype Move = Move(change: Change, willing: bool)
  datatype Change = Keep | Change(memMap: MemMap, key: nat)

  datatype Status = Success | BufferTooSmall | Refused

  /** How the loader ends: in the kernel, halted for want of an entry, or back in the firmware. */
  datatype Ending = Jumped | Halted | Returned(status: Status)

  /** The memory-map fields of the boot information; the map itself stays in the loader's buffer. */
  datatype Handoff = Handoff(bytes: nat, stride: nat)

  /** No map the firmware has, or may still change to, is longer than `n` bytes. */
  ghost predicate AllFit(current: MemMap, moves: seq<Move>, n: nat) {
    && |current.bytes| <= n
    && forall i :: 0 <= i < |moves| ==> moves[i].change.Change? ==> |moves[i].change.memMap.bytes| <= n
  }

  ghost predicate Extends(a: map<nat, MemMap>, b: map<nat, MemMap>) {
    forall k :: k in a ==> k in b && b[k] == a[k]
  }

  /** Move `i` is made, is willing, and keeps the map. */
  ghost predicate Steady(moves: seq<Move>, i: nat) {
    i < |moves| && moves[i].willing && moves[i].change.Keep?
  }

  ghost predicate Willing(moves: seq<Move>, i: nat) {
    i < |moves| && moves[i].willing
  }

  class Firmware {
    const moves: seq<Move>
    var next: nat
    var current: MemMap
    var key: nat
    var issued: map<nat, MemMap>
    var exited: bool
    ghost var calls: seq<Call>

    ghost predicate Valid()
      reads this
    {
      key in issued && issued[key] == current
    }

    /** The firmware's own move at a call. Past the end of `moves` it keeps its map and refuses. */
    method MakeMove() returns (willing: bool)
      requires Valid()
      modifies this`next, this`current, this`key, this`issued
      ensures Valid() && Extends(old(issued), issued) && next == old(next) + 1
      ensures willing == Willing(moves, old(next))
      ensures Steady(moves, old(next)) ==> current == old(current) && key == old(key)
      ensures forall n :: AllFit(old(current), moves, n) ==> AllFit(current, moves, n)
    {
      willing := false;
      if next < |moves| {
        willing := moves[next].willing;
        var change := moves[next].change;
        if change.Change? && change.key !in issued {
          current, key, issued := change.memMap, change.key, issued[change.key := change.memMap];
        }
      }
      next := next + 1;
    }

    /** A boot-time call whose result the loader does not use. */
    method Serve(call: Call)
      requires Valid() && !exited && !call.Exit?
      modifies this
      ensures Valid() && Extends(old(issued), issued) && next == old(next) + 1
      ensures !exited && calls == old(calls) + [call]
      ensures forall n :: AllFit(old(current), moves, n) ==> AllFit(current, moves, n)
    {
      var willing := MakeMove();
      calls := calls + [call];
    }

    /** GetMemoryMap into a buffer. */
    method GetMemoryMap(buffer: array<Byte>) returns (st: Status, size: nat, mapKey: nat, stride: nat)
      requires Valid() && !exited
      modifies this, buffer
      ensures Valid() && Extends(old(issued), issued) && next == old(next) + 1
      ensures !exited && calls == old(calls) + [GetMap(st == Success)]
      ensures forall n :: AllFit(old(current), moves, n) ==> AllFit(current, moves, n)
      ensures st == Success ==> size <= buffer.Length && mapKey == key && MemMap(buffer[..size], stride) == current
      ensures Willing(moves, old(next)) && AllFit(old(current), moves, buffer.Length) ==> st == Success
    {
      var willing := MakeMove();
      size, mapKey, stride := |current.bytes|, key, current.stride;
      st := if !willing then Refused else if buffer.Length < size then BufferTooSmall else Success;
      if st == Success {
        for i := 0 to size
          modifies buffer
          invariant buffer[..i] == current.bytes[..i]
        {
          buffer[i] := current.bytes[i];
        }
      }
      calls := calls + [GetMap(st == Success)];
    }

    /** ExitBootServices: only the key of the current map is accepted. */
    method ExitBootServices(mapKey: nat) returns (st: Status)
      requires Valid() && !exited
      modifies this
      ensures Valid() && Extends(old(issued), issued) && next == old(next) + 1
      ensures exited == (st == Success) && calls == old(calls) + [Exit(st == Success)]
      ensures st == Success ==> mapKey == key
      ensures forall n :: AllFit(old(current), moves, n) ==> AllFit(current, moves, n)
      ensures Steady(moves, old(next)) && mapKey == old(key) ==> st == Success
    {
      var willing := MakeMove();
      st := if willing && mapKey == key then Success else Refused;
      exited := st == Success;
      calls := calls + [Exit(st == Success)];
    }
  }

  /** After a failed exit only the two calls of the retry, and nothing after a successful one. */
  ghost predicate Disciplined(calls: seq<Call>) {
    forall i, j :: 0 <= i < j < |calls| && calls[i].Exit? ==> !calls[i].ok && (calls[j].GetMap? || calls[j].Exit?)
  }

  ghost predicate NoExit(calls: seq<Call>) {
    forall i :: 0 <= i < |calls| ==> !calls[i].Exit?
  }

  /** What the loader holds describes the firmware's final map. */
  ghost predicate Final(fw: Firmware, buffer: array<Byte>, h: Handoff)
    reads fw, buffer
  {
    fw.exited && h.bytes <= buffer.Length && MemMap(buffer[..h.bytes], h.stride) == fw.current
  }

  /**
   From the first GetMemoryMap of `efi_main` to the kernel jump; `flushes` is how many file calls the
   log flush makes. The last clause: whatever the firmware did before, a retry against a firmware that
   serves it and keeps its map at the last exit does reach the kernel.
   */
  method MapExitJump(fw: Firmware, buffer: array<Byte>, entry: nat, flushes: nat) returns (end: Ending, h: Handoff)
    requires fw.Valid() && !fw.exited && NoExit(fw.calls)
    modifies fw, buffer
    ensures Disciplined(fw.calls)
    ensures end.Jumped? ==> Final(fw, buffer, h)
    ensures end.Returned? ==> !fw.exited && end.status != Success
    ensures end.Jumped? <==> fw.exited && entry != 0
    ensures var n := old(fw.next);
            entry != 0 && AllFit(old(fw.current), fw.moves, buffer.Length) && Willing(fw.moves, n + 1) &&
            Willing(fw.moves, n + flushes + 3) && Steady(fw.moves, n + flushes + 4)
            ==> end.Jumped?
  {
    h := Handoff(0, 0);
    fw.Serve(Console);
    var st, size, mapKey, stride := fw.GetMemoryMap(buffer);
    if st != Success {
      fw.Serve(Console);
      return Returned(st), h;
    }
    h := Handoff(size, stride);
    Flush(fw, flushes);
    st := fw.ExitBootServices(mapKey);
    if st != Success {
      st, size, mapKey, stride := fw.GetMemoryMap(buffer);
      if st != Success {
        return Returned(st), h;
      }
      h := Handoff(size, stride);
      st := fw.ExitBootServices(mapKey);
      if st != Success {
        return Returned(st), h;
      }
    }
    end := if entry == 0 then Halted else Jumped;
  }

  /** The last log flush before the exit: file calls only. */
  method Flush(fw: Firmware, flushes: nat)
    requires fw.Valid() && !fw.exited && NoExit(fw.calls)
    modifies fw
    ensures fw.Valid() && !fw.exited && NoExit(fw.calls)
    ensures Extends(old(fw.issued), fw.issued) && fw.next == old(fw.next) + flushes
    ensures forall n :: AllFit(old(fw.current), fw.moves, n) ==> AllFit(fw.current, fw.moves, n)
  {
    for i := 0 to flushes
      invariant fw.Valid() && !fw.exited && NoExit(fw.calls)
      invariant Extends(old(fw.issued), fw.issued) && fw.next == old(fw.next) + i
      invariant forall n :: AllFit(old(fw.current), fw.moves, n) ==> AllFit(fw.current, fw.moves, n)
    {
      fw.Serve(FileIo);
    }
  }
}
