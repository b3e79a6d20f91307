/**
 The loader seen from the file it is given: the ELF header and the program headers as chapters 4 and 5 of the System V
 gABI lay them out, and what of them ends up where in memory.
 */
module ElfFile {
  import opened Words
  import opened BootBytes
  import opened ByteFormats
  import opened ElfLoader

  // ---- The records.

  datatype ProgramHeader = ProgramHeader(typ: nat, flags: nat, offset: nat, vaddr: nat, paddr: nat, filesz: nat,
                                         memsz: nat, align: nat)

  datatype FileHeader = FileHeader(ident: seq<Byte>, typ: nat, machine: nat, version: nat, entry: nat, phoff: nat,
                                   shoff: nat, flags: nat, ehsize: nat, phentsize: nat, phnum: nat, shentsize: nat,
                                   shnum: nat, shstrndx: nat)

  function PhdrBytes(h: ProgramHeader): (b: seq<Byte>)
    ensures |b| == 56
  {
    Le(h.typ, 4) + (Le(h.flags, 4) + (Le(h.offset, 8) + (Le(h.vaddr, 8) + (Le(h.paddr, 8) +
    (Le(h.filesz, 8) + (Le(h.memsz, 8) + Le(h.align, 8)))))))
  }

  function EhdrBytes(e: FileHeader): (b: seq<Byte>)
    requires |e.ident| == 16
    ensures |b| == 64
  {
    e.ident + (Le(e.typ, 2) + (Le(e.machine, 2) + (Le(e.version, 4) + (Le(e.entry, 8) + (Le(e.phoff, 8) +
    (Le(e.shoff, 8) + (Le(e.flags, 4) + (Le(e.ehsize, 2) + (Le(e.phentsize, 2) + (Le(e.phnum, 2) +
    (Le(e.shentsize, 2) + (Le(e.shnum, 2) + Le(e.shstrndx, 2)))))))))))))
  }

  ghost predicate PhdrFits(h: ProgramHeader) {
    && h.typ < U32_LIMIT && h.offset < U64_LIMIT && h.vaddr < U64_LIMIT && h.paddr < U64_LIMIT
    && h.filesz < U64_LIMIT && h.memsz < U64_LIMIT
  }

  ghost predicate EhdrFits(e: FileHeader) {
    |e.ident| == 16 && e.machine < 0x1_0000 && e.phoff < U64_LIMIT && e.phentsize < 0x1_0000 && e.phnum < 0x1_0000
  }

  /** A program header is read back field by field. */
  lemma PhdrReadsBack(f: seq<Byte>, off: nat, h: ProgramHeader)
    requires PhdrFits(h) && Stored(f, off, PhdrBytes(h))
    ensures PhdrAt(f, off) == Phdr(h.typ, h.offset, h.vaddr, h.paddr, h.filesz, h.memsz)
  {
    var b7 := Le(h.align, 8);
    var b6 := Le(h.memsz, 8) + b7;
    var b5 := Le(h.filesz, 8) + b6;
    var b4 := Le(h.paddr, 8) + b5;
    var b3 := Le(h.vaddr, 8) + b4;
    var b2 := Le(h.offset, 8) + b3;
    var b1 := Le(h.flags, 4) + b2;
    StoredSplit(f, off, Le(h.typ, 4), b1);
    StoredSplit(f, off + 4, Le(h.flags, 4), b2);
    StoredSplit(f, off + 8, Le(h.offset, 8), b3);
    StoredSplit(f, off + 16, Le(h.vaddr, 8), b4);
    StoredSplit(f, off + 24, Le(h.paddr, 8), b5);
    StoredSplit(f, off + 32, Le(h.filesz, 8), b6);
    StoredSplit(f, off + 40, Le(h.memsz, 8), b7);
    Word32(f, off, h.typ);
    Word64(f, off + 8, h.offset);
    Word64(f, off + 16, h.vaddr);
    Word64(f, off + 24, h.paddr);
    Word64(f, off + 32, h.filesz);
    Word64(f, off + 40, h.memsz);
  }

  lemma IdentReadsBack(f: seq<Byte>, ident: seq<Byte>)
    requires |ident| == 16 && Stored(f, 0, ident)
    ensures f[0] == 0x7f && f[1] == 0x45 && f[2] == 0x4c && f[3] == 0x46 && f[4] == 2 <==>
            ident[..5] == [0x7f, 0x45, 0x4c, 0x46, 2]
  {
    StoredAt(f, 0, ident, 0);
    StoredAt(f, 0, ident, 1);
    StoredAt(f, 0, ident, 2);
    StoredAt(f, 0, ident, 3);
    StoredAt(f, 0, ident, 4);
    assert ident[..5] == [ident[0], ident[1], ident[2], ident[3], ident[4]];
  }

  /** So is what the loader uses of the file header: where the table is, its stride and its length. */
  lemma EhdrReadsBack(f: seq<Byte>, e: FileHeader)
    requires EhdrFits(e) && Stored(f, 0, EhdrBytes(e))
    ensures U64At(f, 32) == e.phoff && U16At(f, 54) == e.phentsize && U16At(f, 56) == e.phnum
    ensures Recognised(f) <==> e.ident[..5] == [0x7f, 0x45, 0x4c, 0x46, 2] && e.machine == 62
  {
    var c9 := Le(e.phnum, 2) + (Le(e.shentsize, 2) + (Le(e.shnum, 2) + Le(e.shstrndx, 2)));
    var c8 := Le(e.phentsize, 2) + c9;
    var c7 := Le(e.ehsize, 2) + c8;
    var c6 := Le(e.flags, 4) + c7;
    var c5 := Le(e.shoff, 8) + c6;
    var c4 := Le(e.phoff, 8) + c5;
    var c3 := Le(e.entry, 8) + c4;
    var c2 := Le(e.version, 4) + c3;
    var c1 := Le(e.machine, 2) + c2;
    StoredSplit(f, 0, e.ident, Le(e.typ, 2) + c1);
    StoredSplit(f, 16, Le(e.typ, 2), c1);
    StoredSplit(f, 18, Le(e.machine, 2), c2);
    StoredSplit(f, 20, Le(e.version, 4), c3);
    StoredSplit(f, 24, Le(e.entry, 8), c4);
    StoredSplit(f, 32, Le(e.phoff, 8), c5);
    StoredSplit(f, 40, Le(e.shoff, 8), c6);
    StoredSplit(f, 48, Le(e.flags, 4), c7);
    StoredSplit(f, 52, Le(e.ehsize, 2), c8);
    StoredSplit(f, 54, Le(e.phentsize, 2), c9);
    StoredSplit(f, 56, Le(e.phnum, 2), Le(e.shentsize, 2) + (Le(e.shnum, 2) + Le(e.shstrndx, 2)));
    Word16(f, 18, e.machine);
    Word64(f, 32, e.phoff);
    Word16(f, 54, e.phentsize);
    Word16(f, 56, e.phnum);
    IdentReadsBack(f, e.ident);
  }

  // ---- A file with its headers.

  /** The headers `hs` stand in a table at `off`. */
  ghost predicate Table(f: seq<Byte>, off: nat, step: nat, hs: seq<ProgramHeader>) {
    forall i :: 0 <= i < |hs| ==> PhdrFits(hs[i]) && Stored(f, Row(off, step, i), PhdrBytes(hs[i]))
  }

  /** The file starts with header `e`, and the program headers `hs` stand where it says. */
  ghost predicate IsFile(f: seq<Byte>, e: FileHeader, hs: seq<ProgramHeader>) {
    && EhdrFits(e) && Stored(f, 0, EhdrBytes(e)) && |hs| == e.phnum
    && Table(f, e.phoff, e.phentsize, hs)
  }

  /** Header `i` of such a file stands `i` entry sizes behind the table's offset. */
  lemma HeaderStands(f: seq<Byte>, e: FileHeader, hs: seq<ProgramHeader>, i: nat)
    requires IsFile(f, e, hs) && i < |hs|
    ensures Stored(f, e.phoff + i * e.phentsize, PhdrBytes(hs[i]))
  {
    RowIs(e.phoff, e.phentsize, i);
  }

  /** `ps` is what the loader uses of the headers `hs`. */
  ghost predicate Parsed(ps: seq<Phdr>, hs: seq<ProgramHeader>) {
    && |ps| == |hs|
    && forall i :: 0 <= i < |hs| ==>
         ps[i] == Phdr(hs[i].typ, hs[i].offset, hs[i].vaddr, hs[i].paddr, hs[i].filesz, hs[i].memsz)
  }

  lemma {:induction false} TableReadsBack(f: seq<Byte>, off: nat, step: nat, hs: seq<ProgramHeader>)
    requires Table(f, off, step, hs)
    ensures Parsed(Phdrs(f, off, step, |hs|), hs)
    decreases |hs|
  {
    if hs == [] {
    } else {
      var tail := hs[1..];
      var p := FirstRead(f, off, step, hs);
      TableTail(f, off, step, hs, tail);
      TableReadsBack(f, off + step, step, tail);
      var ps := PhdrsCons(f, off, step, |hs|, |tail|);
      ParsedCons(p, ps, hs, tail);
    }
  }

  lemma PhdrsCons(f: seq<Byte>, off: nat, step: nat, n: nat, n': nat) returns (ps: seq<Phdr>)
    requires n == n' + 1 && off + PHDR_BYTES <= |f|
    ensures ps == Phdrs(f, off + step, step, n') && Phdrs(f, off, step, n) == [PhdrAt(f, off)] + ps
  {
    ps := Phdrs(f, off + step, step, n');
  }

  lemma FirstRead(f: seq<Byte>, off: nat, step: nat, hs: seq<ProgramHeader>) returns (p: Phdr)
    requires hs != [] && Table(f, off, step, hs)
    ensures off + PHDR_BYTES <= |f| && p == PhdrAt(f, off)
    ensures p == Phdr(hs[0].typ, hs[0].offset, hs[0].vaddr, hs[0].paddr, hs[0].filesz, hs[0].memsz)
  {
    assert Row(off, step, 0) == off && Stored(f, off, PhdrBytes(hs[0]));
    PhdrReadsBack(f, off, hs[0]);
    p := PhdrAt(f, off);
  }

  lemma ParsedCons(p: Phdr, ps: seq<Phdr>, hs: seq<ProgramHeader>, tail: seq<ProgramHeader>)
    requires hs != [] && tail == hs[1..] && Parsed(ps, tail)
    requires p == Phdr(hs[0].typ, hs[0].offset, hs[0].vaddr, hs[0].paddr, hs[0].filesz, hs[0].memsz)
    ensures Parsed([p] + ps, hs)
  {
    assert forall i :: 0 < i < |hs| ==> hs[i] == tail[i - 1] && ([p] + ps)[i] == ps[i - 1];
  }

  lemma TableTail(f: seq<Byte>, off: nat, step: nat, hs: seq<ProgramHeader>, tail: seq<ProgramHeader>)
    requires hs != [] && tail == hs[1..] && Table(f, off, step, hs)
    ensures Table(f, off + step, step, tail)
  {
    forall i | 0 <= i < |tail|
      ensures PhdrFits(tail[i]) && Stored(f, Row(off + step, step, i), PhdrBytes(tail[i]))
    {
      assert tail[i] == hs[i + 1] && Row(off, step, i + 1) == Row(off + step, step, i);
    }
  }

  /** The loader reads exactly the program headers of the file. */
  lemma HeadersReadBack(f: seq<Byte>, e: FileHeader, hs: seq<ProgramHeader>)
    requires IsFile(f, e, hs)
    ensures Parsed(Headers(f), hs)
  {
    EhdrReadsBack(f, e);
    TableReadsBack(f, e.phoff, e.phentsize, hs);
  }

  // ---- Where segments go.

  /** A segment to load: type 1, with memory to fill. */
  ghost predicate IsSegment(h: ProgramHeader) {
    h.typ == 1 && h.memsz > 0
  }

  /** Its physical address, or its virtual one where that is zero. */
  ghost function Target(h: ProgramHeader): nat {
    if h.paddr == 0 then h.vaddr else h.paddr
  }

  ghost predicate HasSegment(hs: seq<ProgramHeader>) {
    exists i :: 0 <= i < |hs| && IsSegment(hs[i])
  }

  /** The pages from `lo` up to `hi` hold all segments, and no smaller stretch of pages does. */
  ghost predicate TightSpan(hs: seq<ProgramHeader>, lo: nat, hi: nat) {
    && lo % 4096 == 0 && hi % 4096 == 0
    && (forall i :: 0 <= i < |hs| && IsSegment(hs[i]) ==> lo <= Target(hs[i]) && Target(hs[i]) + hs[i].memsz <= hi)
    && (exists i :: 0 <= i < |hs| && IsSegment(hs[i]) && Target(hs[i]) < lo + 4096)
    && (exists i :: 0 <= i < |hs| && IsSegment(hs[i]) && hi < Target(hs[i]) + hs[i].memsz + 4096)
  }

  /** What the loader makes of one header. */
  lemma ParsedAt(ps: seq<Phdr>, hs: seq<ProgramHeader>, i: nat)
    requires Parsed(ps, hs) && i < |hs|
    ensures i < |ps| && (Loads(ps[i]) <==> IsSegment(hs[i])) && Address(ps[i]) == Target(hs[i])
    ensures ps[i].memsz == hs[i].memsz && ps[i].filesz == hs[i].filesz && ps[i].offset == hs[i].offset
  {
  }

  /** The span is tight; the whole memory size of a segment counts, not only its bytes in the file. */
  lemma SpanOfFile(ps: seq<Phdr>, hs: seq<ProgramHeader>, lo: nat, hi: nat)
    requires Parsed(ps, hs) && Span(ps, lo, hi)
    ensures if HasSegment(hs) then TightSpan(hs, lo, hi) else lo == 0xffff_ffff_ffff_ffff && hi == 0
  {
    if HasSegment(hs) {
      var i :| 0 <= i < |hs| && IsSegment(hs[i]);
      ParsedAt(ps, hs, i);
      SegmentsTight(ps, hs, lo, hi);
    } else {
      forall i | 0 <= i < |ps|
        ensures !Loads(ps[i])
      {
        ParsedAt(ps, hs, i);
      }
    }
  }

  lemma SegmentsTight(ps: seq<Phdr>, hs: seq<ProgramHeader>, lo: nat, hi: nat)
    requires Parsed(ps, hs) && Lowest(ps, lo) && Highest(ps, hi)
    ensures TightSpan(hs, lo, hi)
  {
    var i :| 0 <= i < |ps| && Loads(ps[i]) && First(ps[i]) == lo;
    var j :| 0 <= j < |ps| && Loads(ps[j]) && Beyond(ps[j]) == hi;
    ParsedAt(ps, hs, i);
    ParsedAt(ps, hs, j);
    assert IsSegment(hs[i]) && Target(hs[i]) < lo + 4096;
    assert IsSegment(hs[j]) && hi < Target(hs[j]) + hs[j].memsz + 4096;
    forall k | 0 <= k < |hs| && IsSegment(hs[k])
      ensures lo <= Target(hs[k]) && Target(hs[k]) + hs[k].memsz <= hi
    {
      ParsedAt(ps, hs, k);
      assert lo <= First(ps[k]) && Beyond(ps[k]) <= hi;
    }
  }

  ghost predicate SegmentsInside(hs: seq<ProgramHeader>, size: nat) {
    forall i :: 0 <= i < |hs| && IsSegment(hs[i]) && hs[i].filesz > 0 ==> hs[i].offset + hs[i].filesz <= size
  }

  /** What the loader accepts: an x86-64 file shorter than its buffer, with a segment, and no segment past its end. */
  lemma AcceptedFiles(f: seq<Byte>, e: FileHeader, hs: seq<ProgramHeader>, scratch: nat)
    requires IsFile(f, e, hs)
    ensures Loadable(f, scratch) <==>
            && |f| != scratch && e.ident[..5] == [0x7f, 0x45, 0x4c, 0x46, 2] && e.machine == 62
            && HasSegment(hs) && SegmentsInside(hs, |f|)
  {
    EhdrReadsBack(f, e);
    HeadersReadBack(f, e, hs);
    InsideIff(f, Headers(f), hs);
  }

  lemma InsideIff(f: seq<Byte>, ps: seq<Phdr>, hs: seq<ProgramHeader>)
    requires Parsed(ps, hs)
    ensures NoneLoads(ps) <==> !HasSegment(hs)
    ensures InFile(f, ps) <==> SegmentsInside(hs, |f|)
  {
    forall i | 0 <= i < |hs|
      ensures Loads(ps[i]) <==> IsSegment(hs[i])
      ensures ps[i].offset == hs[i].offset && ps[i].filesz == hs[i].filesz
    {
      ParsedAt(ps, hs, i);
    }
  }

  ghost predicate Separate(hs: seq<ProgramHeader>) {
    forall i, j :: 0 <= i < j < |hs| && IsSegment(hs[i]) && IsSegment(hs[j]) ==>
      Target(hs[i]) + hs[i].memsz <= Target(hs[j]) || Target(hs[j]) + hs[j].memsz <= Target(hs[i])
  }

  /** Byte `k` of a segment at `to`: from the file at `offset`, or zero behind its `filesz` bytes there. */
  ghost predicate InPlace(m: seq<Byte>, to: nat, k: nat, f: seq<Byte>, offset: nat, filesz: nat, base: nat) {
    && to + k < |m|
    && (k < filesz && to != 0 ==> offset + k < |f| && m[to + k] == f[offset + k])
    && (k >= filesz && base != 0 ==> m[to + k] == 0)
  }

  /**
   After a load, byte `k` of segment `i` is its byte in the file or, behind the file's bytes, zero. The exceptions are
   those of `memcpy_local` and `memset_local`: a segment at address zero, and a span that starts there.
   */
  lemma SegmentOfFile(r: Result, hi: nat, f: seq<Byte>, ps: seq<Phdr>, hs: seq<ProgramHeader>, before: seq<Byte>,
                      after: seq<Byte>, i: nat, k: nat)
    requires Parsed(ps, hs) && Separate(hs) && LoadedFrom(r, hi, f, ps, before, after)
    requires AllSane(ps, |before|) && i < |hs| && IsSegment(hs[i]) && k < hs[i].memsz
    ensures InPlace(after, Target(hs[i]), k, f, hs[i].offset, hs[i].filesz, r.base)
  {
    var h := hs[i];
    ParsedAt(ps, hs, i);
    SegmentsTight(ps, hs, r.base, hi);
    FileSeparate(ps, hs);
    SegmentByte(r, hi, f, ps, before, after, i, k, h.offset, h.filesz, h.memsz, Target(h));
  }

  /** The same over parsed headers. */
  lemma SegmentByte(r: Result, hi: nat, f: seq<Byte>, ps: seq<Phdr>, before: seq<Byte>, after: seq<Byte>, i: nat,
                    k: nat, offset: nat, filesz: nat, memsz: nat, to: nat)
    requires LoadedFrom(r, hi, f, ps, before, after) && AllSane(ps, |before|) && Disjoint(ps) && i < |ps|
    requires Loads(ps[i]) && ps[i].offset == offset && ps[i].filesz == filesz && ps[i].memsz == memsz
    requires Address(ps[i]) == to && k < memsz && r.base <= to && to + memsz <= hi
    ensures InPlace(after, to, k, f, offset, filesz, r.base)
  {
    var a := to + k;
    if k >= filesz {
      BehindFileBytes(r, hi, f, ps, before, after, i, a);
    } else if to != 0 {
      FileByte(r, hi, f, ps, before, after, i, a, offset + k);
    }
  }

  lemma FileByte(r: Result, hi: nat, f: seq<Byte>, ps: seq<Phdr>, before: seq<Byte>, after: seq<Byte>, i: nat, a: nat,
                 from: nat)
    requires LoadedFrom(r, hi, f, ps, before, after) && AllSane(ps, |before|) && Disjoint(ps) && i < |ps|
    requires Holds(ps[i], a) && from == ps[i].offset + (a - Address(ps[i])) && a < hi
    ensures a < |after| && from < |f| && after[a] == f[from]
  {
    LoadedBytes(r, hi, f, ps, before, after, a);
    assert ps[i].offset + (a - Address(ps[i])) == from;
  }

  lemma BehindFileBytes(r: Result, hi: nat, f: seq<Byte>, ps: seq<Phdr>, before: seq<Byte>, after: seq<Byte>, i: nat,
                        a: nat)
    requires LoadedFrom(r, hi, f, ps, before, after) && AllSane(ps, |before|) && Disjoint(ps)
    requires i < |ps| && Loads(ps[i])
    requires Address(ps[i]) + ps[i].filesz <= a < Address(ps[i]) + ps[i].memsz && r.base <= a < hi
    ensures a < |after| && (r.base != 0 ==> after[a] == 0)
  {
    LoadedBytes(r, hi, f, ps, before, after, a);
    forall j | 0 <= j < |ps|
      ensures !Holds(ps[j], a)
    {
      OnlyItsOwn(ps, i, j, a, |before|);
    }
  }

  lemma FileSeparate(ps: seq<Phdr>, hs: seq<ProgramHeader>)
    requires Parsed(ps, hs) && Separate(hs)
    ensures Disjoint(ps)
  {
    forall i, j | 0 <= i < j < |ps| && Loads(ps[i]) && Loads(ps[j])
      ensures Address(ps[i]) + ps[i].memsz <= Address(ps[j]) || Address(ps[j]) + ps[j].memsz <= Address(ps[i])
    {
      ParsedAt(ps, hs, i);
      ParsedAt(ps, hs, j);
    }
  }

  /** A byte of segment `i` behind its file bytes is not held by any segment. */
  lemma OnlyItsOwn(ps: seq<Phdr>, i: nat, j: nat, a: nat, size: nat)
    requires AllSane(ps, size) && Disjoint(ps) && i < |ps| && j < |ps| && Loads(ps[i])
    requires Address(ps[i]) + ps[i].filesz <= a < Address(ps[i]) + ps[i].memsz
    ensures !Holds(ps[j], a)
  {
    assert Sane(ps[j], size);
    assert i != j && Loads(ps[j]) ==>
      Address(ps[i]) + ps[i].memsz <= Address(ps[j]) || Address(ps[j]) + ps[j].memsz <= Address(ps[i]);
  }

  /** The entry handed over stands in memory right behind the first marker of the span, letters and zero. */
  lemma EntryOfFile(r: Result, hi: nat, f: seq<Byte>, ps: seq<Phdr>, before: seq<Byte>, after: seq<Byte>)
    returns (at: nat)
    requires LoadedFrom(r, hi, f, ps, before, after)
    ensures r.base <= at && at % 8 == 0 && at + 16 < hi && r.entry != 0
    ensures Stored(after, at, [0x47, 0x4a, 0x55, 0x45, 0x46, 0x49, 0x31, 0]) && Stored(after, at + 8, Le(r.entry, 8))
    ensures forall h :: r.base <= h < at && h % 8 == 0 ==>
              !Stored(after, h, [0x47, 0x4a, 0x55, 0x45, 0x46, 0x49, 0x31, 0])
  {
    at := LoadedEntry(r, hi, f, ps, before, after);
    Stored64(after, at + 8);
    forall h: nat
      ensures MarkerAt(after, h) <==> Stored(after, h, [0x47, 0x4a, 0x55, 0x45, 0x46, 0x49, 0x31, 0])
    {
      MarkerStored(after, h);
    }
  }

  lemma MarkerStored(m: seq<Byte>, h: nat)
    ensures MarkerAt(m, h) <==> Stored(m, h, [0x47, 0x4a, 0x55, 0x45, 0x46, 0x49, 0x31, 0])
  {
  }

  /** What is reported of a loaded file: the first page of its span and the span's length. */
  lemma LoadedSpan(r: Result, hi: nat, f: seq<Byte>, e: FileHeader, hs: seq<ProgramHeader>, before: seq<Byte>,
                   after: seq<Byte>)
    requires IsFile(f, e, hs) && LoadedFrom(r, hi, f, Headers(f), before, after)
    ensures TightSpan(hs, r.base, r.base + r.bytes)
  {
    HeadersReadBack(f, e, hs);
    SegmentsTight(Headers(f), hs, r.base, hi);
  }
}
