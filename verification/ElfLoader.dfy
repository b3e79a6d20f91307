/**
 The loader's two passes over the kernel's ELF file (chapter 5 of the System V gABI) and the scan of the
 loaded image for the entry marker.
 */
module ElfLoader {
  import opened BootBytes

  const EHDR_BYTES: nat := 64
  const PHDR_BYTES: nat := 56
  const PAGE: nat := 4096
  const PT_LOAD: nat := 1
  const NO_ADDRESS: nat := 0xffff_ffff_ffff_ffff
  /** The marker, with its terminating zero. */
  const MARKER: seq<Byte> := [0x47, 0x4a, 0x55, 0x45, 0x46, 0x49, 0x31, 0]

  datatype Phdr = Phdr(typ: nat, offset: nat, vaddr: nat, paddr: nat, filesz: nat, memsz: nat)

  function PhdrAt(f: seq<Byte>, off: nat): Phdr
    requires off + PHDR_BYTES <= |f|
  {
    Phdr(U32At(f, off), U64At(f, off + 8), U64At(f, off + 16), U64At(f, off + 24),
         U64At(f, off + 32), U64At(f, off + 40))
  }

  /** The `n` headers that start `step` bytes apart, as far as they lie in the file. */
  function Phdrs(f: seq<Byte>, off: nat, step: nat, n: nat): (ps: seq<Phdr>)
    ensures |ps| <= n
    decreases n
  {
    if n == 0 || off + PHDR_BYTES > |f| then [] else [PhdrAt(f, off)] + Phdrs(f, off + step, step, n - 1)
  }

  lemma StepBack(off: nat, step: nat, i: nat)
    ensures i == 0 ==> off + i * step == off
    ensures i > 0 ==> off + step + (i - 1) * step == off + i * step
  {
  }

  /** Header `i` is the one `i` steps into the table. */
  lemma {:induction false} PhdrsAt(f: seq<Byte>, off: nat, step: nat, n: nat, i: nat)
    requires i < |Phdrs(f, off, step, n)|
    ensures off + i * step + PHDR_BYTES <= |f| && Phdrs(f, off, step, n)[i] == PhdrAt(f, off + i * step)
    decreases n
  {
    StepBack(off, step, i);
    if i == 0 {
    } else {
      PhdrsAt(f, off + step, step, n - 1, i - 1);
    }
  }

  function Headers(f: seq<Byte>): (ps: seq<Phdr>)
    requires |f| >= EHDR_BYTES
  {
    Phdrs(f, U64At(f, 32), U16At(f, 54), U16At(f, 56))
  }

  /** ELF64 for x86-64. */
  predicate Recognised(f: seq<Byte>)
    requires |f| >= EHDR_BYTES
  {
    f[0] == 0x7f && f[1] == 0x45 && f[2] == 0x4c && f[3] == 0x46 && f[4] == 2 && U16At(f, 18) == 62
  }

  predicate Loads(p: Phdr) {
    p.typ == PT_LOAD && p.memsz != 0
  }

  function Address(p: Phdr): nat {
    if p.paddr != 0 then p.paddr else p.vaddr
  }

  function PageFloor(a: nat): (r: nat)
    ensures r <= a < r + PAGE && r % PAGE == 0
  {
    a / PAGE * PAGE
  }

  function PageCeil(a: nat): (r: nat)
    ensures a <= r < a + PAGE && r % PAGE == 0
  {
    (a + PAGE - 1) / PAGE * PAGE
  }

  /** A segment is no larger in the file than in memory, and memory of `size` bytes has room for its pages. */
  ghost predicate Sane(p: Phdr, size: nat) {
    Loads(p) ==> p.filesz <= p.memsz && Beyond(p) <= size && p.offset + p.filesz < U64_LIMIT
  }

  ghost predicate AllSane(ps: seq<Phdr>, size: nat) {
    size < U64_LIMIT && forall i :: 0 <= i < |ps| ==> Sane(ps[i], size)
  }

  // ---- Pass 1: the span.

  /** The first byte of a segment's pages, and the first beyond them. */
  function First(p: Phdr): (r: nat)
    ensures r % 8 == 0
  {
    var r := PageFloor(Address(p));
    assert r == 8 * (512 * (Address(p) / PAGE));
    r
  }

  function Beyond(p: Phdr): (r: nat)
    ensures Loads(p) ==> First(p) < r
  {
    PageCeil(Address(p) + p.memsz)
  }

  ghost predicate NoneLoads(ps: seq<Phdr>) {
    forall i :: 0 <= i < |ps| ==> !Loads(ps[i])
  }

  /** `lo` is the lowest first byte of the segments' pages. */
  ghost predicate Lowest(ps: seq<Phdr>, lo: nat) {
    && (forall i :: 0 <= i < |ps| && Loads(ps[i]) ==> lo <= First(ps[i]))
    && (exists i :: 0 <= i < |ps| && Loads(ps[i]) && First(ps[i]) == lo)
  }

  ghost predicate Highest(ps: seq<Phdr>, hi: nat) {
    && (forall i :: 0 <= i < |ps| && Loads(ps[i]) ==> Beyond(ps[i]) <= hi)
    && (exists i :: 0 <= i < |ps| && Loads(ps[i]) && Beyond(ps[i]) == hi)
  }

  /** What pass 1 computes: the tight page span of the segments, or nothing to load. */
  ghost predicate Span(ps: seq<Phdr>, lo: nat, hi: nat) {
    if NoneLoads(ps) then lo == NO_ADDRESS && hi == 0 else Lowest(ps, lo) && Highest(ps, hi)
  }

  lemma SpanSkips(ps: seq<Phdr>, p: Phdr, lo: nat, hi: nat)
    requires Span(ps, lo, hi) && !Loads(p)
    ensures Span(ps + [p], lo, hi)
  {
    var all := ps + [p];
    assert forall i :: 0 <= i < |ps| ==> all[i] == ps[i];
  }

  lemma LowestGrows(ps: seq<Phdr>, p: Phdr, lo: nat, lo': nat)
    requires Loads(p) && if NoneLoads(ps) then lo == NO_ADDRESS && First(p) < lo else Lowest(ps, lo)
    requires lo' == if First(p) < lo then First(p) else lo
    ensures Lowest(ps + [p], lo')
  {
    var all := ps + [p];
    assert all[|ps|] == p && forall i :: 0 <= i < |ps| ==> all[i] == ps[i];
  }

  lemma HighestGrows(ps: seq<Phdr>, p: Phdr, hi: nat, hi': nat)
    requires Loads(p) && if NoneLoads(ps) then hi == 0 else Highest(ps, hi)
    requires hi' == if Beyond(p) > hi then Beyond(p) else hi
    ensures Highest(ps + [p], hi')
  {
    var all := ps + [p];
    assert all[|ps|] == p && forall i :: 0 <= i < |ps| ==> all[i] == ps[i];
  }

  lemma SpanGrows(ps: seq<Phdr>, p: Phdr, lo: nat, hi: nat, lo': nat, hi': nat)
    requires Span(ps, lo, hi) && Loads(p) && First(p) < NO_ADDRESS
    requires lo' == (if First(p) < lo then First(p) else lo) && hi' == if Beyond(p) > hi then Beyond(p) else hi
    ensures Span(ps + [p], lo', hi')
  {
    LowestGrows(ps, p, lo, lo');
    HighestGrows(ps, p, hi, hi');
    assert (ps + [p])[|ps|] == p;
  }

  lemma SaneFirst(ps: seq<Phdr>, i: nat, size: nat)
    requires AllSane(ps, size) && i < |ps|
    ensures Loads(ps[i]) ==> First(ps[i]) < NO_ADDRESS
  {
    assert Sane(ps[i], size);
  }

  lemma TakeOneMore<T>(s: seq<T>, i: nat)
    requires i < |s|
    ensures s[..i + 1] == s[..i] + [s[i]]
  {
  }

  /** Pass 1. */
  method Measure(ps: seq<Phdr>, ghost size: nat) returns (lo: nat, hi: nat)
    requires AllSane(ps, size)
    ensures Span(ps, lo, hi)
  {
    lo, hi := NO_ADDRESS, 0;
    ghost var seen: seq<Phdr> := [];
    for i := 0 to |ps|
      invariant seen == ps[..i]
      invariant Span(seen, lo, hi)
    {
      SaneFirst(ps, i, size);
      TakeOneMore(ps, i);
      lo, hi := Widen(ps[i], lo, hi, seen);
      seen := seen + [ps[i]];
    }
    assert seen == ps;
  }

  method Widen(p: Phdr, lo: nat, hi: nat, ghost ps: seq<Phdr>) returns (lo': nat, hi': nat)
    requires Span(ps, lo, hi) && (Loads(p) ==> First(p) < NO_ADDRESS)
    ensures Span(ps + [p], lo', hi')
  {
    lo', hi' := lo, hi;
    if !Loads(p) {
      SpanSkips(ps, p, lo, hi);
      return;
    }
    var base, end := First(p), Beyond(p);
    if base < lo {
      lo' := base;
    }
    if end > hi {
      hi' := end;
    }
    SpanGrows(ps, p, lo, hi, lo', hi');
  }

  // ---- Pass 2: zero and copy.

  /** The file bytes of a segment are copied to its address, unless that is the null address. */
  predicate Copies(p: Phdr) {
    Loads(p) && p.filesz != 0 && Address(p) != 0
  }

  predicate Holds(p: Phdr, a: nat) {
    Copies(p) && Address(p) <= a < Address(p) + p.filesz
  }

  ghost predicate InFile(f: seq<Byte>, ps: seq<Phdr>) {
    forall i :: 0 <= i < |ps| && Loads(ps[i]) && ps[i].filesz != 0 ==> ps[i].offset + ps[i].filesz <= |f|
  }

  /** The byte at `a` after the segments have been copied in order over a background. */
  ghost function Image(f: seq<Byte>, ps: seq<Phdr>, background: seq<Byte>, a: nat): Byte
    requires a < |background| && InFile(f, ps)
    decreases |ps|
  {
    if ps == [] then background[a]
    else
      var p := ps[|ps| - 1];
      if Holds(p, a) then f[p.offset + (a - Address(p))] else Image(f, ps[..|ps| - 1], background, a)
  }

  /** `memset_local` with zero, which ignores the null address. */
  method Zero(mem: array<Byte>, from: nat, n: nat)
    requires from + n <= mem.Length
    modifies mem
    ensures forall a :: 0 <= a < mem.Length ==>
              mem[a] == if from != 0 && from <= a < from + n then 0 else old(mem[a])
  {
    if from == 0 {
      return;
    }
    for i := 0 to n
      invariant forall a :: 0 <= a < mem.Length ==> mem[a] == if from <= a < from + i then 0 else old(mem[a])
    {
      mem[from + i] := 0;
    }
  }

  /** `memcpy_local`, which ignores the null address. */
  method Copy(mem: array<Byte>, to: nat, f: seq<Byte>, from: nat, n: nat)
    requires to + n <= mem.Length && from + n <= |f|
    modifies mem
    ensures forall a :: 0 <= a < mem.Length ==>
              mem[a] == if to != 0 && to <= a < to + n then f[from + (a - to)] else old(mem[a])
  {
    if to == 0 {
      return;
    }
    for i := 0 to n
      invariant forall a :: 0 <= a < mem.Length ==>
                  mem[a] == if to <= a < to + i then f[from + (a - to)] else old(mem[a])
    {
      mem[to + i] := f[from + i];
    }
  }

  /** Pass 2 after the zero fill: segments in turn, up to one whose bytes run past the file. */
  method CopyAll(mem: array<Byte>, f: seq<Byte>, ps: seq<Phdr>) returns (ok: bool, ghost done: nat)
    requires AllSane(ps, mem.Length)
    modifies mem
    ensures ok <==> InFile(f, ps)
    ensures done <= |ps| && InFile(f, ps[..done]) && (ok ==> done == |ps|)
    ensures forall a :: 0 <= a < mem.Length ==> mem[a] == Image(f, ps[..done], old(mem[..]), a)
  {
    done := 0;
    for i := 0 to |ps|
      invariant done == i && InFile(f, ps[..i])
      invariant forall a :: 0 <= a < mem.Length ==> mem[a] == Image(f, ps[..i], old(mem[..]), a)
    {
      var p := ps[i];
      assert Sane(p, mem.Length);
      assert ps[..i + 1][..i] == ps[..i] && ps[..i + 1][i] == p;
      if Loads(p) && p.filesz != 0 {
        if Add64(p.offset, p.filesz) > |f| {
          return false, i;
        }
        Copy(mem, Address(p), f, p.offset, p.filesz);
      }
      done := i + 1;
    }
    assert ps[..|ps|] == ps;
    ok := true;
  }

  // ---- What the image is.

  /** Memory after the zero fill of the span, which does nothing when the span starts at the null address. */
  ghost function Blank(m: seq<Byte>, lo: nat, hi: nat): (r: seq<Byte>)
    ensures |r| == |m|
  {
    seq(|m|, a requires 0 <= a < |m| => if lo != 0 && lo <= a < hi then 0 else m[a])
  }

  /** Nothing outside the span is written. */
  lemma {:induction false} OutsideUntouched(f: seq<Byte>, ps: seq<Phdr>, bg: seq<Byte>, lo: nat, hi: nat, a: nat)
    requires AllSane(ps, |bg|) && InFile(f, ps) && a < |bg| && !(lo <= a < hi)
    requires forall i :: 0 <= i < |ps| && Loads(ps[i]) ==> lo <= First(ps[i]) && Beyond(ps[i]) <= hi
    ensures Image(f, ps, bg, a) == bg[a]
    decreases |ps|
  {
    if ps == [] {
    } else {
      assert Sane(ps[|ps| - 1], |bg|);
      OutsideUntouched(f, ps[..|ps| - 1], bg, lo, hi, a);
    }
  }

  ghost predicate Disjoint(ps: seq<Phdr>) {
    forall i, j :: 0 <= i < j < |ps| && Loads(ps[i]) && Loads(ps[j]) ==>
      Address(ps[i]) + ps[i].memsz <= Address(ps[j]) || Address(ps[j]) + ps[j].memsz <= Address(ps[i])
  }

  /** Of disjoint segments, each holds its own file bytes. */
  lemma {:induction false} SegmentIntact(f: seq<Byte>, ps: seq<Phdr>, bg: seq<Byte>, i: nat, a: nat)
    requires AllSane(ps, |bg|) && InFile(f, ps) && Disjoint(ps) && i < |ps| && Holds(ps[i], a) && a < |bg|
    ensures Image(f, ps, bg, a) == f[ps[i].offset + (a - Address(ps[i]))]
    decreases |ps|
  {
    var n := |ps| - 1;
    assert Sane(ps[i], |bg|) && Sane(ps[n], |bg|);
    if i == n {
    } else {
      assert !Holds(ps[n], a);
      SegmentIntact(f, ps[..n], bg, i, a);
    }
  }

  /** Every other byte of the span is zero, if and only if the fill was done or it was zero before. */
  lemma {:induction false} RestIsBlank(f: seq<Byte>, ps: seq<Phdr>, bg: seq<Byte>, a: nat)
    requires InFile(f, ps) && a < |bg| && forall i :: 0 <= i < |ps| ==> !Holds(ps[i], a)
    ensures Image(f, ps, bg, a) == bg[a]
    decreases |ps|
  {
    if ps == [] {
    } else {
      RestIsBlank(f, ps[..|ps| - 1], bg, a);
    }
  }

  /** The loaded image of a file with disjoint segments, byte by byte. */
  lemma ImageOfDisjoint(f: seq<Byte>, ps: seq<Phdr>, m: seq<Byte>, lo: nat, hi: nat, a: nat)
    requires AllSane(ps, |m|) && InFile(f, ps) && Disjoint(ps) && Span(ps, lo, hi) && !NoneLoads(ps) && a < |m|
    ensures var image := Image(f, ps, Blank(m, lo, hi), a);
            && (forall i :: 0 <= i < |ps| && Holds(ps[i], a) ==> image == f[ps[i].offset + (a - Address(ps[i]))])
            && ((forall i :: 0 <= i < |ps| ==> !Holds(ps[i], a)) ==>
                  image == if lo != 0 && lo <= a < hi then 0 else m[a])
            && (!(lo <= a < hi) ==> image == m[a])
  {
    var bg := Blank(m, lo, hi);
    forall i | 0 <= i < |ps| && Holds(ps[i], a)
      ensures Image(f, ps, bg, a) == f[ps[i].offset + (a - Address(ps[i]))]
    {
      SegmentIntact(f, ps, bg, i, a);
    }
    if forall i :: 0 <= i < |ps| ==> !Holds(ps[i], a) {
      RestIsBlank(f, ps, bg, a);
    }
    if !(lo <= a < hi) {
      OutsideUntouched(f, ps, bg, lo, hi, a);
    }
  }

  // ---- The scan for the entry.

  predicate MarkerAt(m: seq<Byte>, h: nat) {
    h + 8 <= |m| && m[h..h + 8] == MARKER
  }

  function ScanFrom(m: seq<Byte>, s: nat, hi: nat): (entry: nat)
    requires hi <= |m|
    decreases hi - s
  {
    if s + 16 < hi then if MarkerAt(m, s) then U64At(m, s + 8) else ScanFrom(m, s + 8, hi) else 0
  }

  /** `h` is the first 8-aligned marker at or after `s` that the scan can see. */
  ghost predicate FirstMarker(m: seq<Byte>, s: nat, hi: nat, h: nat) {
    && s <= h && h % 8 == 0 && h + 16 < hi && MarkerAt(m, h)
    && forall k :: s <= k < h && k % 8 == 0 ==> !MarkerAt(m, k)
  }

  lemma FirstFromBefore(m: seq<Byte>, s: nat, hi: nat, h: nat)
    requires s % 8 == 0 && !MarkerAt(m, s) && FirstMarker(m, s + 8, hi, h)
    ensures FirstMarker(m, s, hi, h)
  {
    forall k | s <= k < h && k % 8 == 0
      ensures !MarkerAt(m, k)
    {
      assert k == s || s + 8 <= k;
    }
  }

  /**
   Whenever some 8-aligned marker is visible, the scan answers the word after the first one. A marker whose
   entry word is not strictly inside the span is not visible.
   */
  lemma {:induction false} ScanFinds(m: seq<Byte>, s: nat, hi: nat, h: nat) returns (first: nat)
    requires hi <= |m| && s % 8 == 0 && s <= h && h % 8 == 0 && h + 16 < hi && MarkerAt(m, h)
    ensures FirstMarker(m, s, hi, first) && ScanFrom(m, s, hi) == U64At(m, first + 8)
    decreases h - s
  {
    if MarkerAt(m, s) {
      first := s;
    } else {
      first := ScanFinds(m, s + 8, hi, h);
      FirstFromBefore(m, s, hi, first);
    }
  }

  /** An answer of the scan is the word after the first visible marker. */
  lemma {:induction false} ScanAnswers(m: seq<Byte>, s: nat, hi: nat) returns (first: nat)
    requires hi <= |m| && s % 8 == 0 && ScanFrom(m, s, hi) != 0
    ensures FirstMarker(m, s, hi, first) && ScanFrom(m, s, hi) == U64At(m, first + 8)
    decreases hi - s
  {
    if MarkerAt(m, s) {
      first := s;
    } else {
      first := ScanAnswers(m, s + 8, hi);
      FirstFromBefore(m, s, hi, first);
    }
  }

  lemma {:induction false} ScanMisses(m: seq<Byte>, s: nat, hi: nat)
    requires hi <= |m| && s % 8 == 0 && forall h :: s <= h && h % 8 == 0 && h + 16 < hi ==> !MarkerAt(m, h)
    ensures ScanFrom(m, s, hi) == 0
    decreases hi - s
  {
    if s + 16 >= hi {
    } else {
      assert !MarkerAt(m, s);
      ScanMisses(m, s + 8, hi);
    }
  }

  method Scan(mem: array<Byte>, lo: nat, hi: nat) returns (entry: nat)
    requires hi <= mem.Length
    ensures entry == ScanFrom(mem[..], lo, hi)
  {
    var s := lo;
    while s + 16 < hi
      invariant ScanFrom(mem[..], lo, hi) == ScanFrom(mem[..], s, hi)
      decreases hi - s
    {
      if mem[s..s + 8] == MARKER {
        assert mem[..][s..s + 8] == mem[s..s + 8];
        return U64At(mem[..], s + 8);
      }
      assert mem[..][s..s + 8] == mem[s..s + 8];
      s := s + 8;
    }
    entry := 0;
  }

  // ---- The loader.

  datatype Result = Loaded(entry: nat, base: nat, bytes: nat) | LoadError

  /** Headers inside the file, and every segment sane. */
  ghost predicate WellFormed(f: seq<Byte>, size: nat) {
    |f| >= EHDR_BYTES && Recognised(f) ==> |Headers(f)| == U16At(f, 56) && AllSane(Headers(f), size)
  }

  /** The file is accepted up to the entry scan. */
  ghost predicate Loadable(f: seq<Byte>, scratch: nat) {
    EHDR_BYTES <= |f| != scratch && Recognised(f) && !NoneLoads(Headers(f)) && InFile(f, Headers(f))
  }

  /** Memory holds the image of the segments over a blank span. */
  ghost predicate Filled(f: seq<Byte>, ps: seq<Phdr>, before: seq<Byte>, after: seq<Byte>, lo: nat, hi: nat)
    requires InFile(f, ps)
  {
    |after| == |before| && forall a :: 0 <= a < |after| ==> after[a] == Image(f, ps, Blank(before, lo, hi), a)
  }

  /** The image of the segments over the blank span `[base, hi)`, and the entry found in it. */
  ghost predicate LoadedFrom(r: Result, hi: nat, f: seq<Byte>, ps: seq<Phdr>, before: seq<Byte>, after: seq<Byte>) {
    && r.Loaded? && InFile(f, ps) && !NoneLoads(ps) && r.base + r.bytes == hi
    && Span(ps, r.base, hi) && hi <= |after| && Filled(f, ps, before, after, r.base, hi)
    && r.entry == ScanFrom(after, r.base, hi) != 0
  }

  /** The whole image is in place, but the scan finds no entry in it. */
  ghost predicate NoEntry(lo: nat, hi: nat, f: seq<Byte>, ps: seq<Phdr>, before: seq<Byte>, after: seq<Byte>) {
    && InFile(f, ps) && !NoneLoads(ps) && Span(ps, lo, hi) && hi <= |after|
    && Filled(f, ps, before, after, lo, hi) && ScanFrom(after, lo, hi) == 0
  }

  ghost predicate UntouchedOutside(lo: nat, hi: nat, before: seq<Byte>, after: seq<Byte>) {
    |after| == |before| && forall a :: 0 <= a < |after| && !(lo <= a < hi) ==> after[a] == before[a]
  }

  lemma FilledInside(f: seq<Byte>, ps: seq<Phdr>, n: nat, before: seq<Byte>, after: seq<Byte>, lo: nat, hi: nat)
    requires AllSane(ps, |before|) && Span(ps, lo, hi) && !NoneLoads(ps)
    requires n <= |ps| && InFile(f, ps[..n]) && Filled(f, ps[..n], before, after, lo, hi)
    ensures UntouchedOutside(lo, hi, before, after)
  {
    forall a | 0 <= a < |after| && !(lo <= a < hi)
      ensures after[a] == before[a]
    {
      OutsideUntouched(f, ps[..n], Blank(before, lo, hi), lo, hi, a);
    }
  }

  lemma Measured(ps: seq<Phdr>, lo: nat, hi: nat, size: nat)
    requires Span(ps, lo, hi) && AllSane(ps, size)
    ensures NoneLoads(ps) <==> lo == NO_ADDRESS || hi <= lo
    ensures hi <= size
  {
    forall i | 0 <= i < |ps|
      ensures Loads(ps[i]) ==> lo < NO_ADDRESS && lo < hi
      ensures Loads(ps[i]) && Beyond(ps[i]) == hi ==> hi <= size
    {
      assert Sane(ps[i], size);
    }
  }

  /** Pass 2: the span is blanked, then filled by the segments up to the first that is refused. */
  method FillSpan(mem: array<Byte>, f: seq<Byte>, ps: seq<Phdr>, lo: nat, hi: nat) returns (ok: bool)
    requires AllSane(ps, mem.Length) && Span(ps, lo, hi) && !NoneLoads(ps) && lo < hi <= mem.Length
    modifies mem
    ensures ok <==> InFile(f, ps)
    ensures UntouchedOutside(lo, hi, old(mem[..]), mem[..])
    ensures ok ==> Filled(f, ps, old(mem[..]), mem[..], lo, hi)
  {
    Zero(mem, lo, hi - lo);
    assert mem[..] == Blank(old(mem[..]), lo, hi);
    ghost var n;
    ok, n := CopyAll(mem, f, ps);
    assert ok ==> ps[..n] == ps;
    FilledInside(f, ps, n, old(mem[..]), mem[..], lo, hi);
  }

  /** Both passes and the scan, over parsed headers. Nothing outside the span changes, however it ends. */
  method LoadSegments(mem: array<Byte>, f: seq<Byte>, ps: seq<Phdr>) returns (r: Result, ghost lo: nat, ghost hi: nat)
    requires AllSane(ps, mem.Length)
    modifies mem
    ensures Span(ps, lo, hi) && UntouchedOutside(lo, hi, old(mem[..]), mem[..])
    ensures r.Loaded? ==> r.base == lo && LoadedFrom(r, hi, f, ps, old(mem[..]), mem[..])
    ensures r.LoadError? ==> NoneLoads(ps) || !InFile(f, ps) || NoEntry(lo, hi, f, ps, old(mem[..]), mem[..])
  {
    r := LoadError;
    var base, end := Measure(ps, mem.Length);
    Measured(ps, base, end, mem.Length);
    lo, hi := base, end;
    if base == NO_ADDRESS || end <= base {
      return;
    }
    var ok := FillSpan(mem, f, ps, base, end);
    if !ok {
      return;
    }
    var entry := Scan(mem, base, end);
    if entry == 0 {
      return;
    }
    r := Loaded(entry, base, end - base);
  }

  /** `load_kernel_elf` once the file has been read into a buffer of `scratch` bytes. */
  method Load(mem: array<Byte>, f: seq<Byte>, scratch: nat) returns (r: Result, ghost lo: nat, ghost hi: nat)
    requires WellFormed(f, mem.Length)
    modifies mem
    ensures UntouchedOutside(lo, hi, old(mem[..]), mem[..])
    ensures |f| >= EHDR_BYTES && |f| != scratch && Recognised(f) ==> Span(Headers(f), lo, hi)
    ensures !(|f| >= EHDR_BYTES && |f| != scratch && Recognised(f)) ==> mem[..] == old(mem[..])
    ensures r.Loaded? ==>
              Loadable(f, scratch) && r.base == lo && LoadedFrom(r, hi, f, Headers(f), old(mem[..]), mem[..])
    ensures r.LoadError? ==>
              !Loadable(f, scratch) || NoEntry(lo, hi, f, Headers(f), old(mem[..]), mem[..])
  {
    r, lo, hi := LoadError, NO_ADDRESS, 0;
    if |f| < EHDR_BYTES || |f| == scratch {
      return;
    }
    if !Recognised(f) {
      return;
    }
    r, lo, hi := LoadSegments(mem, f, Headers(f));
  }

  /**
   A loaded image of disjoint segments: each segment holds its file bytes, the rest of the span is zero
   unless the span starts at the null address, and nothing else has changed.
   */
  lemma LoadedBytes(r: Result, hi: nat, f: seq<Byte>, ps: seq<Phdr>, before: seq<Byte>, after: seq<Byte>, a: nat)
    requires LoadedFrom(r, hi, f, ps, before, after) && AllSane(ps, |before|) && Disjoint(ps) && a < |after|
    ensures forall i :: 0 <= i < |ps| && Holds(ps[i], a) ==> after[a] == f[ps[i].offset + (a - Address(ps[i]))]
    ensures (forall i :: 0 <= i < |ps| ==> !Holds(ps[i], a)) && r.base <= a < hi ==>
              after[a] == if r.base != 0 then 0 else before[a]
    ensures !(r.base <= a < hi) ==> after[a] == before[a]
  {
    ImageOfDisjoint(f, ps, before, r.base, hi, a);
  }

  lemma LowestAligned(ps: seq<Phdr>, lo: nat)
    requires Lowest(ps, lo)
    ensures lo % 8 == 0
  {
    var i :| 0 <= i < |ps| && Loads(ps[i]) && First(ps[i]) == lo;
  }

  /** The entry of a loaded image is the word after the first marker in it. */
  lemma LoadedEntry(r: Result, hi: nat, f: seq<Byte>, ps: seq<Phdr>, before: seq<Byte>, after: seq<Byte>)
    returns (marker: nat)
    requires LoadedFrom(r, hi, f, ps, before, after)
    ensures FirstMarker(after, r.base, hi, marker) && r.entry == U64At(after, marker + 8)
  {
    LowestAligned(ps, r.base);
    marker := ScanAnswers(after, r.base, hi);
  }

  // ---- A span at the null address.

  /** One segment of sixteen bytes at 0x100, all of it in the file. */
  const LOW_SEGMENT := Phdr(PT_LOAD, 0, 0x100, 0, 16, 16)

  /** Its span starts at the null address, so the fill is skipped and old bytes show through the page. */
  lemma LowSpanStaysDirty(f: seq<Byte>, m: seq<Byte>, a: nat)
    requires |f| >= 16 && |m| == PAGE && a < PAGE && !(0x100 <= a < 0x110)
    ensures AllSane([LOW_SEGMENT], |m|) && InFile(f, [LOW_SEGMENT]) && Span([LOW_SEGMENT], 0, PAGE)
    ensures Image(f, [LOW_SEGMENT], Blank(m, 0, PAGE), a) == m[a]
  {
    var ps := [LOW_SEGMENT];
    assert ps[0] == LOW_SEGMENT && First(LOW_SEGMENT) == 0 && Beyond(LOW_SEGMENT) == PAGE;
    RestIsBlank(f, ps, Blank(m, 0, PAGE), a);
  }
}
