/**
 The three walks over the firmware's memory map: the loader's tally, the kernel's summary and the kernel's
 table of usable regions. Record layout and memory types follow section 7.2 of the UEFI Specification.
 */
module EfiMap {
  import opened BootBytes

  const DESC_BYTES: nat := 40
  const PAGE: nat := 4096

  /** Memory types that become ordinary RAM once boot services have been left. */
  predicate Usable(typ: nat) {
    typ == 7 || typ == 1 || typ == 2 || typ == 3 || typ == 4 || typ == 9
  }

  datatype Class = Loader | BootServices | Conventional | AcpiReclaim | Runtime | Mmio | Other

  /** The class a type is tallied under. The loader counts ACPI NVS with MMIO, the kernel does not. */
  function ClassOf(typ: nat, nvsIsMmio: bool): Class {
    if typ == 1 || typ == 2 then Loader
    else if typ == 3 || typ == 4 then BootServices
    else if typ == 7 then Conventional
    else if typ == 9 then AcpiReclaim
    else if typ == 5 || typ == 6 then Runtime
    else if typ == 11 || typ == 12 || (nvsIsMmio && typ == 10) then Mmio
    else Other
  }

  datatype Desc = Desc(typ: nat, base: nat, pages: nat)

  function DescAt(b: seq<Byte>, off: nat): (d: Desc)
    requires off + DESC_BYTES <= |b|
    ensures d.pages < U64_LIMIT && d.base < U64_LIMIT
  {
    Desc(U32At(b, off), U64At(b, off + 8), U64At(b, off + 24))
  }

  /** A descriptor size below the record's own is replaced by it. */
  function Stride(descSize: nat): (s: nat)
    ensures s >= DESC_BYTES
  {
    if descSize < DESC_BYTES then DESC_BYTES else descSize
  }

  /** The records of a map from an offset on. */
  function Records(b: seq<Byte>, stride: nat, off: nat): (ds: seq<Desc>)
    requires stride >= DESC_BYTES
    decreases |b| - off
  {
    if off + stride <= |b| then [DescAt(b, off)] + Records(b, stride, off + stride) else []
  }

  function Pages(ds: seq<Desc>, c: Class, nvs: bool): (n: nat) {
    if ds == [] then 0
    else (if ClassOf(ds[0].typ, nvs) == c then ds[0].pages else 0) + Pages(ds[1..], c, nvs)
  }

  function UsablePages(ds: seq<Desc>): (n: nat) {
    if ds == [] then 0 else (if Usable(ds[0].typ) then ds[0].pages else 0) + UsablePages(ds[1..])
  }

  /** All pages the map mentions, whatever their type. */
  function Total(ds: seq<Desc>): (n: nat) {
    if ds == [] then 0 else ds[0].pages + Total(ds[1..])
  }

  function Zeros(ds: seq<Desc>): (n: nat) {
    if ds == [] then 0 else (if ds[0].pages == 0 then 1 else 0) + Zeros(ds[1..])
  }

  /** No sum of pages or bytes over the map overflows 64 bits. */
  ghost predicate NoOverflow(ds: seq<Desc>) {
    && Total(ds) * PAGE < U64_LIMIT
    && forall i :: 0 <= i < |ds| ==> ds[i].base + ds[i].pages * PAGE < U64_LIMIT
  }

  lemma {:induction false} Bounds(ds: seq<Desc>, nvs: bool)
    ensures UsablePages(ds) <= Total(ds) && forall c :: Pages(ds, c, nvs) <= Total(ds)
  {
    if ds == [] {
    } else {
      Bounds(ds[1..], nvs);
    }
  }

  /** Usable pages are the loader's, boot services', conventional and ACPI-reclaim pages, in both tallies. */
  lemma {:induction false} UsableSplits(ds: seq<Desc>, nvs: bool)
    ensures UsablePages(ds) == Pages(ds, Loader, nvs) + Pages(ds, BootServices, nvs) +
                               Pages(ds, Conventional, nvs) + Pages(ds, AcpiReclaim, nvs)
  {
    if ds == [] {
    } else {
      UsableSplits(ds[1..], nvs);
    }
  }

  /** Every page is in exactly one class. */
  lemma {:induction false} ClassesPartition(ds: seq<Desc>, nvs: bool)
    ensures Total(ds) == UsablePages(ds) + Pages(ds, Runtime, nvs) + Pages(ds, Mmio, nvs) + Pages(ds, Other, nvs)
  {
    if ds == [] {
    } else {
      ClassesPartition(ds[1..], nvs);
    }
  }

  // ---- The two tallies.

  datatype Tally = Tally(descs: nat, zero: nat, pages: map<Class, nat>, usable: nat)

  const EMPTY_TALLY := Tally(0, 0, map[Loader := 0, BootServices := 0, Conventional := 0, AcpiReclaim := 0,
                                       Runtime := 0, Mmio := 0, Other := 0], 0)

  /** `t` together with the records still to be walked makes up the records of the whole map. */
  ghost predicate Tallying(t: Tally, rest: seq<Desc>, all: seq<Desc>, nvs: bool) {
    && t.descs + |rest| == |all| && t.zero + Zeros(rest) == Zeros(all)
    && t.usable + UsablePages(rest) == UsablePages(all)
    && forall c :: c in t.pages && t.pages[c] + Pages(rest, c, nvs) == Pages(all, c, nvs)
  }

  lemma TallyingStarts(all: seq<Desc>, nvs: bool)
    ensures Tallying(EMPTY_TALLY, all, all, nvs)
  {
    forall c: Class
      ensures c in EMPTY_TALLY.pages && EMPTY_TALLY.pages[c] == 0
    {
      match c {
        case Loader | BootServices | Conventional | AcpiReclaim | Runtime | Mmio | Other =>
      }
    }
  }

  /** One record of either tally: the class it falls in, then the usable total. */
  method TallyRecord(t: Tally, d: Desc, nvs: bool, ghost rest: seq<Desc>, ghost all: seq<Desc>) returns (u: Tally)
    requires Total(all) < U64_LIMIT && Tallying(t, [d] + rest, all, nvs)
    ensures Tallying(u, rest, all, nvs)
  {
    assert ([d] + rest)[1..] == rest;
    Bounds(all, nvs);
    u := t.(descs := t.descs + 1);
    if d.pages == 0 {
      u := u.(zero := u.zero + 1);
      return;
    }
    var c := ClassOf(d.typ, nvs);
    u := u.(pages := u.pages[c := Add64(u.pages[c], d.pages)]);
    if Usable(d.typ) {
      u := u.(usable := Add64(u.usable, d.pages));
    }
  }

  method NewTally(ghost all: seq<Desc>, ghost nvs: bool) returns (t: Tally)
    ensures Tallying(t, all, all, nvs)
  {
    TallyingStarts(all, nvs);
    t := EMPTY_TALLY;
  }

  lemma {:induction false} RecordsCons(b: seq<Byte>, stride: nat, off: nat) returns (rest: seq<Desc>)
    requires stride >= DESC_BYTES && off + stride <= |b|
    ensures rest == Records(b, stride, off + stride) && Records(b, stride, off) == [DescAt(b, off)] + rest
  {
    rest := Records(b, stride, off + stride);
  }

  /** `soft_memmap_marker`: the loader's tally of the map it is about to hand over, for any descriptor size. */
  method LoaderTally(b: seq<Byte>, descSize: nat) returns (t: Tally)
    requires 2 * |b| < U64_LIMIT && descSize < U64_LIMIT && Total(Records(b, Stride(descSize), 0)) < U64_LIMIT
    ensures Tallying(t, [], Records(b, Stride(descSize), 0), true)
  {
    var stride, off, nvsIsMmio := Stride(descSize), 0, true;
    ghost var all := Records(b, stride, 0);
    ghost var rest := all;
    t := NewTally(all, nvsIsMmio);
    if |b| == 0 {
      return;
    }
    while Add64(off, stride) <= |b|
      invariant off <= |b| && (off > 0 ==> stride <= |b|)
      invariant rest == Records(b, stride, off)
      invariant Tallying(t, rest, all, nvsIsMmio)
      decreases |b| - off
    {
      var d, next := DescAt(b, off), Add64(off, stride);
      rest := RecordsCons(b, stride, off);
      t := TallyRecord(t, d, nvsIsMmio, rest, all);
      off := next;
    }
    assert rest == [];
  }

  /** The kernel's tally of the map it was handed. */
  method KernelTally(b: seq<Byte>, descSize: nat) returns (t: Tally)
    requires 2 * |b| < U64_LIMIT && descSize < U64_LIMIT && Total(Records(b, Stride(descSize), 0)) < U64_LIMIT
    ensures Tallying(t, [], Records(b, Stride(descSize), 0), false)
  {
    var stride, off, nvsIsMmio := Stride(descSize), 0, false;
    ghost var all := Records(b, stride, 0);
    ghost var rest := all;
    t := NewTally(all, nvsIsMmio);
    while Add64(off, stride) <= |b|
      invariant off <= |b| && (off > 0 ==> stride <= |b|)
      invariant rest == Records(b, stride, off)
      invariant Tallying(t, rest, all, nvsIsMmio)
      decreases |b| - off
    {
      var d, next := DescAt(b, off), Add64(off, stride);
      rest := RecordsCons(b, stride, off);
      t := TallyRecord(t, d, nvsIsMmio, rest, all);
      off := next;
    }
    assert rest == [];
  }

  lemma UsableFits(t: Tally, all: seq<Desc>)
    requires Tallying(t, [], all, false) && NoOverflow(all)
    ensures t.usable == UsablePages(all) && t.usable * PAGE % U64_LIMIT == PAGE * UsablePages(all)
  {
    Bounds(all, false);
    assert t.usable * PAGE < U64_LIMIT;
  }

  /** `boot_info_soft_memmap_deep`: the kernel's summary, absent for an empty map or a Multiboot2 one. */
  method KernelSummary(b: seq<Byte>, descSize: nat, multiboot: bool)
    returns (present: bool, t: Tally, usableBytes: nat, ok: bool)
    requires 2 * |b| < U64_LIMIT && descSize < U64_LIMIT && NoOverflow(Records(b, Stride(descSize), 0))
    ensures present <==> |b| > 0 && !(multiboot && descSize == 0)
    ensures present ==> Tallying(t, [], Records(b, Stride(descSize), 0), false)
    ensures present ==> usableBytes == PAGE * UsablePages(Records(b, Stride(descSize), 0)) && ok == (usableBytes > 0)
    ensures !present ==> t == EMPTY_TALLY && usableBytes == 0 && !ok
  {
    present, t, usableBytes, ok := false, EMPTY_TALLY, 0, false;
    if |b| == 0 || (multiboot && descSize == 0) {
      return;
    }
    present := true;
    t := KernelTally(b, descSize);
    UsableFits(t, Records(b, Stride(descSize), 0));
    usableBytes := t.usable * PAGE % U64_LIMIT;
    ok := t.usable > 0;
  }

  // ---- The region table.

  function End(r: Region): nat {
    r.base + r.length
  }

  /** The regions kept so far, and those the full table had no room for. */
  datatype Table = Table(kept: seq<Region>, dropped: seq<Region>)

  /** One record: skipped, joined to the last region, dropped, or a new region. */
  function Add(t: Table, d: Desc, max: nat): Table {
    if !Usable(d.typ) || d.pages == 0 then t
    else if t.kept != [] && End(Last(t.kept)) == d.base then
      t.(kept := t.kept[|t.kept| - 1 := Last(t.kept).(length := Last(t.kept).length + d.pages * PAGE)])
    else if |t.kept| >= max then t.(dropped := t.dropped + [Region(d.base, d.pages * PAGE)])
    else t.(kept := t.kept + [Region(d.base, d.pages * PAGE)])
  }

  function AddAll(t: Table, ds: seq<Desc>, max: nat): Table
    decreases |ds|
  {
    if ds == [] then t else AddAll(Add(t, ds[0], max), ds[1..], max)
  }

  function Coalesced(ds: seq<Desc>, max: nat): Table {
    AddAll(Table([], []), ds, max)
  }

  /** Kept and dropped bytes together grow by the record's bytes if it is usable, and by nothing else. */
  lemma AddBytes(t: Table, d: Desc, max: nat)
    ensures var u := Add(t, d, max);
            Bytes(u.kept) + Bytes(u.dropped) ==
            Bytes(t.kept) + Bytes(t.dropped) + if Usable(d.typ) then d.pages * PAGE else 0
  {
    var u := Add(t, d, max);
    if u.kept != t.kept {
      assert u.kept[..|u.kept| - 1] == if |u.kept| == |t.kept| then t.kept[..|t.kept| - 1] else t.kept;
    } else if u.dropped != t.dropped {
      assert u.dropped[..|u.dropped| - 1] == t.dropped;
    }
  }

  lemma {:induction false} AddAllBytes(t: Table, ds: seq<Desc>, max: nat)
    ensures var u := AddAll(t, ds, max);
            Bytes(u.kept) + Bytes(u.dropped) == Bytes(t.kept) + Bytes(t.dropped) + PAGE * UsablePages(ds)
    decreases |ds|
  {
    if ds == [] {
    } else {
      AddBytes(t, ds[0], max);
      AddAllBytes(Add(t, ds[0], max), ds[1..], max);
    }
  }

  /** Region lengths plus dropped bytes are the usable bytes that both tallies report. */
  lemma RegionsAgree(ds: seq<Desc>, max: nat)
    ensures Bytes(Coalesced(ds, max).kept) + Bytes(Coalesced(ds, max).dropped) == PAGE * UsablePages(ds)
  {
    AddAllBytes(Table([], []), ds, max);
  }

  /** No region ends where the next begins. */
  ghost predicate Apart(rs: seq<Region>) {
    forall i :: 0 < i < |rs| ==> End(rs[i - 1]) != rs[i].base
  }

  ghost predicate Holds(rs: seq<Region>, a: nat) {
    exists i :: 0 <= i < |rs| && rs[i].base <= a < End(rs[i])
  }

  ghost predicate InUsable(ds: seq<Desc>, a: nat) {
    exists i :: 0 <= i < |ds| && Usable(ds[i].typ) && ds[i].base <= a < ds[i].base + ds[i].pages * PAGE
  }

  lemma HoldsAppend(rs: seq<Region>, r: Region, a: nat)
    ensures Holds(rs + [r], a) <==> Holds(rs, a) || r.base <= a < End(r)
  {
    var all := rs + [r];
    if Holds(rs, a) {
      var i :| 0 <= i < |rs| && rs[i].base <= a < End(rs[i]);
      assert all[i] == rs[i];
    }
    if r.base <= a < End(r) {
      assert all[|rs|] == r;
    }
  }

  /** One record adds its own bytes if it is usable. */
  lemma AddHolds(t: Table, d: Desc, max: nat, a: nat)
    ensures var u := Add(t, d, max);
            Holds(u.kept, a) || Holds(u.dropped, a) <==> Holds(t.kept, a) || Holds(t.dropped, a) || InUsable([d], a)
  {
    var u, r := Add(t, d, max), Region(d.base, d.pages * PAGE);
    assert InUsable([d], a) <==> Usable(d.typ) && r.base <= a < End(r) by {
      assert [d][0] == d;
    }
    if u.dropped != t.dropped {
      HoldsAppend(t.dropped, r, a);
    } else if |u.kept| > |t.kept| {
      HoldsAppend(t.kept, r, a);
    } else if u.kept != t.kept {
      LastGrows(t.kept, u.kept, r, a);
    }
  }

  lemma LastGrows(rs: seq<Region>, rs': seq<Region>, r: Region, a: nat)
    requires rs != [] && End(Last(rs)) == r.base
    requires rs' == rs[|rs| - 1 := Last(rs).(length := Last(rs).length + r.length)]
    ensures Holds(rs', a) <==> Holds(rs, a) || r.base <= a < End(r)
  {
    var front := rs[..|rs| - 1];
    assert rs == front + [Last(rs)] && rs' == front + [Last(rs')];
    HoldsAppend(front, Last(rs), a);
    HoldsAppend(front, Last(rs'), a);
  }

  lemma AddApart(t: Table, d: Desc, max: nat)
    requires Apart(t.kept) && |t.kept| <= max
    ensures Apart(Add(t, d, max).kept) && |Add(t, d, max).kept| <= max
  {
  }

  /** The regions, with what was dropped, hold exactly the usable bytes, and no two in a row touch. */
  lemma {:induction false} AddAllHolds(t: Table, ds: seq<Desc>, max: nat, a: nat)
    requires Apart(t.kept) && |t.kept| <= max
    ensures var u := AddAll(t, ds, max);
            && Apart(u.kept) && |u.kept| <= max
            && (Holds(u.kept, a) || Holds(u.dropped, a) <==>
                Holds(t.kept, a) || Holds(t.dropped, a) || InUsable(ds, a))
    decreases |ds|
  {
    if ds == [] {
    } else {
      AddHolds(t, ds[0], max, a);
      AddApart(t, ds[0], max);
      AddAllHolds(Add(t, ds[0], max), ds[1..], max, a);
      assert ds == [ds[0]] + ds[1..];
    }
  }

  /** The region table in terms of the firmware's map. */
  lemma RegionsExact(ds: seq<Desc>, max: nat, a: nat)
    ensures var t := Coalesced(ds, max);
            && Apart(t.kept) && |t.kept| <= max
            && (Holds(t.kept, a) || Holds(t.dropped, a) <==> InUsable(ds, a))
            && (t.dropped == [] ==> (Holds(t.kept, a) <==> InUsable(ds, a)))
  {
    AddAllHolds(Table([], []), ds, max, a);
  }

  /**
   The three walks agree: the two tallies report the same usable pages, made up of the same four classes,
   and the region table accounts for every one of their bytes.
   */
  lemma WalksAgree(loader: Tally, kernel: Tally, ds: seq<Desc>, max: nat)
    requires Tallying(loader, [], ds, true) && Tallying(kernel, [], ds, false)
    ensures var t := Coalesced(ds, max);
            && loader.usable == kernel.usable
            && Bytes(t.kept) + Bytes(t.dropped) == PAGE * kernel.usable
            && kernel.usable == kernel.pages[Loader] + kernel.pages[BootServices] +
                                kernel.pages[Conventional] + kernel.pages[AcpiReclaim]
            && loader.usable == loader.pages[Loader] + loader.pages[BootServices] +
                                loader.pages[Conventional] + loader.pages[AcpiReclaim]
  {
    RegionsAgree(ds, max);
    UsableSplits(ds, true);
    UsableSplits(ds, false);
  }

  /** What the loop over the map keeps: in-range regions, and the table still to be reached. */
  ghost predicate Coalescing(t: Table, rest: seq<Desc>, all: seq<Desc>, max: nat) {
    && AddAll(t, rest, max) == Coalesced(all, max)
    && NoOverflow(rest) && Bytes(t.kept) + Total(rest) * PAGE < U64_LIMIT && |t.kept| <= max
    && forall i :: 0 <= i < |t.kept| ==> End(t.kept[i]) < U64_LIMIT
  }

  lemma {:induction false} NoOverflowTail(d: Desc, rest: seq<Desc>)
    requires NoOverflow([d] + rest)
    ensures NoOverflow(rest) && d.base + d.pages * PAGE < U64_LIMIT && Total([d] + rest) == d.pages + Total(rest)
  {
    var all := [d] + rest;
    assert all[1..] == rest && all[0] == d;
    assert forall i :: 0 <= i < |rest| ==> rest[i] == all[i + 1];
  }

  lemma LengthBounded(rs: seq<Region>)
    requires rs != []
    ensures Last(rs).length <= Bytes(rs)
  {
  }

  lemma AddInRange(t: Table, d: Desc, max: nat)
    requires d.base + d.pages * PAGE < U64_LIMIT
    requires forall i :: 0 <= i < |t.kept| ==> End(t.kept[i]) < U64_LIMIT
    ensures forall i :: 0 <= i < |Add(t, d, max).kept| ==> End(Add(t, d, max).kept[i]) < U64_LIMIT
  {
  }

  lemma {:induction false} AddAllCons(t: Table, d: Desc, rest: seq<Desc>, max: nat)
    ensures AddAll(t, [d] + rest, max) == AddAll(Add(t, d, max), rest, max)
  {
    assert ([d] + rest)[1..] == rest;
  }

  lemma {:induction false} CoalescingStep(t: Table, d: Desc, rest: seq<Desc>, all: seq<Desc>, max: nat)
    requires Coalescing(t, [d] + rest, all, max)
    ensures Coalescing(Add(t, d, max), rest, all, max)
    ensures d.pages * PAGE < U64_LIMIT
    ensures t.kept != [] && Usable(d.typ) && End(Last(t.kept)) == d.base ==>
              Last(t.kept).length + d.pages * PAGE < U64_LIMIT
  {
    NoOverflowTail(d, rest);
    AddBytes(t, d, max);
    AddInRange(t, d, max);
    AddAllCons(t, d, rest, max);
    if t.kept != [] {
      LengthBounded(t.kept);
    }
  }

  /** The coalescing loop of `kmain_uefi` over a caller's table of regions. */
  method Coalesce(b: seq<Byte>, descSize: nat, regions: array<Region>) returns (n: nat, ghost t: Table)
    requires 2 * |b| < U64_LIMIT && descSize < U64_LIMIT && NoOverflow(Records(b, Stride(descSize), 0))
    modifies regions
    ensures t == Coalesced(Records(b, Stride(descSize), 0), regions.Length)
    ensures n <= regions.Length && regions[..n] == t.kept
  {
    var stride, off := Stride(descSize), 0;
    ghost var all := Records(b, stride, 0);
    n, t := 0, Table([], []);
    while Add64(off, stride) <= |b|
      invariant off <= |b| && (off > 0 ==> stride <= |b|)
      invariant n <= regions.Length && regions[..n] == t.kept
      invariant Coalescing(t, Records(b, stride, off), all, regions.Length)
      decreases |b| - off
    {
      var d := DescAt(b, off);
      CoalescingStep(t, d, Records(b, stride, off + stride), all, regions.Length);
      n := AddRecord(regions, n, d, t);
      t := Add(t, d, regions.Length);
      off := Add64(off, stride);
    }
  }

  method AddRecord(regions: array<Region>, n: nat, d: Desc, ghost t: Table) returns (n': nat)
    requires n <= regions.Length && regions[..n] == t.kept
    requires d.pages * PAGE < U64_LIMIT
    requires t.kept != [] ==> End(Last(t.kept)) < U64_LIMIT
    requires t.kept != [] && Usable(d.typ) && End(Last(t.kept)) == d.base ==>
               Last(t.kept).length + d.pages * PAGE < U64_LIMIT
    modifies regions
    ensures n' <= regions.Length && regions[..n'] == Add(t, d, regions.Length).kept
  {
    n' := n;
    if !Usable(d.typ) {
      return;
    }
    var cb := d.pages * PAGE % U64_LIMIT;
    if cb == 0 {
      return;
    }
    if n > 0 && Add64(regions[n - 1].base, regions[n - 1].length) == d.base {
      regions[n - 1] := Region(regions[n - 1].base, Add64(regions[n - 1].length, cb));
      return;
    }
    if n >= regions.Length {
      return;
    }
    regions[n] := Region(d.base, cb);
    n' := n + 1;
  }
}
