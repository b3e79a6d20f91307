/**
 The firmware's memory map seen from its writer: records as section 7.2 of the UEFI Specification lays them out, and
 what the tallies and the region table say about them. Types are written out: 1 and 2 are the loader's, 3 and 4 boot
 services, 5 and 6 runtime services, 7 conventional memory, 9 ACPI reclaim, 10 ACPI NVS, 11 and 12 memory-mapped I/O.
 */
module EfiRecords {
  import opened Words
  import opened BootBytes
  import opened ByteFormats
  import opened EfiMap

  datatype Record = Record(typ: nat, pad: nat, phys: nat, virt: nat, pages: nat, attributes: nat)

  function RecordBytes(m: Record): (b: seq<Byte>)
    ensures |b| == 40
  {
    Le(m.typ, 4) + (Le(m.pad, 4) + (Le(m.phys, 8) + (Le(m.virt, 8) + (Le(m.pages, 8) + Le(m.attributes, 8)))))
  }

  ghost predicate RecordFits(m: Record) {
    m.typ < U32_LIMIT && m.phys < U64_LIMIT && m.pages < U64_LIMIT
  }

  lemma RecordReadsBack(b: seq<Byte>, off: nat, m: Record)
    requires RecordFits(m) && Stored(b, off, RecordBytes(m))
    ensures DescAt(b, off) == Desc(m.typ, m.phys, m.pages)
  {
    var r4 := Le(m.pages, 8) + Le(m.attributes, 8);
    var r3 := Le(m.virt, 8) + r4;
    var r2 := Le(m.phys, 8) + r3;
    var r1 := Le(m.pad, 4) + r2;
    StoredSplit(b, off, Le(m.typ, 4), r1);
    StoredSplit(b, off + 4, Le(m.pad, 4), r2);
    StoredSplit(b, off + 8, Le(m.phys, 8), r3);
    StoredSplit(b, off + 16, Le(m.virt, 8), r4);
    StoredSplit(b, off + 24, Le(m.pages, 8), Le(m.attributes, 8));
    Word32(b, off, m.typ);
    Word64(b, off + 8, m.phys);
    Word64(b, off + 24, m.pages);
  }

  // ---- A whole map.

  /** The buffer holds the records `ms`, one every `stride` bytes, and has no room for another. */
  ghost predicate IsMap(b: seq<Byte>, stride: nat, ms: seq<Record>) {
    && RowsFit(b, stride, 0, |ms|)
    && forall i :: 0 <= i < |ms| ==> RecordFits(ms[i]) && Stored(b, Row(0, stride, i), RecordBytes(ms[i]))
  }

  /** From `off` on the buffer has exactly `n` rows. */
  ghost predicate RowsFit(b: seq<Byte>, stride: nat, off: nat, n: nat) {
    Row(off, stride, n) + stride > |b| && forall i :: 0 <= i < n ==> Row(off, stride, i) + stride <= |b|
  }

  /** Record `i` of such a map stands `i` strides into it. */
  lemma RecordStands(b: seq<Byte>, stride: nat, ms: seq<Record>, i: nat)
    requires IsMap(b, stride, ms) && i < |ms|
    ensures Stored(b, i * stride, RecordBytes(ms[i]))
  {
    RowIs(0, stride, i);
  }

  /** `ds` is what the walks use of the records `ms`. */
  ghost predicate Parsed(ds: seq<Desc>, ms: seq<Record>) {
    |ds| == |ms| && forall i :: 0 <= i < |ms| ==> ds[i] == Desc(ms[i].typ, ms[i].phys, ms[i].pages)
  }

  lemma {:induction false} RecordsAt(b: seq<Byte>, stride: nat, off: nat, n: nat)
    requires stride >= DESC_BYTES && RowsFit(b, stride, off, n)
    ensures |Records(b, stride, off)| == n
    ensures forall i :: 0 <= i < n ==>
              Row(off, stride, i) + DESC_BYTES <= |b| && Records(b, stride, off)[i] == DescAt(b, Row(off, stride, i))
    decreases n
  {
    assert Row(off, stride, 0) == off;
    if n == 0 {
    } else {
      var rest := RecordsCons(b, stride, off);
      RowsTail(b, stride, off, n);
      RecordsAt(b, stride, off + stride, n - 1);
      forall i | 0 <= i < n
        ensures Row(off, stride, i) + DESC_BYTES <= |b|
        ensures Records(b, stride, off)[i] == DescAt(b, Row(off, stride, i))
      {
        if i > 0 {
          assert Row(off, stride, i) == Row(off + stride, stride, i - 1) && Records(b, stride, off)[i] == rest[i - 1];
        }
      }
    }
  }

  lemma RowsTail(b: seq<Byte>, stride: nat, off: nat, n: nat)
    requires n > 0 && RowsFit(b, stride, off, n)
    ensures RowsFit(b, stride, off + stride, n - 1)
  {
    var next := off + stride;
    forall i | 0 <= i < n - 1
      ensures Row(next, stride, i) + stride <= |b|
    {
      assert Row(off, stride, i + 1) == Row(next, stride, i);
    }
  }

  /** All three walks read exactly the records of the map. */
  lemma MapReadsBack(b: seq<Byte>, stride: nat, ms: seq<Record>)
    requires stride >= DESC_BYTES && IsMap(b, stride, ms)
    ensures Parsed(Records(b, stride, 0), ms)
  {
    RecordsAt(b, stride, 0, |ms|);
    forall i | 0 <= i < |ms|
      ensures Records(b, stride, 0)[i] == Desc(ms[i].typ, ms[i].phys, ms[i].pages)
    {
      RecordReadsBack(b, Row(0, stride, i), ms[i]);
    }
  }

  /** A descriptor size that is too small to hold a record stands for the size of one. */
  lemma HandedOver(b: seq<Byte>, descSize: nat, ms: seq<Record>)
    requires IsMap(b, if descSize < 40 then 40 else descSize, ms)
    ensures Parsed(Records(b, Stride(descSize), 0), ms)
  {
    MapReadsBack(b, Stride(descSize), ms);
  }

  // ---- The tallies.

  /** The pages of the records with one of these types. */
  ghost function PagesOf(ms: seq<Record>, types: set<nat>): nat
    decreases |ms|
  {
    if ms == [] then 0 else (if ms[0].typ in types then ms[0].pages else 0) + PagesOf(ms[1..], types)
  }

  lemma ParsedTail(ds: seq<Desc>, ms: seq<Record>)
    requires Parsed(ds, ms) && ms != []
    ensures ds != [] && Parsed(ds[1..], ms[1..]) && ds[0] == Desc(ms[0].typ, ms[0].phys, ms[0].pages)
  {
  }

  /** The types a class is made of; everything else falls under Other. */
  ghost function TypesOf(c: Class, nvs: bool): set<nat> {
    match c
    case Loader => {1, 2}
    case BootServices => {3, 4}
    case Conventional => {7}
    case AcpiReclaim => {9}
    case Runtime => {5, 6}
    case Mmio => if nvs then {10, 11, 12} else {11, 12}
    case Other => {}
  }

  lemma {:induction false} ClassPages(ds: seq<Desc>, ms: seq<Record>, c: Class, nvs: bool)
    requires Parsed(ds, ms) && !c.Other?
    ensures Pages(ds, c, nvs) == PagesOf(ms, TypesOf(c, nvs))
    decreases |ms|
  {
    if ms == [] {
    } else {
      ParsedTail(ds, ms);
      ClassPages(ds[1..], ms[1..], c, nvs);
    }
  }

  lemma {:induction false} UsableOf(ds: seq<Desc>, ms: seq<Record>)
    requires Parsed(ds, ms)
    ensures UsablePages(ds) == PagesOf(ms, {1, 2, 3, 4, 7, 9})
    decreases |ms|
  {
    if ms == [] {
    } else {
      ParsedTail(ds, ms);
      UsableOf(ds[1..], ms[1..]);
    }
  }

  ghost function EmptyRecords(ms: seq<Record>): nat
    decreases |ms|
  {
    if ms == [] then 0 else EmptyRecords(ms[1..]) + if ms[0].pages == 0 then 1 else 0
  }

  lemma {:induction false} EmptyOf(ds: seq<Desc>, ms: seq<Record>)
    requires Parsed(ds, ms)
    ensures Zeros(ds) == EmptyRecords(ms)
    decreases |ms|
  {
    if ms == [] {
    } else {
      ParsedTail(ds, ms);
      EmptyOf(ds[1..], ms[1..]);
    }
  }

  /** What a finished tally reports: records, and pages by their types. Only the loader counts ACPI NVS as I/O. */
  lemma TallyOfMap(t: Tally, ds: seq<Desc>, ms: seq<Record>, nvs: bool)
    requires Tallying(t, [], ds, nvs) && Parsed(ds, ms)
    ensures t.descs == |ms| && t.zero == EmptyRecords(ms) && t.usable == PagesOf(ms, {1, 2, 3, 4, 7, 9})
    ensures t.pages[Loader] == PagesOf(ms, {1, 2}) && t.pages[BootServices] == PagesOf(ms, {3, 4})
    ensures t.pages[Conventional] == PagesOf(ms, {7}) && t.pages[AcpiReclaim] == PagesOf(ms, {9})
    ensures t.pages[Runtime] == PagesOf(ms, {5, 6})
    ensures t.pages[Mmio] == PagesOf(ms, if nvs then {10, 11, 12} else {11, 12})
  {
    EmptyOf(ds, ms);
    UsableOf(ds, ms);
    ClassPages(ds, ms, Loader, nvs);
    ClassPages(ds, ms, BootServices, nvs);
    ClassPages(ds, ms, Conventional, nvs);
    ClassPages(ds, ms, AcpiReclaim, nvs);
    ClassPages(ds, ms, Runtime, nvs);
    ClassPages(ds, ms, Mmio, nvs);
  }

  // ---- The region table.

  /** Address `a` lies in a usable record, by its physical start. */
  ghost predicate UsableAddress(ms: seq<Record>, a: nat) {
    exists i :: 0 <= i < |ms| && ms[i].typ in {1, 2, 3, 4, 7, 9} && ms[i].phys <= a < ms[i].phys + 4096 * ms[i].pages
  }

  lemma UsableIff(ds: seq<Desc>, ms: seq<Record>, a: nat)
    requires Parsed(ds, ms)
    ensures InUsable(ds, a) <==> UsableAddress(ms, a)
  {
    forall i | 0 <= i < |ms|
      ensures Usable(ds[i].typ) <==> ms[i].typ in {1, 2, 3, 4, 7, 9}
      ensures ds[i].base == ms[i].phys && ds[i].pages * PAGE == 4096 * ms[i].pages
    {
    }
  }

  /** Nothing is dropped while there is room. */
  lemma {:induction false} DropsOnlyWhenFull(t: Table, ds: seq<Desc>, max: nat)
    requires |t.kept| <= max && (t.dropped != [] ==> |t.kept| == max)
    ensures var u := AddAll(t, ds, max);
            |u.kept| <= max && (u.dropped != [] ==> |u.kept| == max)
    decreases |ds|
  {
    if ds == [] {
    } else {
      DropsOnlyWhenFull(Add(t, ds[0], max), ds[1..], max);
    }
  }

  /**
   The region table of a map: where it is not full it holds exactly the usable addresses, and a full one holds only
   such. No region is followed by one that continues it.
   */
  lemma RegionsOfMap(ds: seq<Desc>, ms: seq<Record>, max: nat, a: nat)
    requires Parsed(ds, ms)
    ensures var rs := Coalesced(ds, max).kept;
            && |rs| <= max && Apart(rs)
            && ((exists i :: 0 <= i < |rs| && rs[i].base <= a < rs[i].base + rs[i].length) ==> UsableAddress(ms, a))
            && (|rs| < max && UsableAddress(ms, a) ==>
                  exists i :: 0 <= i < |rs| && rs[i].base <= a < rs[i].base + rs[i].length)
  {
    var t := Coalesced(ds, max);
    RegionsExact(ds, max, a);
    UsableIff(ds, ms, a);
    DropsOnlyWhenFull(Table([], []), ds, max);
    var rs := t.kept;
    assert Holds(rs, a) <==> exists i :: 0 <= i < |rs| && rs[i].base <= a < rs[i].base + rs[i].length;
  }
}
