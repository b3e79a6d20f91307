/**
 The identity map of the first 4 GiB: the builder of six table pages, the checker that inspects them,
 and the processor's 4-level walk (section 4.5 of the Intel SDM, Volume 3A) that gives them meaning.
 Tables are words of 64 bits; joining an aligned address with flag bits is addition.
 */
module PageTables {
  const PAGE: nat := 0x1000
  const LEAF: nat := 0x20_0000        // 2 MiB
  const GIB: nat := 0x4000_0000
  const COVER: nat := 0x1_0000_0000   // 4 GiB
  const PHYS: nat := 0x10_0000_0000_0000 // 2^52
  const PD_COUNT: nat := 4
  const ENTRIES: nat := 512
  const WORDS: nat := 3072

  const LINK_FLAGS: nat := 0x3  // present, writable
  const LEAF_FLAGS: nat := 0x83 // present, writable, page size

  predicate Present(e: nat) { e % 2 == 1 }
  predicate Writable(e: nat) { e / 2 % 2 == 1 }
  predicate PageSize(e: nat) { e / 0x80 % 2 == 1 }

  /** Bits 51:12, 51:21 and 51:30 of an entry. */
  function TableAddr(e: nat): nat { e % PHYS / PAGE * PAGE }
  function LeafAddr(e: nat): nat { e % PHYS / LEAF * LEAF }
  function GibAddr(e: nat): nat { e % PHYS / GIB * GIB }

  // ---- The processor.

  datatype Translation = Fault | Page(pa: nat, writable: bool) | Outside

  /** The word of memory at a physical address, known only inside the tables. */
  function Read(t: seq<nat>, base: nat, pa: nat): (r: int)
    ensures r >= -1
  {
    if base <= pa && (pa - base) / 8 < |t| then t[(pa - base) / 8] else -1
  }

  predicate Canonical(va: nat) {
    va < 0x8000_0000_0000 || 0xffff_8000_0000_0000 <= va < 0x1_0000_0000_0000_0000
  }

  /** The 4-level walk from `cr3`. A set reserved bit is a fault. */
  function Walk(t: seq<nat>, base: nat, cr3: nat, va: nat): Translation {
    if !Canonical(va) then Fault
    else
      var e4 := Read(t, base, TableAddr(cr3) + 8 * (va / 0x80_0000_0000 % ENTRIES));
      if e4 < 0 then Outside
      else if !Present(e4) || PageSize(e4) then Fault
      else WalkPdpt(t, base, e4, va)
  }

  function WalkPdpt(t: seq<nat>, base: nat, e4: nat, va: nat): Translation {
    var e3 := Read(t, base, TableAddr(e4) + 8 * (va / GIB % ENTRIES));
    if e3 < 0 then Outside
    else if !Present(e3) then Fault
    else if PageSize(e3) then
      if e3 / 0x2000 % 0x2_0000 != 0 then Fault // bits 29:13
      else Page(GibAddr(e3) + va % GIB, Writable(e4) && Writable(e3))
    else WalkPd(t, base, Writable(e4) && Writable(e3), e3, va)
  }

  function WalkPd(t: seq<nat>, base: nat, w: bool, e3: nat, va: nat): Translation {
    var e2 := Read(t, base, TableAddr(e3) + 8 * (va / LEAF % ENTRIES));
    if e2 < 0 then Outside
    else if !Present(e2) then Fault
    else if PageSize(e2) then
      if e2 / 0x2000 % 0x100 != 0 then Fault // bits 20:13
      else Page(LeafAddr(e2) + va % LEAF, w && Writable(e2))
    else WalkPt(t, base, w && Writable(e2), e2, va)
  }

  function WalkPt(t: seq<nat>, base: nat, w: bool, e2: nat, va: nat): Translation {
    var e1 := Read(t, base, TableAddr(e2) + 8 * (va / PAGE % ENTRIES));
    if e1 < 0 then Outside
    else if !Present(e1) then Fault
    else Page(TableAddr(e1) + va % PAGE, w && Writable(e1))
  }

  // ---- The builder.

  predicate Placed(base: nat) {
    base % PAGE == 0 && base + 6 * PAGE <= PHYS
  }

  /** What the builder leaves in word `w`: one top link, four directory links, 2048 leaves, zero elsewhere. */
  function Entry(base: nat, w: nat): nat {
    if w == 0 then base + PAGE + LINK_FLAGS
    else if ENTRIES <= w < ENTRIES + PD_COUNT then base + (2 + (w - ENTRIES)) * PAGE + LINK_FLAGS
    else if 1024 <= w then (w - 1024) * LEAF + LEAF_FLAGS
    else 0
  }

  function Built(base: nat): (t: seq<nat>)
    ensures |t| == WORDS
  {
    seq(WORDS, w requires 0 <= w => Entry(base, w))
  }

  /** `boot_install_identity_4gib`, up to the load of CR3. */
  method Build(pt: array<nat>, base: nat)
    requires pt.Length == WORDS
    modifies pt
    ensures pt[..] == Built(base)
  {
    for w := 0 to WORDS
      invariant forall k :: 0 <= k < w ==> pt[k] == 0
    {
      pt[w] := 0;
    }
    pt[0] := base + PAGE + LINK_FLAGS;
    for d := 0 to PD_COUNT
      invariant forall k :: 0 <= k < WORDS ==>
                  pt[k] == if k < ENTRIES + d || 1024 <= k < 1024 + d * ENTRIES then Entry(base, k) else 0
    {
      pt[ENTRIES + d] := base + (2 + d) * PAGE + LINK_FLAGS;
      for i := 0 to ENTRIES
        invariant forall k :: 0 <= k < WORDS ==>
                    pt[k] == if k < ENTRIES + d + 1 || 1024 <= k < 1024 + d * ENTRIES + i then Entry(base, k) else 0
      {
        pt[(2 + d) * ENTRIES + i] := d * GIB + i * LEAF + LEAF_FLAGS;
      }
    }
  }

  // ---- The checker.

  predicate LinkOk(e: nat, target: nat) {
    Present(e) && Writable(e) && TableAddr(e) == TableAddr(target)
  }

  predicate LeafFlagsOk(e: nat) {
    Present(e) && Writable(e) && PageSize(e)
  }

  predicate DirectoryOk(t: seq<nat>, base: nat, d: nat)
    requires |t| == WORDS && d < PD_COUNT
  {
    LinkOk(t[ENTRIES + d], base + (2 + d) * PAGE)
  }

  /** Leaf `n` of the 2048 has the flags and the address of the `n`th 2 MiB page. */
  predicate LeafOk(t: seq<nat>, n: nat)
    requires |t| == WORDS && n < PD_COUNT * ENTRIES
  {
    LeafFlagsOk(t[1024 + n]) && LeafAddr(t[1024 + n]) == n * LEAF
  }

  /** What the checker's cover flag claims of the tables. */
  ghost predicate Covers(t: seq<nat>, base: nat, cr3: nat) {
    && |t| == WORDS && cr3 == base && base % PAGE == 0
    && LinkOk(t[0], base + PAGE)
    && (forall d :: 0 <= d < PD_COUNT ==> DirectoryOk(t, base, d))
    && (forall n :: 0 <= n < PD_COUNT * ENTRIES ==> LeafOk(t, n))
  }

  datatype Verdict = Pass | Partial | Fail

  /** Of the first `n` leaves: how many have the wrong flags, and how many the right ones but the wrong address. */
  ghost function BadFlags(t: seq<nat>, n: nat): nat
    requires |t| == WORDS && n <= PD_COUNT * ENTRIES
  {
    if n == 0 then 0 else BadFlags(t, n - 1) + if LeafFlagsOk(t[1024 + n - 1]) then 0 else 1
  }

  ghost function BadAddrs(t: seq<nat>, n: nat): nat
    requires |t| == WORDS && n <= PD_COUNT * ENTRIES
  {
    if n == 0 then 0
    else BadAddrs(t, n - 1) + if LeafFlagsOk(t[1024 + n - 1]) && !LeafOk(t, n - 1) then 1 else 0
  }

  /** How many of the first `d` directory links are right. */
  ghost function GoodLinks(t: seq<nat>, base: nat, d: nat): nat
    requires |t| == WORDS && d <= PD_COUNT
  {
    if d == 0 then 0 else GoodLinks(t, base, d - 1) + if DirectoryOk(t, base, d - 1) then 1 else 0
  }

  /** The counters after the first `n` leaves. */
  ghost predicate Counted(t: seq<nat>, n: nat, ok: nat, badFlag: nat, badAddr: nat) {
    && |t| == WORDS && n <= PD_COUNT * ENTRIES && ok + badFlag + badAddr == n
    && badFlag == BadFlags(t, n) && badAddr == BadAddrs(t, n)
    && (ok == n <==> forall k :: 0 <= k < n ==> LeafOk(t, k))
  }

  lemma CountedNext(t: seq<nat>, n: nat, ok: nat, badFlag: nat, badAddr: nat, e: nat)
    requires Counted(t, n, ok, badFlag, badAddr) && n < PD_COUNT * ENTRIES && t[1024 + n] == e
    ensures !LeafFlagsOk(e) ==> Counted(t, n + 1, ok, badFlag + 1, badAddr)
    ensures LeafFlagsOk(e) && LeafAddr(e) != n * LEAF ==> Counted(t, n + 1, ok, badFlag, badAddr + 1)
    ensures LeafFlagsOk(e) && LeafAddr(e) == n * LEAF ==> Counted(t, n + 1, ok + 1, badFlag, badAddr)
  {
    var m := n + 1;
    assert LeafOk(t, n) <==> LeafFlagsOk(e) && LeafAddr(e) == n * LEAF;
    assert BadFlags(t, m) == badFlag + (if LeafFlagsOk(e) then 0 else 1);
    assert BadAddrs(t, m) == badAddr + (if LeafFlagsOk(e) && !LeafOk(t, n) then 1 else 0);
  }

  /** One directory's leaves. */
  method InspectLeaves(pt: array<nat>, d: nat, ok0: nat, flag0: nat, addr0: nat)
    returns (ok: nat, badFlag: nat, badAddr: nat)
    requires pt.Length == WORDS && d < PD_COUNT && Counted(pt[..], d * ENTRIES, ok0, flag0, addr0)
    ensures Counted(pt[..], (d + 1) * ENTRIES, ok, badFlag, badAddr)
  {
    ok, badFlag, badAddr := ok0, flag0, addr0;
    for i := 0 to ENTRIES
      invariant Counted(pt[..], d * ENTRIES + i, ok, badFlag, badAddr)
    {
      var e := pt[(2 + d) * ENTRIES + i];
      CountedNext(pt[..], d * ENTRIES + i, ok, badFlag, badAddr, e);
      if !LeafFlagsOk(e) {
        badFlag := badFlag + 1;
      } else if LeafAddr(e) != d * GIB + i * LEAF {
        badAddr := badAddr + 1;
      } else {
        ok := ok + 1;
      }
    }
  }

  /** The checking part of `identity_soft_inventory`. */
  method Inspect(pt: array<nat>, base: nat, cr3: nat)
    returns (verdict: Verdict, leavesOk: nat, badFlag: nat, badAddr: nat, linksOk: nat)
    requires pt.Length == WORDS
    ensures verdict == Pass <==> Covers(pt[..], base, cr3)
    ensures verdict == Fail <==> cr3 != base || leavesOk == 0
    ensures leavesOk + badFlag + badAddr == PD_COUNT * ENTRIES && linksOk == GoodLinks(pt[..], base, PD_COUNT)
    ensures badFlag == BadFlags(pt[..], PD_COUNT * ENTRIES) && badAddr == BadAddrs(pt[..], PD_COUNT * ENTRIES)
  {
    var topOk := LinkOk(pt[0], base + PAGE);
    leavesOk, badFlag, badAddr, linksOk := 0, 0, 0, 0;
    for d := 0 to PD_COUNT
      invariant Counted(pt[..], d * ENTRIES, leavesOk, badFlag, badAddr)
      invariant linksOk <= d && linksOk == GoodLinks(pt[..], base, d)
      invariant linksOk == d <==> forall k :: 0 <= k < d ==> DirectoryOk(pt[..], base, k)
    {
      assert DirectoryOk(pt[..], base, d) == LinkOk(pt[ENTRIES + d], base + (2 + d) * PAGE);
      if LinkOk(pt[ENTRIES + d], base + (2 + d) * PAGE) {
        linksOk := linksOk + 1;
      }
      leavesOk, badFlag, badAddr := InspectLeaves(pt, d, leavesOk, badFlag, badAddr);
    }
    var cover := leavesOk == PD_COUNT * ENTRIES && topOk && linksOk == PD_COUNT && cr3 == base && base % PAGE == 0;
    verdict := if cover then Pass else if leavesOk == 0 || cr3 != base then Fail else Partial;
  }

  // ---- What the checker's verdict is worth.

  lemma Indices(va: nat)
    requires va < COVER
    ensures Canonical(va) && va / 0x80_0000_0000 % ENTRIES == 0
    ensures va / GIB % ENTRIES == va / GIB < PD_COUNT
    ensures va / GIB * ENTRIES + va / LEAF % ENTRIES == va / LEAF < PD_COUNT * ENTRIES
  {
  }

  lemma AlignedAddr(a: nat)
    requires a % PAGE == 0 && a < PHYS
    ensures TableAddr(a) == a
  {
  }

  lemma DirectoryAddr(base: nat, d: nat)
    requires Placed(base) && d < PD_COUNT
    ensures TableAddr(base + (2 + d) * PAGE) == base + (2 + d) * PAGE
  {
  }

  /** The top level sends every low address to the directory-pointer page, unless its reserved bit is set. */
  lemma TopLevel(t: seq<nat>, base: nat, va: nat)
    requires Placed(base) && Covers(t, base, base) && va < COVER
    ensures Walk(t, base, base, va) == if PageSize(t[0]) then Fault else WalkPdpt(t, base, t[0], va)
  {
    Indices(va);
    AlignedAddr(base);
  }

  lemma DirectoryLevel(t: seq<nat>, base: nat, va: nat)
    requires Placed(base) && Covers(t, base, base) && va < COVER
    ensures var e3 := t[ENTRIES + va / GIB];
            WalkPdpt(t, base, t[0], va) ==
            if !PageSize(e3) then WalkPd(t, base, true, e3, va)
            else if e3 / 0x2000 % 0x2_0000 != 0 then Fault
            else Page(GibAddr(e3) + va % GIB, true)
  {
    Indices(va);
    AlignedAddr(base + PAGE);
    assert DirectoryOk(t, base, va / GIB);
  }

  lemma LeafLevel(t: seq<nat>, base: nat, va: nat)
    requires Placed(base) && Covers(t, base, base) && va < COVER
    ensures WalkPd(t, base, true, t[ENTRIES + va / GIB], va) ==
            if t[1024 + va / LEAF] / 0x2000 % 0x100 != 0 then Fault else Page(va, true)
  {
    Indices(va);
    var d := va / GIB;
    DirectoryAddr(base, d);
    assert DirectoryOk(t, base, d);
    assert LeafOk(t, va / LEAF);
  }

  lemma FrameOf(h: nat, p: nat, r: nat)
    requires p < 0x100_0000_0000 && r < PAGE
    ensures (PHYS * h + PAGE * p + r) % PHYS == PAGE * p + r && TableAddr(PHYS * h + PAGE * p + r) == PAGE * p
  {
  }

  lemma GibOf(h: nat, g: nat, r: nat)
    requires g < 0x40_0000 && r < GIB
    ensures GibAddr(PHYS * h + GIB * g + r) == GIB * g
  {
    var x := GIB * g + r;
    assert x < PHYS && x / GIB == g;
    assert (PHYS * h + x) % PHYS == x;
  }

  lemma ReservedOf(q: nat, m: nat, r: nat)
    requires m < 0x2_0000 && r < 0x2000
    ensures (GIB * q + 0x2000 * m + r) / 0x2000 == 0x2_0000 * q + m && (0x2_0000 * q + m) % 0x2_0000 == m
  {
  }

  /** The fields of an entry read as a 1 GiB page: frame `g`, reserved bits `m`, bit 12. */
  lemma GibSplit(e: nat) returns (g: nat, m: nat, b: nat)
    ensures m < 0x2_0000 && b < 2 && TableAddr(e) == GIB * g + 0x2000 * m + PAGE * b
    ensures e / 0x2000 % 0x2_0000 == m && GibAddr(e) == GIB * g
  {
    var h, low := e / PHYS, e % PHYS;
    var mid := low % GIB;
    var end := mid % 0x2000;
    g, m, b := low / GIB, mid / 0x2000, end / PAGE;
    var r := end % PAGE;
    FrameOf(h, 0x4_0000 * g + 2 * m + b, r);
    GibOf(h, g, 0x2000 * m + PAGE * b + r);
    ReservedOf(0x40_0000 * h + g, m, PAGE * b + r);
  }

  /** A directory page taken for a 1 GiB page is the identity on GiB `d` only at the first two pages of that GiB. */
  lemma GibPage(e: nat, d: nat, va: nat)
    requires va / GIB == d
    ensures e / 0x2000 % 0x2_0000 == 0 && GibAddr(e) + va % GIB == va <==>
            TableAddr(e) == d * GIB || TableAddr(e) == d * GIB + PAGE
  {
    var g, m, b := GibSplit(e);
    assert va == GIB * d + va % GIB;
    assert m == 0 && g == d <==> GIB * g + 0x2000 * m + PAGE * b == GIB * d + PAGE * b;
  }

  /** What the checker does not test: the page-size bit of the links and the reserved bits of a leaf. */
  predicate Sound(t: seq<nat>, base: nat, va: nat)
    requires |t| == WORDS && va < COVER
  {
    var d, n := va / GIB, va / LEAF;
    && !PageSize(t[0])
    && if PageSize(t[ENTRIES + d])
       then base + (2 + d) * PAGE == d * GIB || base + (1 + d) * PAGE == d * GIB
       else t[1024 + n] / 0x2000 % 0x100 == 0
  }

  /** Tables the checker passes translate an address to itself exactly when those bits allow it. */
  lemma CoverIsIdentityIff(t: seq<nat>, base: nat, va: nat)
    requires Placed(base) && Covers(t, base, base) && va < COVER
    ensures Walk(t, base, base, va) == Page(va, true) <==> Sound(t, base, va)
  {
    var d := va / GIB;
    TopLevel(t, base, va);
    DirectoryLevel(t, base, va);
    LeafLevel(t, base, va);
    assert DirectoryOk(t, base, d);
    DirectoryAddr(base, d);
    GibPage(t[ENTRIES + d], d, va);
  }

  /** The checker passes tables whose first directory link claims to be a 1 GiB page, which do not map address 0. */
  lemma CoverMissesPageSize(base: nat)
    requires Placed(base)
    ensures var t := Built(base)[ENTRIES := base + 2 * PAGE + LEAF_FLAGS];
            Covers(t, base, base) && Walk(t, base, base, 0) != Page(0, true)
  {
    BigLinkFields(base + 2 * PAGE);
    BigIsCovered(base);
    CoverIsIdentityIff(Built(base)[ENTRIES := base + 2 * PAGE + LEAF_FLAGS], base, 0);
  }

  /** The checker accepts any first directory link with the right flags and address. */
  lemma LinkReplaced(t: seq<nat>, base: nat, e: nat)
    requires |t| == WORDS && Covers(t, base, base) && LinkOk(e, base + 2 * PAGE)
    ensures Covers(t[ENTRIES := e], base, base)
  {
    var t' := t[ENTRIES := e];
    forall d | 0 <= d < PD_COUNT
      ensures DirectoryOk(t', base, d)
    {
      assert d > 0 ==> t'[ENTRIES + d] == t[ENTRIES + d];
      assert DirectoryOk(t, base, d);
    }
    forall n | 0 <= n < PD_COUNT * ENTRIES
      ensures LeafOk(t', n)
    {
      assert t'[1024 + n] == t[1024 + n] && LeafOk(t, n);
    }
  }

  lemma BigIsCovered(base: nat)
    requires Placed(base)
    ensures Covers(Built(base)[ENTRIES := base + 2 * PAGE + LEAF_FLAGS], base, base)
  {
    BuiltIsCovered(base);
    BigLinkFields(base + 2 * PAGE);
    LinkReplaced(Built(base), base, base + 2 * PAGE + LEAF_FLAGS);
  }

  lemma ReservedLeafFaults(t: seq<nat>, base: nat, va: nat)
    requires Placed(base) && Covers(t, base, base) && va < COVER
    requires !PageSize(t[0]) && !PageSize(t[ENTRIES + va / GIB]) && t[1024 + va / LEAF] / 0x2000 % 0x100 != 0
    ensures Walk(t, base, base, va) == Fault
  {
    TopLevel(t, base, va);
    DirectoryLevel(t, base, va);
    LeafLevel(t, base, va);
  }

  const RESERVED_LEAF: nat := 0x2083 // the first 2 MiB page with bit 13 set

  lemma ReservedIsCovered(base: nat)
    requires Placed(base)
    ensures Covers(Built(base)[1024 := RESERVED_LEAF], base, base)
  {
    var t := Built(base)[1024 := RESERVED_LEAF];
    BuiltIsCovered(base);
    assert LeafOk(t, 0);
    assert forall d :: 0 <= d < PD_COUNT ==> DirectoryOk(t, base, d) == DirectoryOk(Built(base), base, d);
    assert forall n :: 0 < n < PD_COUNT * ENTRIES ==> LeafOk(t, n) == LeafOk(Built(base), n);
  }

  /** The checker passes tables whose first leaf has a reserved bit set, on which the processor faults. */
  lemma CoverMissesReservedBit(base: nat)
    requires Placed(base)
    ensures var t := Built(base)[1024 := RESERVED_LEAF];
            Covers(t, base, base) && Walk(t, base, base, 0) == Fault
  {
    ReservedIsCovered(base);
    LinkFields(base + PAGE);
    BuiltDirectory(base, 0);
    ReservedLeafFaults(Built(base)[1024 := RESERVED_LEAF], base, 0);
  }

  lemma Halves(q: nat, bit: nat)
    requires bit < 2
    ensures (2 * q + bit) / 2 == q && (2 * q + bit) % 2 == bit
  {
  }

  lemma AboveBit7(q: nat, r: nat)
    requires r < 0x80
    ensures (0x80 * q + r) / 0x80 == q
  {
  }

  /** Bits 0, 1 and 7 and the address of an entry made of frame `p`, the flags 3 and bit 7. */
  lemma FrameFields(p: nat, big: nat)
    requires p < 0x100_0000_0000 && big < 2
    ensures var e := PAGE * p + 0x80 * big + 3;
            e % 2 == 1 && e / 2 % 2 == 1 && e / 0x80 % 2 == big && TableAddr(e) == PAGE * p
  {
    Halves(0x800 * p + 0x40 * big + 1, 1);
    Halves(0x400 * p + 0x20 * big, 1);
    AboveBit7(0x20 * p + big, 3);
    Halves(0x10 * p, big);
    FrameOf(0, p, 0x80 * big + 3);
  }

  lemma Frame(a: nat) returns (p: nat)
    requires a % PAGE == 0 && a < PHYS
    ensures a == PAGE * p && p < 0x100_0000_0000
  {
    p := a / PAGE;
  }

  lemma BigLinkFields(a: nat)
    requires a % PAGE == 0 && a < PHYS
    ensures LinkOk(a + LEAF_FLAGS, a) && PageSize(a + LEAF_FLAGS)
  {
    var p := Frame(a);
    FrameFields(p, 1);
    FrameOf(0, p, 0);
  }

  lemma LinkFields(a: nat)
    requires a % PAGE == 0 && a < PHYS
    ensures LinkOk(a + LINK_FLAGS, a) && !PageSize(a + LINK_FLAGS)
  {
    var p := Frame(a);
    FrameFields(p, 0);
    FrameOf(0, p, 0);
  }

  lemma LeafOf(n: nat, r: nat)
    requires n < PD_COUNT * ENTRIES && r < 0x2000
    ensures LeafAddr(LEAF * n + r) == LEAF * n && (LEAF * n + r) / 0x2000 % 0x100 == 0
  {
    assert (LEAF * n + r) / 0x2000 == 0x100 * n;
  }

  lemma LeafFields(n: nat)
    requires n < PD_COUNT * ENTRIES
    ensures var e := n * LEAF + LEAF_FLAGS; LeafFlagsOk(e) && LeafAddr(e) == n * LEAF && e / 0x2000 % 0x100 == 0
  {
    FrameFields(0x200 * n, 1);
    LeafOf(n, LEAF_FLAGS);
  }

  lemma BuiltDirectory(base: nat, d: nat)
    requires Placed(base) && d < PD_COUNT
    ensures DirectoryOk(Built(base), base, d) && !PageSize(Built(base)[ENTRIES + d])
  {
    PageAfter(base, 2 + d, base + (2 + d) * PAGE);
    LinkFields(base + (2 + d) * PAGE);
  }

  lemma PageAfter(base: nat, k: nat, a: nat)
    requires base % PAGE == 0 && a == base + k * PAGE
    ensures a % PAGE == 0
  {
    var p := base / PAGE;
    assert base == PAGE * p;
    assert a == PAGE * (p + k);
  }

  lemma BuiltLeaf(base: nat, n: nat)
    requires n < PD_COUNT * ENTRIES
    ensures LeafOk(Built(base), n) && Built(base)[1024 + n] / 0x2000 % 0x100 == 0
  {
    LeafFields(n);
  }

  /** The checker accepts what the builder makes. */
  lemma BuiltIsCovered(base: nat)
    requires Placed(base)
    ensures Covers(Built(base), base, base)
  {
    LinkFields(base + PAGE);
    forall d | 0 <= d < PD_COUNT
      ensures DirectoryOk(Built(base), base, d)
    {
      BuiltDirectory(base, d);
    }
    forall n | 0 <= n < PD_COUNT * ENTRIES
      ensures LeafOk(Built(base), n)
    {
      BuiltLeaf(base, n);
    }
  }

  lemma BuiltIsSound(base: nat, va: nat)
    requires Placed(base) && va < COVER
    ensures Sound(Built(base), base, va)
  {
    Indices(va);
    LinkFields(base + PAGE);
    BuiltDirectory(base, va / GIB);
    BuiltLeaf(base, va / LEAF);
  }

  /** The built tables map every address below 4 GiB to itself, writable, and map nothing else. */
  lemma BuiltIsIdentity(base: nat, va: nat)
    requires Placed(base)
    ensures Walk(Built(base), base, base, va) == if va < COVER then Page(va, true) else Fault
  {
    if va < COVER {
      BuiltIsCovered(base);
      BuiltIsSound(base, va);
      CoverIsIdentityIff(Built(base), base, va);
    } else {
      BuiltMapsNoMore(base, va);
    }
  }

  lemma HighIndices(va: nat)
    requires va >= COVER && Canonical(va)
    ensures va / 0x80_0000_0000 % ENTRIES == 0 ==> va / GIB % ENTRIES >= PD_COUNT
  {
  }

  lemma ReadWord(t: seq<nat>, base: nat, w: nat)
    requires w < |t|
    ensures Read(t, base, base + 8 * w) == t[w]
  {
  }

  lemma HighTop(t: seq<nat>, base: nat, va: nat)
    requires Placed(base) && t == Built(base) && Canonical(va)
    ensures Walk(t, base, base, va) == if va / 0x80_0000_0000 % ENTRIES == 0 then WalkPdpt(t, base, t[0], va) else Fault
  {
    AlignedAddr(base);
    ReadWord(t, base, va / 0x80_0000_0000 % ENTRIES);
    LinkFields(base + PAGE);
  }

  lemma HighDirectory(t: seq<nat>, base: nat, va: nat)
    requires Placed(base) && t == Built(base) && va / GIB % ENTRIES >= PD_COUNT
    ensures WalkPdpt(t, base, t[0], va) == Fault
  {
    LinkFields(base + PAGE);
    AlignedAddr(base + PAGE);
    ReadWord(t, base, ENTRIES + va / GIB % ENTRIES);
  }

  lemma BuiltMapsNoMore(base: nat, va: nat)
    requires Placed(base) && va >= COVER
    ensures Walk(Built(base), base, base, va) == Fault
  {
    if Canonical(va) {
      HighTop(Built(base), base, va);
      if va / 0x80_0000_0000 % ENTRIES == 0 {
        HighIndices(va);
        HighDirectory(Built(base), base, va);
      }
    }
  }
}
