/**
 The Multiboot2 information seen from the boot loader that writes it: tags one after the other at multiples of eight,
 as section 3.6 of the Multiboot2 Specification lays them out. The inventory recovers them: how many of each type,
 the memory map, and the values copied out of tags.
 */
module Multiboot2Tags {
  import opened Words
  import opened BootBytes
  import opened ByteFormats
  import opened Multiboot2
  import Multiboot2Kernel

  datatype Tag = Tag(typ: nat, body: seq<Byte>)

  /** Type, size with the eight bytes of the header, and the body. */
  function TagBytes(t: Tag): (b: seq<Byte>)
    ensures |b| == 8 + |t.body|
  {
    Le(t.typ, 4) + (Le(8 + |t.body|, 4) + t.body)
  }

  /** The next multiple of eight. */
  ghost function Padded(n: nat): (r: nat) {
    if n % 8 == 0 then n else n + 8 - n % 8
  }

  /** Where each tag starts when the first one starts at `off`, and where the end tag does. */
  ghost function Starts(off: nat, ts: seq<Tag>): (r: seq<nat>)
    ensures |r| == |ts| + 1
    decreases |ts|
  {
    if ts == [] then [off] else [off] + Starts(off + Padded(8 + |ts[0].body|), ts[1..])
  }

  /** A tag stands at `at`. */
  ghost predicate TagStands(b: seq<Byte>, at: nat, t: Tag) {
    && at + 8 + |t.body| <= |b| && t.typ != 0 && Type(b, at) == t.typ && Size(b, at) == 8 + |t.body|
    && Stored(b, at + 8, t.body)
  }

  lemma TagReadsBack(b: seq<Byte>, at: nat, t: Tag)
    requires 0 < t.typ < U32_LIMIT && |b| < U32_LIMIT && Stored(b, at, TagBytes(t))
    ensures TagStands(b, at, t)
  {
    var size := 8 + |t.body|;
    StoredSplit(b, at, Le(t.typ, 4), Le(size, 4) + t.body);
    StoredSplit(b, at + 4, Le(size, 4), t.body);
    Word32(b, at, t.typ);
    Word32(b, at + 4, size);
  }

  /** The information holds the tags `ts` from byte 8 on, and an end tag behind them. */
  ghost predicate IsInfo(b: seq<Byte>, ts: seq<Tag>) {
    && |b| <= 0x40_0000 && Starts(8, ts)[|ts|] + 8 <= |b| && Stored(b, Starts(8, ts)[|ts|], Le(0, 4))
    && forall k :: 0 <= k < |ts| ==> 0 < ts[k].typ < U32_LIMIT && Stored(b, Starts(8, ts)[k], TagBytes(ts[k]))
  }

  /** The tags `ts` stand at the offsets `tags`. */
  ghost predicate Stand(b: seq<Byte>, tags: seq<nat>, ts: seq<Tag>) {
    |tags| == |ts| && forall k :: 0 <= k < |ts| ==> TagStands(b, tags[k], ts[k])
  }

  ghost predicate Shape(b: seq<Byte>, off: nat, ts: seq<Tag>) {
    && |b| <= TOTAL_MAX && Starts(off, ts)[|ts|] + 8 <= |b| && Type(b, Starts(off, ts)[|ts|]) == TAG_END
    && Stand(b, Starts(off, ts)[..|ts|], ts)
  }

  lemma InfoShape(b: seq<Byte>, ts: seq<Tag>)
    requires IsInfo(b, ts)
    ensures Shape(b, 8, ts)
  {
    Word32(b, Starts(8, ts)[|ts|], 0);
    forall k | 0 <= k < |ts|
      ensures TagStands(b, Starts(8, ts)[..|ts|][k], ts[k])
    {
      TagReadsBack(b, Starts(8, ts)[k], ts[k]);
    }
  }

  lemma ShapeHead(b: seq<Byte>, off: nat, ts: seq<Tag>) returns (next: nat, tail: seq<Tag>, rest: seq<nat>)
    requires ts != [] && Shape(b, off, ts)
    ensures tail == ts[1..] && next == off + Padded(8 + |ts[0].body|) <= |b| && TagStands(b, off, ts[0])
    ensures rest == Starts(next, tail) && Starts(off, ts) == [off] + rest && Shape(b, next, tail)
  {
    tail, next := ts[1..], off + Padded(8 + |ts[0].body|);
    rest := Starts(next, tail);
    StartsGrow(next, tail);
    var n, n' := |ts|, |tail|;
    FrontCons(off, rest, Starts(off, ts), n, n');
    StandTail(b, Starts(off, ts)[..n], rest[..n'], ts, tail);
  }

  lemma FrontCons(off: nat, rest: seq<nat>, ss: seq<nat>, n: nat, n': nat)
    requires ss == [off] + rest && n == n' + 1 && |rest| == n
    ensures |ss| > n && ss[..n] == [off] + rest[..n'] && ss[n] == rest[n']
  {
  }

  lemma StandTail(b: seq<Byte>, tags: seq<nat>, rest: seq<nat>, ts: seq<Tag>, tail: seq<Tag>)
    requires ts != [] && tail == ts[1..] && tags != [] && tags == [tags[0]] + rest && Stand(b, tags, ts)
    ensures Stand(b, rest, tail) && TagStands(b, tags[0], ts[0])
  {
    forall k | 0 <= k < |tail|
      ensures TagStands(b, rest[k], tail[k])
    {
      assert tags[k + 1] == rest[k] && ts[k + 1] == tail[k];
    }
  }

  lemma {:induction false} StartsGrow(off: nat, ts: seq<Tag>)
    ensures Starts(off, ts)[|ts|] >= off
    decreases |ts|
  {
    if ts == [] {
    } else {
      StartsGrow(off + Padded(8 + |ts[0].body|), ts[1..]);
    }
  }

  lemma PaddedIs(n: nat)
    requires n <= TOTAL_MAX
    ensures Round8(n) == Padded(n)
  {
    RoundsUp(n);
  }

  /** All `n` tags and the end, or the first `left` of them and the cap. */
  ghost function UpToCap(starts: seq<nat>, n: nat, left: nat): Walk
    requires n <= |starts|
  {
    if left > n then Walk(starts[..n], AtEnd) else Walk(starts[..left], CapHit)
  }

  lemma UpToCapCons(off: nat, rest: seq<nat>, starts: seq<nat>, n: nat, n': nat, left: nat, left': nat)
    requires starts == [off] + rest && n == n' + 1 && left == left' + 1 && n' <= |rest|
    ensures UpToCap(starts, n, left) == Walk([off] + UpToCap(rest, n', left').tags, UpToCap(rest, n', left').ending)
  {
    assert starts[..n] == [off] + rest[..n'];
    assert left' <= n' ==> starts[..left] == [off] + rest[..left'];
  }

  /** The walk accepts exactly the tags that were written, up to its cap. */
  lemma {:induction false} WalkOf(b: seq<Byte>, off: nat, ts: seq<Tag>, left: nat)
    requires Shape(b, off, ts)
    ensures WalkFrom(b, off, left) == UpToCap(Starts(off, ts), |ts|, left)
    decreases |ts|
  {
    if ts == [] || left == 0 {
      WalkEnds(b, off, ts, left);
    } else {
      var left' := left - 1;
      var next, tail, rest := ShapeHead(b, off, ts);
      WalkOf(b, next, tail, left');
      WalkStep(b, off, next, left, left', ts[0], UpToCap(rest, |tail|, left'));
      UpToCapCons(off, rest, Starts(off, ts), |ts|, |tail|, left, left');
    }
  }

  lemma WalkEnds(b: seq<Byte>, off: nat, ts: seq<Tag>, left: nat)
    requires Shape(b, off, ts) && (ts == [] || left == 0)
    ensures WalkFrom(b, off, left) == UpToCap(Starts(off, ts), |ts|, left)
  {
    assert Starts(off, ts)[..0] == [];
  }

  lemma WalkStep(b: seq<Byte>, off: nat, next: nat, left: nat, left': nat, t: Tag, w: Walk)
    requires w == WalkFrom(b, next, left')
    requires TagStands(b, off, t) && |b| <= TOTAL_MAX && next == off + Padded(8 + |t.body|) <= |b| && left == left' + 1
    ensures WalkFrom(b, off, left) == Walk([off] + w.tags, w.ending)
  {
    PaddedIs(8 + |t.body|);
  }

  // ---- How many of each type.

  /** The tags with a type from `lo` to `hi`. */
  ghost function HowMany(ts: seq<Tag>, lo: nat, hi: nat): nat
    decreases |ts|
  {
    if ts == [] then 0
    else
      var last := ts[|ts| - 1];
      HowMany(ts[..|ts| - 1], lo, hi) + if lo <= last.typ <= hi then 1 else 0
  }

  lemma StandFront(b: seq<Byte>, tags: seq<nat>, ts: seq<Tag>)
    requires Stand(b, tags, ts) && ts != []
    ensures tags != [] && Stand(b, tags[..|tags| - 1], ts[..|ts| - 1])
    ensures TagStands(b, tags[|tags| - 1], ts[|ts| - 1])
  {
  }

  /** Counter `c` counts the types from `lo` to `hi`. */
  lemma {:induction false} CountOf(b: seq<Byte>, tags: seq<nat>, ts: seq<Tag>, c: nat, lo: nat, hi: nat)
    requires Stand(b, tags, ts) && InBuffer(b, tags)
    requires forall x: nat :: 0 < x < U32_LIMIT ==> (ClassOf(x) == c <==> lo <= x <= hi)
    ensures Count(b, tags, c) == HowMany(ts, lo, hi)
    decreases |ts|
  {
    if ts == [] {
    } else {
      StandFront(b, tags, ts);
      CountOf(b, tags[..|tags| - 1], ts[..|ts| - 1], c, lo, hi);
    }
  }

  /**
   Every type from 1 to 21 has a counter of its own, except that the two EFI image handles, 19 and 20, share one; all
   other types share the last.
   */
  lemma CountsOf(inv: Inventory, b: seq<Byte>, tags: seq<nat>, ts: seq<Tag>)
    requires Stand(b, tags, ts) && Tallied(inv, b, tags)
    ensures |inv.counts| == 23 && inv.tags == |ts| + inv.ends
    ensures forall c :: 1 <= c <= 18 || c == 21 ==> inv.counts[c] == HowMany(ts, c, c)
    ensures inv.counts[19] == HowMany(ts, 19, 20) && inv.counts[20] == 0
    ensures inv.counts[22] == HowMany(ts, 22, 0xffff_ffff)
  {
    forall c | 1 <= c <= 18 || c == 21
      ensures inv.counts[c] == HowMany(ts, c, c)
    {
      CountOf(b, tags, ts, c, c, c);
    }
    CountOf(b, tags, ts, 19, 19, 20);
    CountOf(b, tags, ts, 20, 1, 0);
    NoneBetween(ts, 1, 0);
    CountOf(b, tags, ts, 22, 22, 0xffff_ffff);
  }

  lemma {:induction false} NoneBetween(ts: seq<Tag>, lo: nat, hi: nat)
    requires hi < lo
    ensures HowMany(ts, lo, hi) == 0
    decreases |ts|
  {
    if ts == [] {
    } else {
      NoneBetween(ts[..|ts| - 1], lo, hi);
    }
  }

  // ---- Values copied out of tags.

  /** The first basic-memory tag that gives anything: of at least eight bytes, and not all of them zero. */
  ghost predicate GivesMemory(t: Tag, lower: nat, upper: nat) {
    t.typ == 4 && |t.body| >= 8 && Stored(t.body, 0, Le(lower, 4)) && Stored(t.body, 4, Le(upper, 4))
  }

  ghost predicate GivesFramebuffer(t: Tag, fb: Framebuffer) {
    && t.typ == 8 && |t.body| >= 24
    && Stored(t.body, 0, Le(fb.addr, 8)) && Stored(t.body, 8, Le(fb.pitch, 4)) && Stored(t.body, 12, Le(fb.width, 4))
    && Stored(t.body, 16, Le(fb.height, 4)) && t.body[20] == fb.bpp && t.body[21] == fb.kind
  }

  ghost predicate GivesLoadBase(t: Tag, base: nat) {
    t.typ == 21 && |t.body| >= 4 && Stored(t.body, 0, Le(base, 4))
  }

  /** A field of the body is a field of the information. */
  lemma BodyStored(b: seq<Byte>, at: nat, t: Tag, k: nat, x: seq<Byte>)
    requires TagStands(b, at, t) && Stored(t.body, k, x)
    ensures Stored(b, at + 8 + k, x)
  {
    StoredInside(b, at + 8, t.body, k, x);
  }

  lemma BodyStoredAt(b: seq<Byte>, at: nat, t: Tag, k: nat, x: seq<Byte>, pos: nat)
    requires TagStands(b, at, t) && Stored(t.body, k, x) && pos == at + 8 + k
    ensures Stored(b, pos, x)
  {
    BodyStored(b, at, t, k, x);
  }

  lemma ReadMemory(b: seq<Byte>, at: nat, t: Tag, lower: nat, upper: nat)
    requires TagStands(b, at, t) && GivesMemory(t, lower, upper) && lower < U32_LIMIT && upper < U32_LIMIT
    ensures Type(b, at) == TAG_BASIC_MEM && Size(b, at) >= 16
    ensures U32At(b, at + 8) == lower && U32At(b, at + 12) == upper
  {
    BodyStored(b, at, t, 0, Le(lower, 4));
    BodyStored(b, at, t, 4, Le(upper, 4));
    Word32(b, at + 8, lower);
    Word32(b, at + 12, upper);
  }

  lemma ReadLoadBase(b: seq<Byte>, at: nat, t: Tag, base: nat)
    requires TagStands(b, at, t) && GivesLoadBase(t, base) && base < U32_LIMIT
    ensures Type(b, at) == TAG_LOAD_BASE && Size(b, at) >= 12 && U32At(b, at + 8) == base
  {
    BodyStored(b, at, t, 0, Le(base, 4));
    Word32(b, at + 8, base);
  }

  ghost predicate FramebufferFits(fb: Framebuffer) {
    fb.addr < U64_LIMIT && fb.pitch < U32_LIMIT && fb.width < U32_LIMIT && fb.height < U32_LIMIT
  }

  lemma ReadFramebuffer(b: seq<Byte>, at: nat, t: Tag, fb: Framebuffer)
    requires TagStands(b, at, t) && GivesFramebuffer(t, fb) && FramebufferFits(fb)
    ensures Type(b, at) == TAG_FRAMEBUFFER && Size(b, at) >= 32 && FramebufferAt(b, at) == fb
  {
    BodyStored(b, at, t, 0, Le(fb.addr, 8));
    BodyStored(b, at, t, 8, Le(fb.pitch, 4));
    BodyStored(b, at, t, 12, Le(fb.width, 4));
    BodyStored(b, at, t, 16, Le(fb.height, 4));
    Word64(b, at + 8, fb.addr);
    Word32(b, at + 16, fb.pitch);
    Word32(b, at + 20, fb.width);
    Word32(b, at + 24, fb.height);
    StoredAt(b, at + 8, t.body, 20);
    StoredAt(b, at + 8, t.body, 21);
  }

  ghost predicate IsMemory(b: seq<Byte>, tag: nat, lower: nat, upper: nat) {
    && tag + TAG_HDR <= |b| && Type(b, tag) == TAG_BASIC_MEM && Size(b, tag) >= 16 && tag + Size(b, tag) <= |b|
    && lower == U32At(b, tag + 8) && upper == U32At(b, tag + 12)
  }

  lemma MemoryRead(b: seq<Byte>, at: nat, t: Tag, lower: nat, upper: nat)
    requires TagStands(b, at, t) && GivesMemory(t, lower, upper) && lower < U32_LIMIT && upper < U32_LIMIT
    ensures IsMemory(b, at, lower, upper)
  {
    ReadMemory(b, at, t, lower, upper);
  }

  lemma {:induction false} FirstMemory(b: seq<Byte>, tags: seq<nat>, k: nat, lower: nat, upper: nat)
    requires InBuffer(b, tags) && k < |tags| && IsMemory(b, tags[k], lower, upper) && (lower != 0 || upper != 0)
    requires forall j, x, y :: 0 <= j < k && IsMemory(b, tags[j], x, y) ==> x == 0 && y == 0
    ensures Captured(b, tags).memLower == lower && Captured(b, tags).memUpper == upper
    decreases |tags|
  {
    if k == |tags| - 1 {
      NoMemory(b, tags[..k]);
    } else {
      FirstMemory(b, tags[..|tags| - 1], k, lower, upper);
    }
  }

  lemma {:induction false} NoMemory(b: seq<Byte>, tags: seq<nat>)
    requires InBuffer(b, tags) && forall j, x, y :: 0 <= j < |tags| && IsMemory(b, tags[j], x, y) ==> x == 0 && y == 0
    ensures Captured(b, tags).memLower == 0 && Captured(b, tags).memUpper == 0
    decreases |tags|
  {
    if tags == [] {
    } else {
      var last := tags[|tags| - 1];
      NoMemory(b, tags[..|tags| - 1]);
      assert Type(b, last) == TAG_BASIC_MEM && Size(b, last) >= 16 ==>
        IsMemory(b, last, U32At(b, last + 8), U32At(b, last + 12));
    }
  }

  /** The basic-memory words reported are those of the first tag that gives other than zeros. */
  lemma MemoryOf(b: seq<Byte>, tags: seq<nat>, ts: seq<Tag>, k: nat, lower: nat, upper: nat)
    requires Stand(b, tags, ts) && InBuffer(b, tags) && k < |ts| && lower < U32_LIMIT && upper < U32_LIMIT
    requires GivesMemory(ts[k], lower, upper) && (lower != 0 || upper != 0)
    requires forall j :: 0 <= j < k && ts[j].typ == 4 && |ts[j].body| >= 8 ==> GivesMemory(ts[j], 0, 0)
    ensures Captured(b, tags).memLower == lower && Captured(b, tags).memUpper == upper
  {
    assert TagStands(b, tags[k], ts[k]);
    MemoryRead(b, tags[k], ts[k], lower, upper);
    forall j, x, y | 0 <= j < k && IsMemory(b, tags[j], x, y)
      ensures x == 0 && y == 0
    {
      assert TagStands(b, tags[j], ts[j]);
      MemoryRead(b, tags[j], ts[j], 0, 0);
    }
    FirstMemory(b, tags, k, lower, upper);
  }

  ghost predicate IsFramebuffer(b: seq<Byte>, tag: nat, fb: Framebuffer) {
    && tag + TAG_HDR <= |b| && Type(b, tag) == TAG_FRAMEBUFFER && Size(b, tag) >= 32 && tag + Size(b, tag) <= |b|
    && fb == FramebufferAt(b, tag)
  }

  lemma FramebufferRead(b: seq<Byte>, at: nat, t: Tag, fb: Framebuffer)
    requires TagStands(b, at, t) && GivesFramebuffer(t, fb) && FramebufferFits(fb)
    ensures IsFramebuffer(b, at, fb)
  {
    ReadFramebuffer(b, at, t, fb);
  }

  lemma NoAddress(b: seq<Byte>, at: nat, t: Tag)
    requires TagStands(b, at, t) && Stored(t.body, 0, Le(0, 8))
    ensures at + 16 <= |b| && U64At(b, at + 8) == 0
  {
    BodyStored(b, at, t, 0, Le(0, 8));
    Word64(b, at + 8, 0);
  }

  lemma NoAddressRead(b: seq<Byte>, at: nat, t: Tag, x: Framebuffer)
    requires TagStands(b, at, t) && IsFramebuffer(b, at, x)
    requires t.typ == 8 && |t.body| >= 24 ==> Stored(t.body, 0, Le(0, 8))
    ensures x.addr == 0
  {
    NoAddress(b, at, t);
  }

  lemma {:induction false} FirstFramebuffer(b: seq<Byte>, tags: seq<nat>, k: nat, fb: Framebuffer)
    requires InBuffer(b, tags) && k < |tags| && IsFramebuffer(b, tags[k], fb) && fb.addr != 0
    requires forall j, x :: 0 <= j < k && IsFramebuffer(b, tags[j], x) ==> x.addr == 0
    ensures Captured(b, tags).fb == fb
    decreases |tags|
  {
    if k == |tags| - 1 {
      NoFramebuffer(b, tags[..k]);
    } else {
      FirstFramebuffer(b, tags[..|tags| - 1], k, fb);
    }
  }

  lemma {:induction false} NoFramebuffer(b: seq<Byte>, tags: seq<nat>)
    requires InBuffer(b, tags) && forall j, x :: 0 <= j < |tags| && IsFramebuffer(b, tags[j], x) ==> x.addr == 0
    ensures Captured(b, tags).fb.addr == 0
    decreases |tags|
  {
    if tags == [] {
    } else {
      var last := tags[|tags| - 1];
      NoFramebuffer(b, tags[..|tags| - 1]);
      assert Type(b, last) == TAG_FRAMEBUFFER && Size(b, last) >= 32 ==>
        IsFramebuffer(b, last, FramebufferAt(b, last));
    }
  }

  /** The framebuffer reported is that of the first tag with a non-zero address. */
  lemma FramebufferOf(b: seq<Byte>, tags: seq<nat>, ts: seq<Tag>, k: nat, fb: Framebuffer)
    requires Stand(b, tags, ts) && InBuffer(b, tags) && k < |ts| && FramebufferFits(fb)
    requires GivesFramebuffer(ts[k], fb) && fb.addr != 0
    requires forall j :: 0 <= j < k && ts[j].typ == 8 && |ts[j].body| >= 24 ==> Stored(ts[j].body, 0, Le(0, 8))
    ensures Captured(b, tags).fb == fb
  {
    assert TagStands(b, tags[k], ts[k]);
    FramebufferRead(b, tags[k], ts[k], fb);
    forall j, x | 0 <= j < k && IsFramebuffer(b, tags[j], x)
      ensures x.addr == 0
    {
      assert TagStands(b, tags[j], ts[j]);
      NoAddressRead(b, tags[j], ts[j], x);
    }
    FirstFramebuffer(b, tags, k, fb);
  }

  /** The load base reported is that of the first tag with a non-zero one. */
  lemma LoadBaseOf(b: seq<Byte>, tags: seq<nat>, ts: seq<Tag>, k: nat, base: nat)
    requires Stand(b, tags, ts) && InBuffer(b, tags) && k < |ts| && 0 < base < U32_LIMIT && GivesLoadBase(ts[k], base)
    requires forall j :: 0 <= j < k && ts[j].typ == 21 && |ts[j].body| >= 4 ==> GivesLoadBase(ts[j], 0)
    ensures Captured(b, tags).loadBase == base
  {
    assert TagStands(b, tags[k], ts[k]);
    ReadLoadBase(b, tags[k], ts[k], base);
    forall j, u | 0 <= j < k && IsLoadBase(b, tags[j], u)
      ensures u == 0
    {
      assert TagStands(b, tags[j], ts[j]);
      ReadLoadBase(b, tags[j], ts[j], 0);
    }
    FirstLoadBase(b, tags, k, base);
  }

  // ---- The memory map.

  function EntryBytes(e: Entry): (b: seq<Byte>)
    ensures |b| == 20
  {
    Le(e.addr, 8) + (Le(e.len, 8) + Le(e.typ, 4))
  }

  ghost predicate EntryFits(e: Entry) {
    e.addr < U64_LIMIT && e.len < U64_LIMIT && e.typ < U32_LIMIT
  }

  lemma EntryReadsBack(b: seq<Byte>, pos: nat, e: Entry)
    requires EntryFits(e) && Stored(b, pos, EntryBytes(e))
    ensures EntryAt(b, pos) == e
  {
    StoredSplit(b, pos, Le(e.addr, 8), Le(e.len, 8) + Le(e.typ, 4));
    StoredSplit(b, pos + 8, Le(e.len, 8), Le(e.typ, 4));
    Word64(b, pos, e.addr);
    Word64(b, pos + 8, e.len);
    Word32(b, pos + 16, e.typ);
  }

  /** Between `pos` and `end` there are exactly `n` rows of 24 bytes, `step` apart. */
  ghost predicate RowsFit(pos: nat, end: nat, step: nat, n: nat) {
    Row(pos, step, n) + 24 > end && forall i :: 0 <= i < n ==> Row(pos, step, i) + 24 <= end
  }

  /** A memory-map tag: entry size and version, then the entries `es`, and no room for another. */
  ghost predicate GivesMap(t: Tag, step: nat, es: seq<Entry>) {
    && t.typ == 6 && |t.body| >= 8 && 24 <= step < U32_LIMIT && Stored(t.body, 0, Le(step, 4))
    && RowsFit(8, |t.body|, step, |es|)
    && forall i :: 0 <= i < |es| ==> EntryFits(es[i]) && Stored(t.body, Row(8, step, i), EntryBytes(es[i]))
  }

  lemma {:induction false} EntriesAt(b: seq<Byte>, pos: nat, end: nat, step: nat, n: nat)
    requires step >= ENTRY_MIN && end <= |b| && RowsFit(pos, end, step, n)
    ensures |Entries(b, pos, end, step)| == n
    ensures forall i :: 0 <= i < n ==>
              Row(pos, step, i) + ENTRY_READ <= |b| && Entries(b, pos, end, step)[i] == EntryAt(b, Row(pos, step, i))
    decreases n
  {
    assert Row(pos, step, 0) == pos;
    if n == 0 {
    } else {
      var next, rest := EntriesCons(b, pos, end, step, n);
      EntriesAt(b, next, end, step, n - 1);
      forall i | 0 <= i < n
        ensures Row(pos, step, i) + ENTRY_READ <= |b|
        ensures Entries(b, pos, end, step)[i] == EntryAt(b, Row(pos, step, i))
      {
        if i > 0 {
          assert Row(pos, step, i) == Row(next, step, i - 1) && Entries(b, pos, end, step)[i] == rest[i - 1];
        }
      }
    }
  }

  lemma EntriesCons(b: seq<Byte>, pos: nat, end: nat, step: nat, n: nat) returns (next: nat, rest: seq<Entry>)
    requires step >= ENTRY_MIN && end <= |b| && RowsFit(pos, end, step, n) && n > 0
    ensures next == pos + step && rest == Entries(b, next, end, step) && pos + ENTRY_MIN <= end
    ensures Entries(b, pos, end, step) == [EntryAt(b, pos)] + rest && RowsFit(next, end, step, n - 1)
  {
    assert Row(pos, step, 0) == pos;
    next := pos + step;
    rest := Entries(b, next, end, step);
    forall i | 0 <= i < n - 1
      ensures Row(next, step, i) + 24 <= end
    {
      assert Row(pos, step, i + 1) == Row(next, step, i);
    }
  }

  lemma {:induction false} RowShift(a: nat, off: nat, step: nat, i: nat)
    ensures Row(a + off, step, i) == a + Row(off, step, i)
    decreases i
  {
    if i == 0 {
    } else {
      RowShift(a, off + step, step, i - 1);
    }
  }

  lemma RowsShift(a: nat, pos: nat, end: nat, step: nat, n: nat, from: nat, to: nat)
    requires RowsFit(pos, end, step, n) && from == a + pos && to == a + end
    ensures RowsFit(from, to, step, n)
  {
    RowShift(a, pos, step, n);
    forall i | 0 <= i < n
      ensures Row(from, step, i) + 24 <= to
    {
      RowShift(a, pos, step, i);
    }
  }

  lemma MapStep(b: seq<Byte>, at: nat, t: Tag, step: nat)
    requires TagStands(b, at, t) && step < U32_LIMIT && Stored(t.body, 0, Le(step, 4))
    ensures at + 12 <= |b| && U32At(b, at + 8) == step
  {
    BodyStored(b, at, t, 0, Le(step, 4));
    Word32(b, at + 8, step);
  }

  lemma EntriesOf(b: seq<Byte>, at: nat, step: nat, from: nat, end: nat)
    requires at + TAG_HDR <= |b| && end == at + Size(b, at) <= |b| && from == at + 16 <= end
    requires U32At(b, at + 8) == step >= ENTRY_MIN
    ensures TagEntries(b, at) == Entries(b, from, end, step) && !BadMmap(b, at)
  {
  }

  lemma MapHeader(b: seq<Byte>, at: nat, t: Tag, step: nat, es: seq<Entry>) returns (from: nat, end: nat)
    requires TagStands(b, at, t) && GivesMap(t, step, es)
    ensures from == at + 16 && end == at + 8 + |t.body| <= |b| && RowsFit(from, end, step, |es|)
    ensures TagEntries(b, at) == Entries(b, from, end, step) && !BadMmap(b, at)
  {
    from, end := at + 16, at + 8 + |t.body|;
    MapStep(b, at, t, step);
    EntriesOf(b, at, step, from, end);
    RowsShift(at + 8, 8, |t.body|, step, |es|, from, end);
  }

  lemma MapEntry(b: seq<Byte>, at: nat, t: Tag, step: nat, es: seq<Entry>, i: nat, from: nat)
    requires TagStands(b, at, t) && GivesMap(t, step, es) && i < |es| && from == at + 16
    ensures Row(from, step, i) + ENTRY_READ <= |b| && EntryAt(b, Row(from, step, i)) == es[i]
  {
    RowShift(at + 8, 8, step, i);
    EntryInBody(b, at, t, Row(8, step, i), es[i], Row(from, step, i));
  }

  lemma EntryInBody(b: seq<Byte>, at: nat, t: Tag, row: nat, e: Entry, pos: nat)
    requires TagStands(b, at, t) && EntryFits(e) && Stored(t.body, row, EntryBytes(e)) && pos == at + 8 + row
    ensures pos + ENTRY_READ <= |b| && EntryAt(b, pos) == e
  {
    BodyStoredAt(b, at, t, row, EntryBytes(e), pos);
    EntryReadsBack(b, pos, e);
  }

  /** The entries of the tag are read back, each whole. */
  lemma MapReadsBack(b: seq<Byte>, at: nat, t: Tag, step: nat, es: seq<Entry>)
    requires TagStands(b, at, t) && GivesMap(t, step, es)
    ensures TagEntries(b, at) == es && !BadMmap(b, at)
  {
    var from, end := MapHeader(b, at, t, step, es);
    EntriesAt(b, from, end, step, |es|);
    forall i | 0 <= i < |es|
      ensures Entries(b, from, end, step)[i] == es[i]
    {
      MapEntry(b, at, t, step, es, i, from);
    }
  }

  lemma {:induction false} NoMapBefore(b: seq<Byte>, tags: seq<nat>, ts: seq<Tag>)
    requires Stand(b, tags, ts) && InBuffer(b, tags) && forall j :: 0 <= j < |ts| ==> ts[j].typ != 6
    ensures Count(b, tags, TAG_MMAP) == 0
    decreases |ts|
  {
    if ts == [] {
    } else {
      StandFront(b, tags, ts);
      NoMapBefore(b, tags[..|tags| - 1], ts[..|ts| - 1]);
    }
  }

  lemma {:induction false} MapStays(b: seq<Byte>, tags: seq<nat>, k: nat)
    requires InBuffer(b, tags) && k < |tags| && Type(b, tags[k]) == TAG_MMAP && Count(b, tags[..k], TAG_MMAP) == 0
    ensures Count(b, tags, TAG_MMAP) > 0 && FirstMmap(b, tags) == Take(TagEntries(b, tags[k]), ENTRY_CAP)
    decreases |tags|
  {
    var n := |tags| - 1;
    var front := tags[..n];
    if k == n {
    } else {
      assert front[..k] == tags[..k] && front[k] == tags[k];
      MapStays(b, front, k);
    }
  }

  lemma {:induction false} BadStays(b: seq<Byte>, tags: seq<nat>, k: nat)
    requires InBuffer(b, tags) && k < |tags| && Type(b, tags[k]) == TAG_MMAP && Count(b, tags[..k], TAG_MMAP) == 0
    ensures BadMmaps(b, tags) == if BadMmap(b, tags[k]) then 1 else 0
    decreases |tags|
  {
    var n := |tags| - 1;
    var front := tags[..n];
    if k == n {
    } else {
      assert front[..k] == tags[..k] && front[k] == tags[k];
      MapStays(b, front, k);
      BadStays(b, front, k);
    }
  }

  /** The entries totalled are those of the first memory map, up to 512 of them. */
  lemma MapOf(b: seq<Byte>, tags: seq<nat>, ts: seq<Tag>, k: nat, step: nat, es: seq<Entry>)
    requires Stand(b, tags, ts) && InBuffer(b, tags) && k < |ts| && GivesMap(ts[k], step, es)
    requires forall j :: 0 <= j < k ==> ts[j].typ != 6
    ensures FirstMmap(b, tags) == (if |es| > 512 then es[..512] else es) && BadMmaps(b, tags) == 0
  {
    assert TagStands(b, tags[k], ts[k]);
    MapReadsBack(b, tags[k], ts[k], step, es);
    NoMapBefore(b, tags[..k], ts[..k]);
    MapStays(b, tags, k);
    BadStays(b, tags, k);
  }

  /** The lengths of all entries, or of the available ones, which have type 1. */
  ghost function Lengths(es: seq<Entry>, availableOnly: bool): nat
    decreases |es|
  {
    if es == [] then 0
    else
      var last := es[|es| - 1];
      Lengths(es[..|es| - 1], availableOnly) + if !availableOnly || last.typ == 1 then last.len else 0
  }

  ghost function NonEmpty(es: seq<Entry>): nat
    decreases |es|
  {
    if es == [] then 0
    else
      var last := es[|es| - 1];
      NonEmpty(es[..|es| - 1]) + if last.typ == 1 && last.len > 0 then 1 else 0
  }

  lemma WrapsOnce(n: nat, sum: nat, len: nat)
    requires n == sum % U64_LIMIT && len < U64_LIMIT
    ensures Add64(n, len) == (sum + len) % U64_LIMIT
  {
  }

  lemma {:induction false} TotalsOf(es: seq<Entry>)
    requires forall i :: 0 <= i < |es| ==> es[i].len < U64_LIMIT
    ensures AvailBytes(es) == Lengths(es, true) % U64_LIMIT && TotalBytes(es) == Lengths(es, false) % U64_LIMIT
    ensures AvailEntries(es) == NonEmpty(es)
    decreases |es|
  {
    if es == [] {
    } else {
      var front, last := es[..|es| - 1], es[|es| - 1];
      TotalsOf(front);
      WrapsOnce(AvailBytes(front), Lengths(front, true), last.len);
      WrapsOnce(TotalBytes(front), Lengths(front, false), last.len);
    }
  }

  /** What is reported of a list of entries: sums as 64-bit words, and how many are available and not empty. */
  lemma TotalsReported(m: Mmap, es: seq<Entry>)
    requires Totals(m, es) && forall i :: 0 <= i < |es| ==> es[i].len < U64_LIMIT
    ensures m.entries == |es| && m.avail == NonEmpty(es) && m.reserved == |es| - NonEmpty(es)
    ensures m.availBytes == Lengths(es, true) % U64_LIMIT && m.totalBytes == Lengths(es, false) % U64_LIMIT
  {
    TotalsOf(es);
  }

  // ---- The whole inventory.

  /** Information with up to 255 tags is ok, and its tags are all counted; with more the walk stops at the 256th. */
  lemma InventoryOf(inv: Inventory, b: seq<Byte>, ts: seq<Tag>)
    requires IsInfo(b, ts) && Reports(inv, b, WalkFrom(b, TAG_HDR, TAGS_MAX))
    ensures inv.ok == (|ts| < 256) && inv.capHit == (|ts| >= 256) && inv.overrun == 0
    ensures inv.tags == if |ts| < 256 then |ts| + 1 else 256
    ensures |ts| < 256 ==>
              Stand(b, Starts(8, ts)[..|ts|], ts) && Tallied(inv, b, Starts(8, ts)[..|ts|])
  {
    InfoShape(b, ts);
    WalkOf(b, 8, ts, TAGS_MAX);
  }

  // ---- The kernel's table of regions.

  /** How many entries are available, empty or not. */
  ghost function Available(es: seq<Entry>): nat
    decreases |es|
  {
    if es == [] then 0 else Available(es[..|es| - 1]) + if es[|es| - 1].typ == 1 then 1 else 0
  }

  lemma {:induction false} AvailableAt(es: seq<Entry>, i: nat)
    requires i < |es| && es[i].typ == 1
    ensures |Multiboot2Kernel.Avail(es)| == Available(es) && Available(es[..i]) < Available(es)
    ensures Multiboot2Kernel.Avail(es)[Available(es[..i])] == Region(es[i].addr, es[i].len)
    decreases |es|
  {
    var n := |es| - 1;
    AvailableCount(es[..n]);
    if i == n {
    } else {
      assert es[..n][..i] == es[..i];
      AvailableAt(es[..n], i);
    }
  }

  lemma {:induction false} AvailableCount(es: seq<Entry>)
    ensures |Multiboot2Kernel.Avail(es)| == Available(es)
    decreases |es|
  {
    if es == [] {
    } else {
      AvailableCount(es[..|es| - 1]);
    }
  }

  /**
   The kernel's table after reading the entries `es`: as many rows as there are available entries, or as it has room
   for, and entry `i` in the row that as many available entries come before.
   */
  lemma RegionsOf(regions: seq<Region>, n: nat, es: seq<Entry>, i: nat)
    requires Multiboot2Kernel.Filled(regions, n, es)
    ensures n == if Available(es) < |regions| then Available(es) else |regions|
    ensures i < |es| && es[i].typ == 1 && Available(es[..i]) < n ==>
              regions[Available(es[..i])] == Region(es[i].addr, es[i].len)
  {
    AvailableCount(es);
    if i < |es| && es[i].typ == 1 && Available(es[..i]) < n {
      AvailableAt(es, i);
      assert regions[..n][Available(es[..i])] == regions[Available(es[..i])];
    }
  }

  /** Of a written memory map without a partial entry the kernel reads exactly the entries. */
  lemma KernelReads(m: seq<Byte>, at: nat, t: Tag, step: nat, es: seq<Entry>)
    requires TagStands(m, at, t) && GivesMap(t, step, es) && Multiboot2Kernel.TagInMemory(m, at)
    requires Multiboot2Kernel.Whole(m, at)
    ensures Multiboot2Kernel.ReadTag(m, at) == es
  {
    MapReadsBack(m, at, t, step, es);
    Multiboot2Kernel.TagsAgreeIff(m, at);
  }
}
