/**
 The bounded inventory of the Multiboot2 information, which trusts nothing: every tag it accepts lies inside the
 declared bytes. Layout follows section 3.6 of the Multiboot2 Specification.
 */
module Multiboot2 {
  import opened Words
  import opened BootBytes

  const TAG_HDR: nat := 8
  const TOTAL_MIN: nat := 16
  const TOTAL_MAX: nat := 0x40_0000
  const TAGS_MAX: nat := 256
  const MMAP_HDR: nat := 16
  const ENTRY_MIN: nat := 24
  const ENTRY_READ: nat := 20
  const ENTRY_CAP: nat := 512
  const TAG_END: nat := 0
  const TAG_BASIC_MEM: nat := 4
  const TAG_MMAP: nat := 6
  const TAG_FRAMEBUFFER: nat := 8
  const TAG_LOAD_BASE: nat := 21
  const AVAILABLE: nat := 1

  function Type(b: seq<Byte>, off: nat): nat
    requires off + TAG_HDR <= |b|
  {
    U32At(b, off)
  }

  function Size(b: seq<Byte>, off: nat): nat
    requires off + TAG_HDR <= |b|
  {
    U32At(b, off + 4)
  }

  /** `(n + 7) & ~7` on a 32-bit word. */
  function Round8(n: nat): nat {
    (n + 7) % U32_LIMIT / 8 * 8
  }

  lemma RoundsUp(n: nat)
    requires n <= TOTAL_MAX
    ensures n <= Round8(n) < n + 8 && Round8(n) % 8 == 0
  {
    var m := n + 7;
    var q, r := m / 8, m % 8;
    assert m == 8 * q + r;
    assert m % U32_LIMIT == m;
    assert Round8(n) == q * 8 == m - r;
  }

  // ---- What the bounded walk visits.

  datatype Ending = AtEnd | BadSize | Overrun | CapHit

  datatype Walk = Walk(tags: seq<nat>, ending: Ending)

  /** Every tag lies inside the buffer with its whole declared size. */
  ghost predicate InBuffer(b: seq<Byte>, tags: seq<nat>) {
    forall i :: 0 <= i < |tags| ==> tags[i] + TAG_HDR <= |b| && tags[i] + Size(b, tags[i]) <= |b|
  }

  /** The tags accepted from an offset on, at most `left` of them, and why the walk stops. */
  function WalkFrom(b: seq<Byte>, off: nat, left: nat): (w: Walk)
    ensures InBuffer(b, w.tags)
    decreases left
  {
    if left == 0 then Walk([], CapHit)
    else if off + TAG_HDR > |b| then Walk([], Overrun)
    else if Type(b, off) == TAG_END then Walk([], AtEnd)
    else if Size(b, off) < TAG_HDR then Walk([], BadSize)
    else if off + Size(b, off) > |b| then Walk([], Overrun)
    else if off + Round8(Size(b, off)) > |b| then Walk([off], Overrun)
    else
      var w := WalkFrom(b, off + Round8(Size(b, off)), left - 1);
      Walk([off] + w.tags, w.ending)
  }

  // ---- Memory-map entries.

  datatype Entry = Entry(addr: nat, len: nat, typ: nat)

  /** Address, length and type; the last word of an entry is never read. */
  function EntryAt(b: seq<Byte>, pos: nat): Entry
    requires pos + ENTRY_READ <= |b|
  {
    Entry(U64At(b, pos), U64At(b, pos + 8), U32At(b, pos + 16))
  }

  /** The whole entries between two offsets. */
  function Entries(b: seq<Byte>, pos: nat, end: nat, step: nat): seq<Entry>
    requires end <= |b| && step >= ENTRY_MIN
    decreases end - pos
  {
    if pos + ENTRY_MIN <= end then [EntryAt(b, pos)] + Entries(b, pos + step, end, step) else []
  }

  lemma TakeSplit<T>(seen: seq<T>, rest: seq<T>, n: nat)
    requires |seen| <= n && (rest == [] || |seen| == n)
    ensures Take(seen + rest, n) == seen
  {
  }

  /** `seen` and the entries from `pos` on are all of them. */
  ghost predicate SeenTo(all: seq<Entry>, seen: seq<Entry>, b: seq<Byte>, pos: nat, end: nat, step: nat)
    requires end <= |b| && step >= ENTRY_MIN
  {
    all == seen + Entries(b, pos, end, step)
  }

  lemma Shift<T>(a: seq<T>, x: T, rest: seq<T>)
    ensures a + ([x] + rest) == a + [x] + rest
  {
  }

  lemma {:induction false} SeenNext(all: seq<Entry>, seen: seq<Entry>, b: seq<Byte>, pos: nat, end: nat, step: nat,
                                    pos': nat, e: Entry)
    requires end <= |b| && step >= ENTRY_MIN && pos + ENTRY_MIN <= end && SeenTo(all, seen, b, pos, end, step)
    requires pos' == pos + step && e == EntryAt(b, pos)
    ensures SeenTo(all, seen + [e], b, pos', end, step)
  {
    Shift(seen, e, Entries(b, pos', end, step));
  }

  /** A tag's entries, none if its header or its entry size is too small. */
  function TagEntries(b: seq<Byte>, tag: nat): seq<Entry>
    requires tag + TAG_HDR <= |b|
  {
    if Size(b, tag) < MMAP_HDR || tag + Size(b, tag) > |b| || U32At(b, tag + 8) < ENTRY_MIN then []
    else Entries(b, tag + MMAP_HDR, tag + Size(b, tag), U32At(b, tag + 8))
  }

  /** Lengths of the available entries, added as 64-bit words. */
  function AvailBytes(es: seq<Entry>): (n: nat) {
    if es == [] then 0
    else
      var n, e := AvailBytes(es[..|es| - 1]), es[|es| - 1];
      if e.typ == AVAILABLE && e.len != 0 then Add64(n, e.len) else n
  }

  function TotalBytes(es: seq<Entry>): (n: nat) {
    if es == [] then 0
    else
      var n, e := TotalBytes(es[..|es| - 1]), es[|es| - 1];
      if e.len != 0 then Add64(n, e.len) else n
  }

  function AvailEntries(es: seq<Entry>): (n: nat) {
    if es == [] then 0
    else
      var n, e := AvailEntries(es[..|es| - 1]), es[|es| - 1];
      if e.typ == AVAILABLE && e.len != 0 then n + 1 else n
  }

  datatype Mmap = Mmap(entries: nat, avail: nat, reserved: nat, availBytes: nat, totalBytes: nat)

  /** The totals of a list of entries. */
  ghost predicate Totals(m: Mmap, es: seq<Entry>) {
    && m.entries == |es| == m.avail + m.reserved && m.avail == AvailEntries(es)
    && m.availBytes == AvailBytes(es) && m.totalBytes == TotalBytes(es)
  }

  method AddEntry(m: Mmap, e: Entry, ghost es: seq<Entry>) returns (r: Mmap)
    requires Totals(m, es)
    ensures Totals(r, es + [e])
  {
    assert (es + [e])[..|es|] == es;
    r := m.(entries := m.entries + 1);
    if e.len != 0 {
      r := r.(totalBytes := Add64(r.totalBytes, e.len));
    }
    if e.typ == AVAILABLE && e.len != 0 {
      r := r.(avail := r.avail + 1, availBytes := Add64(r.availBytes, e.len));
    } else {
      r := r.(reserved := r.reserved + 1);
    }
  }

  /** `boot_mb2_soft_mmap_classify`: the first 512 entries that lie whole inside the tag. */
  method Classify(b: seq<Byte>, tag: nat) returns (m: Mmap, bad: bool)
    requires tag + TAG_HDR <= |b| && tag + Size(b, tag) <= |b|
    ensures Totals(m, Take(TagEntries(b, tag), ENTRY_CAP))
    ensures bad <==> BadMmap(b, tag)
  {
    m, bad := Mmap(0, 0, 0, 0, 0), true;
    if Size(b, tag) < MMAP_HDR {
      return;
    }
    var step := U32At(b, tag + 8);
    if step < ENTRY_MIN {
      return;
    }
    bad := false;
    m := ClassifyEntries(b, tag + MMAP_HDR, tag + Size(b, tag), step);
  }

  method ClassifyEntries(b: seq<Byte>, start: nat, end: nat, step: nat) returns (m: Mmap)
    requires end <= |b| && step >= ENTRY_MIN
    ensures Totals(m, Take(Entries(b, start, end, step), ENTRY_CAP))
  {
    m := Mmap(0, 0, 0, 0, 0);
    var pos := start;
    ghost var all, seen := Entries(b, start, end, step), [];
    while pos + ENTRY_MIN <= end && m.entries < ENTRY_CAP
      invariant SeenTo(all, seen, b, pos, end, step)
      invariant Totals(m, seen) && |seen| <= ENTRY_CAP
      decreases end - pos
    {
      var e, next := EntryAt(b, pos), pos + step;
      m := AddEntry(m, e, seen);
      SeenNext(all, seen, b, pos, end, step, next, e);
      seen, pos := seen + [e], next;
    }
    TakeSplit(seen, Entries(b, pos, end, step), ENTRY_CAP);
  }

  // ---- The inventory.

  const CLASSES: nat := 23
  const OTHER: nat := 22

  /** The counter a tag type falls under: the two EFI image-handle types share one, unknown types another. */
  function ClassOf(typ: nat): (c: nat)
    ensures c < CLASSES
  {
    if typ == 20 then 19 else if 1 <= typ <= 21 then typ else OTHER
  }

  function Sum(s: seq<nat>): (n: nat) {
    if s == [] then 0 else Sum(s[..|s| - 1]) + s[|s| - 1]
  }

  lemma {:induction false} SumInc(s: seq<nat>, i: nat)
    requires i < |s|
    ensures Sum(s[i := s[i] + 1]) == Sum(s) + 1
    decreases |s|
  {
    var t := s[i := s[i] + 1];
    if i == |s| - 1 {
      assert t[..|t| - 1] == s[..|s| - 1];
    } else {
      SumInc(s[..|s| - 1], i);
      assert t[..|t| - 1] == s[..|s| - 1][i := s[i] + 1];
    }
  }

  function Count(b: seq<Byte>, tags: seq<nat>, c: nat): (n: nat)
    requires InBuffer(b, tags)
  {
    if tags == [] then 0
    else
      var last := tags[|tags| - 1];
      Count(b, tags[..|tags| - 1], c) + if ClassOf(Type(b, last)) == c then 1 else 0
  }

  /** The entries of the first memory-map tag; later ones are only counted. */
  function FirstMmap(b: seq<Byte>, tags: seq<nat>): (es: seq<Entry>)
    requires InBuffer(b, tags)
  {
    if tags == [] then []
    else
      var front, last := tags[..|tags| - 1], tags[|tags| - 1];
      if Count(b, front, TAG_MMAP) == 0 && Type(b, last) == TAG_MMAP then Take(TagEntries(b, last), ENTRY_CAP)
      else FirstMmap(b, front)
  }

  /** The header of a memory-map tag, or its entry size, is too small. */
  predicate BadMmap(b: seq<Byte>, tag: nat)
    requires tag + TAG_HDR <= |b| && tag + Size(b, tag) <= |b|
  {
    Size(b, tag) < MMAP_HDR || U32At(b, tag + 8) < ENTRY_MIN
  }

  /** Only the first memory map is looked into, and counted here if it is bad. */
  function BadMmaps(b: seq<Byte>, tags: seq<nat>): nat
    requires InBuffer(b, tags)
  {
    if tags == [] then 0
    else
      var front, last := tags[..|tags| - 1], tags[|tags| - 1];
      if Count(b, front, TAG_MMAP) == 0 && Type(b, last) == TAG_MMAP then if BadMmap(b, last) then 1 else 0
      else BadMmaps(b, front)
  }

  // ---- Values copied out of tags.

  datatype Framebuffer = Framebuffer(addr: nat, pitch: nat, width: nat, height: nat, bpp: nat, kind: nat)

  datatype Captures = Captures(memLower: nat, memUpper: nat, fb: Framebuffer, loadBase: nat)

  const NO_CAPTURES := Captures(0, 0, Framebuffer(0, 0, 0, 0, 0, 0), 0)

  function FramebufferAt(b: seq<Byte>, tag: nat): Framebuffer
    requires tag + 32 <= |b|
  {
    Framebuffer(U64At(b, tag + 8), U32At(b, tag + 16), U32At(b, tag + 20), U32At(b, tag + 24), b[tag + 28], b[tag + 29])
  }

  /** What one tag adds: each value is copied while it is still zero, from a tag large enough to hold it. */
  function Capture(b: seq<Byte>, tag: nat, c: Captures): Captures
    requires tag + TAG_HDR <= |b| && tag + Size(b, tag) <= |b|
  {
    if Type(b, tag) == TAG_BASIC_MEM && Size(b, tag) >= 16 && c.memLower == 0 && c.memUpper == 0 then
      c.(memLower := U32At(b, tag + 8), memUpper := U32At(b, tag + 12))
    else if Type(b, tag) == TAG_FRAMEBUFFER && Size(b, tag) >= 32 && c.fb.addr == 0 then
      c.(fb := FramebufferAt(b, tag))
    else if Type(b, tag) == TAG_LOAD_BASE && Size(b, tag) >= 12 && c.loadBase == 0 then
      c.(loadBase := U32At(b, tag + 8))
    else c
  }

  function Captured(b: seq<Byte>, tags: seq<nat>): Captures
    requires InBuffer(b, tags)
  {
    if tags == [] then NO_CAPTURES else Capture(b, tags[|tags| - 1], Captured(b, tags[..|tags| - 1]))
  }

  ghost predicate IsLoadBase(b: seq<Byte>, tag: nat, v: nat) {
    && tag + TAG_HDR <= |b| && Type(b, tag) == TAG_LOAD_BASE && Size(b, tag) >= 12 && tag + Size(b, tag) <= |b|
    && v == U32At(b, tag + 8)
  }

  /** The load base reported is that of the first tag that has one, and zero when none does. */
  lemma {:induction false} FirstLoadBase(b: seq<Byte>, tags: seq<nat>, k: nat, v: nat)
    requires InBuffer(b, tags) && k < |tags| && IsLoadBase(b, tags[k], v) && v != 0
    requires forall j, u :: 0 <= j < k && IsLoadBase(b, tags[j], u) ==> u == 0
    ensures Captured(b, tags).loadBase == v
    decreases |tags|
  {
    if k == |tags| - 1 {
      NoLoadBase(b, tags[..k]);
    } else {
      FirstLoadBase(b, tags[..|tags| - 1], k, v);
    }
  }

  lemma {:induction false} NoLoadBase(b: seq<Byte>, tags: seq<nat>)
    requires InBuffer(b, tags) && forall j, u :: 0 <= j < |tags| && IsLoadBase(b, tags[j], u) ==> u == 0
    ensures Captured(b, tags).loadBase == 0
    decreases |tags|
  {
    if tags == [] {
    } else {
      var last := tags[|tags| - 1];
      NoLoadBase(b, tags[..|tags| - 1]);
      assert Type(b, last) == TAG_LOAD_BASE && Size(b, last) >= 12 ==> IsLoadBase(b, last, U32At(b, last + 8));
    }
  }

  datatype Inventory = Inventory(present: bool, ok: bool, partial: bool, reject: bool, total: nat, tags: nat, ends: nat,
                                 counts: seq<nat>, badSize: nat, overrun: nat, capHit: bool, mmap: Mmap,
                                 captures: Captures)

  /** The counters describe the tags visited. */
  ghost predicate Tallied(inv: Inventory, b: seq<Byte>, tags: seq<nat>) {
    && InBuffer(b, tags) && |inv.counts| == CLASSES
    && inv.tags == |tags| + inv.ends && Sum(inv.counts) == |tags|
    && (forall c :: 0 <= c < CLASSES ==> inv.counts[c] == Count(b, tags, c))
    && Totals(inv.mmap, FirstMmap(b, tags)) && inv.captures == Captured(b, tags)
  }

  lemma {:induction false} SnocTag(b: seq<Byte>, tags: seq<nat>, off: nat)
    requires InBuffer(b, tags) && off + TAG_HDR <= |b| && off + Size(b, off) <= |b|
    ensures InBuffer(b, tags + [off])
    ensures Captured(b, tags + [off]) == Capture(b, off, Captured(b, tags))
    ensures forall c :: Count(b, tags + [off], c) == Count(b, tags, c) + if ClassOf(Type(b, off)) == c then 1 else 0
    ensures FirstMmap(b, tags + [off]) ==
            if Count(b, tags, TAG_MMAP) == 0 && Type(b, off) == TAG_MMAP then Take(TagEntries(b, off), ENTRY_CAP)
            else FirstMmap(b, tags)
    ensures BadMmaps(b, tags + [off]) ==
            if Count(b, tags, TAG_MMAP) == 0 && Type(b, off) == TAG_MMAP then if BadMmap(b, off) then 1 else 0
            else BadMmaps(b, tags)
  {
    assert (tags + [off])[..|tags|] == tags && (tags + [off])[|tags|] == off;
  }

  lemma {:induction false} NoMmapNoBad(b: seq<Byte>, tags: seq<nat>)
    requires InBuffer(b, tags)
    ensures Count(b, tags, TAG_MMAP) == 0 ==> BadMmaps(b, tags) == 0
    decreases |tags|
  {
    if tags == [] {
    } else {
      NoMmapNoBad(b, tags[..|tags| - 1]);
    }
  }

  lemma {:induction false} TalliedNext(inv: Inventory, r: Inventory, b: seq<Byte>, tags: seq<nat>, off: nat, c: nat)
    requires Tallied(inv, b, tags) && off + TAG_HDR <= |b| && off + Size(b, off) <= |b| && c == ClassOf(Type(b, off))
    requires r == inv.(tags := inv.tags + 1, counts := inv.counts[c := inv.counts[c] + 1],
                       mmap := r.mmap, badSize := r.badSize, captures := Capture(b, off, inv.captures))
    requires Totals(r.mmap, if Type(b, off) == TAG_MMAP && inv.counts[TAG_MMAP] == 0
                            then Take(TagEntries(b, off), ENTRY_CAP) else FirstMmap(b, tags))
    requires inv.badSize == BadMmaps(b, tags)
    requires r.badSize == inv.badSize + if Type(b, off) == TAG_MMAP && inv.counts[TAG_MMAP] == 0 && BadMmap(b, off)
                                        then 1 else 0
    ensures Tallied(r, b, tags + [off]) && r.badSize == BadMmaps(b, tags + [off])
  {
    SumInc(inv.counts, c);
    SnocTag(b, tags, off);
    assert inv.counts[TAG_MMAP] == Count(b, tags, TAG_MMAP);
    NoMmapNoBad(b, tags);
  }

  /** Count one tag, total the entries of the first memory map, and copy values out. */
  method Accept(inv: Inventory, b: seq<Byte>, off: nat, ghost tags: seq<nat>) returns (r: Inventory)
    requires Tallied(inv, b, tags) && off + TAG_HDR <= |b| && off + Size(b, off) <= |b|
    requires inv.badSize == BadMmaps(b, tags)
    ensures Tallied(r, b, tags + [off]) && r.badSize == BadMmaps(b, tags + [off])
    ensures r == inv.(tags := r.tags, counts := r.counts, mmap := r.mmap, badSize := r.badSize, captures := r.captures)
  {
    var c := ClassOf(Type(b, off));
    var counts := inv.counts[c := inv.counts[c] + 1];
    var m, bad := inv.mmap, false;
    if Type(b, off) == TAG_MMAP && counts[TAG_MMAP] == 1 {
      m, bad := Classify(b, off);
    }
    r := inv.(tags := inv.tags + 1, counts := counts, mmap := m,
              badSize := if bad then inv.badSize + 1 else inv.badSize, captures := Capture(b, off, inv.captures));
    TalliedNext(inv, r, b, tags, off, c);
  }

  /** The whole walk is the tags visited and then the walk from here. */
  ghost predicate OnWalk(w: Walk, tags: seq<nat>, b: seq<Byte>, off: nat, left: nat) {
    w == Walk(tags + WalkFrom(b, off, left).tags, WalkFrom(b, off, left).ending)
  }

  lemma {:induction false} NextTag(w: Walk, tags: seq<nat>, b: seq<Byte>, off: nat, left: nat, off': nat, left': nat)
    requires OnWalk(w, tags, b, off, left) && left' + 1 == left && off + TAG_HDR <= |b| && Type(b, off) != TAG_END
    requires TAG_HDR <= Size(b, off) && off' == off + Round8(Size(b, off)) <= |b| && off + Size(b, off) <= |b|
    ensures OnWalk(w, tags + [off], b, off', left')
  {
    Shift(tags, off, WalkFrom(b, off', left').tags);
  }

  /** The inventory reports a walk: its counters, and exactly one of ok and partial. */
  ghost predicate Reports(inv: Inventory, b: seq<Byte>, w: Walk) {
    && inv.present && !inv.reject
    && Tallied(inv, b, w.tags)
    && inv.ok == (w.ending == AtEnd) && inv.partial == !inv.ok && inv.ends == (if inv.ok then 1 else 0)
    && inv.capHit == (w.ending == CapHit) && inv.overrun == (if w.ending == Overrun then 1 else 0)
    && inv.badSize == BadMmaps(b, w.tags) + if w.ending == BadSize then 1 else 0
  }

  const EMPTY := Inventory(false, false, false, false, 0, 0, 0, seq(CLASSES, i => 0), 0, 0, false, Mmap(0, 0, 0, 0, 0),
                         NO_CAPTURES)

  lemma {:induction false} SumZeros(s: seq<nat>)
    requires forall i :: 0 <= i < |s| ==> s[i] == 0
    ensures Sum(s) == 0
    decreases |s|
  {
    if s == [] {
    } else {
      SumZeros(s[..|s| - 1]);
    }
  }

  /** Where the walk stops, and why. */
  lemma {:induction false} Stops(w: Walk, tags: seq<nat>, b: seq<Byte>, off: nat, left: nat)
    requires OnWalk(w, tags, b, off, left) && left > 0
    ensures off + TAG_HDR > |b| ==> w == Walk(tags, Overrun)
    ensures off + TAG_HDR <= |b| ==> StopsAt(w, tags, b, off)
  {
    assert tags + [] == tags;
  }

  /** The same for a header that can be read. */
  ghost predicate StopsAt(w: Walk, tags: seq<nat>, b: seq<Byte>, off: nat)
    requires off + TAG_HDR <= |b|
  {
    && (Type(b, off) == TAG_END ==> w == Walk(tags, AtEnd))
    && (Type(b, off) != TAG_END && Size(b, off) < TAG_HDR ==> w == Walk(tags, BadSize))
    && (Type(b, off) != TAG_END && TAG_HDR <= Size(b, off) ==>
          && (off + Size(b, off) > |b| ==> w == Walk(tags, Overrun))
          && (off + Size(b, off) <= |b| < off + Round8(Size(b, off)) ==> w == Walk(tags + [off], Overrun)))
  }

  /** An inventory still in the making: no verdict yet. */
  ghost predicate Counting(inv: Inventory, total: nat) {
    && inv.present && !inv.reject && !inv.ok && !inv.partial && inv.total == total
    && inv.ends == 0 && inv.overrun == 0 && !inv.capHit
  }

  /** One header: the walk ends there, or goes on at the next one. */
  method TakeTag(start: Inventory, b: seq<Byte>, off: nat, left: nat, ghost w: Walk, ghost tags: seq<nat>)
    returns (inv: Inventory, done: bool, next: nat, left': nat, ghost seen: seq<nat>)
    requires |b| <= TOTAL_MAX && OnWalk(w, tags, b, off, left) && left > 0
    requires Tallied(start, b, tags) && Counting(start, |b|) && start.badSize == BadMmaps(b, tags)
    ensures done ==> Reports(inv, b, w) && inv.total == |b|
    ensures left == left' + 1 && seen == tags + [off]
    ensures !done ==> OnWalk(w, seen, b, next, left') && Tallied(inv, b, seen) && Counting(inv, |b|)
    ensures !done ==> inv.badSize == BadMmaps(b, seen)
  {
    Stops(w, tags, b, off, left);
    inv, done, next, left', seen := start, true, off, left - 1, tags + [off];
    if off + TAG_HDR > |b| {
      inv := inv.(overrun := 1, partial := true);
    } else if Type(b, off) == TAG_END {
      inv := inv.(ends := 1, tags := inv.tags + 1, ok := true);
    } else if Size(b, off) < TAG_HDR {
      inv := inv.(badSize := inv.badSize + 1, partial := true);
    } else if off + Size(b, off) > |b| {
      inv := inv.(overrun := 1, partial := true);
    } else {
      inv := Accept(inv, b, off, tags);
      next := off + Round8(Size(b, off));
      RoundsUp(Size(b, off));
      if next <= off || next > |b| {
        inv := inv.(overrun := 1, partial := true);
      } else {
        done := false;
        NextTag(w, tags, b, off, left, next, left');
      }
    }
  }

  lemma NothingTallied(inv: Inventory, b: seq<Byte>, w: Walk, tags: seq<nat>, cap: nat)
    requires inv == EMPTY.(present := true, total := |b|) && w == WalkFrom(b, TAG_HDR, cap) && tags == []
    ensures OnWalk(w, tags, b, TAG_HDR, cap) && Tallied(inv, b, tags) && Counting(inv, |b|)
    ensures inv.badSize == BadMmaps(b, tags)
  {
    SumZeros(inv.counts);
    assert [] + w.tags == w.tags;
  }

  lemma CapReached(w: Walk, tags: seq<nat>, b: seq<Byte>, off: nat, left: nat)
    requires OnWalk(w, tags, b, off, left) && left == 0
    ensures w == Walk(tags, CapHit)
  {
    assert tags + [] == tags;
  }

  /** The tag loop over the declared bytes. Every read is inside them. */
  method WalkTags(start: Inventory, b: seq<Byte>, cap: nat) returns (inv: Inventory)
    requires TOTAL_MIN <= |b| <= TOTAL_MAX && start == EMPTY.(present := true, total := |b|)
    ensures Reports(inv, b, WalkFrom(b, TAG_HDR, cap)) && inv.total == |b|
  {
    ghost var w, tags: seq<nat> := WalkFrom(b, TAG_HDR, cap), [];
    var off: nat, left: nat := TAG_HDR, cap;
    inv := start;
    NothingTallied(inv, b, w, tags, cap);
    while left > 0
      invariant OnWalk(w, tags, b, off, left)
      invariant Tallied(inv, b, tags) && Counting(inv, |b|) && inv.badSize == BadMmaps(b, tags)
    {
      var done, next;
      inv, done, next, left, tags := TakeTag(inv, b, off, left, w, tags);
      if done {
        return;
      }
      off := next;
    }
    CapReached(w, tags, b, off, left);
    inv := inv.(partial := true, capHit := true);
  }

  /** `boot_info_soft_mb2_inventory`; `phys` is zero when no information was handed over. */
  method TakeInventory(phys: nat, mem: seq<Byte>) returns (inv: Inventory)
    requires |mem| >= 4 && (TOTAL_MIN <= U32At(mem, 0) <= TOTAL_MAX ==> U32At(mem, 0) <= |mem|)
    ensures inv.present <==> phys != 0
    ensures inv.reject <==> phys != 0 && !(TOTAL_MIN <= U32At(mem, 0) <= TOTAL_MAX)
    ensures inv.present && !inv.reject ==>
              inv.total == U32At(mem, 0) && inv.total <= |mem| &&
              Reports(inv, mem[..inv.total], WalkFrom(mem[..inv.total], TAG_HDR, TAGS_MAX))
    ensures !inv.present || inv.reject ==> !inv.ok && !inv.partial && inv.tags == 0
  {
    inv := EMPTY;
    if phys == 0 {
      return;
    }
    var total := U32At(mem, 0);
    inv := inv.(present := true, total := total);
    if total < TOTAL_MIN || total > TOTAL_MAX {
      inv := inv.(reject := true);
      return;
    }
    inv := WalkTags(inv, mem[..total], TAGS_MAX);
  }
}
