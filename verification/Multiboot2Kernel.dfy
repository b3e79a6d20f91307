/**
 The kernel entry point's own walk over the Multiboot2 information. It trusts the information: it stops only
 at the end tag, steps through memory-map entries while any byte is left, and checks no bound. Memory `m`
 starts at the information and goes on behind its `total` declared bytes.
 */
module Multiboot2Kernel {
  import opened Words
  import opened BootBytes
  import opened Multiboot2

  // ---- The loops as steps.

  /** Where the walk stands: at a tag, at an entry of a memory-map tag, at the end tag, or past the memory. */
  datatype At = Tag(off: nat) | InTag(tag: nat, pos: nat) | Stopped | Faulted

  function Next(m: seq<Byte>, a: At): At {
    match a
    case Tag(off) =>
      if off + TAG_HDR > |m| then Faulted
      else if Type(m, off) == TAG_END then Stopped
      else if Type(m, off) == TAG_MMAP then InTag(off, off + MMAP_HDR)
      else Tag(off + Round8(Size(m, off)))
    case InTag(tag, pos) =>
      if tag + TAG_HDR > |m| then Faulted
      else if pos >= tag + Size(m, tag) then Tag(tag + Round8(Size(m, tag)))
      else if pos + ENTRY_READ > |m| || tag + 12 > |m| then Faulted
      else InTag(tag, pos + U32At(m, tag + 8))
    case _ => a
  }

  function After(m: seq<Byte>, a: At, n: nat): At
    decreases n
  {
    if n == 0 then a else After(m, Next(m, a), n - 1)
  }

  /** The walk from here reaches the end tag. */
  ghost predicate Halts(m: seq<Byte>, a: At) {
    exists n: nat :: After(m, a, n) == Stopped
  }

  lemma HaltsNext(m: seq<Byte>, a: At)
    ensures Halts(m, a) <==> Halts(m, Next(m, a))
  {
    if Halts(m, a) {
      var n: nat :| After(m, a, n) == Stopped;
      assert After(m, Next(m, a), if n == 0 then 0 else n - 1) == Stopped;
    }
    if Halts(m, Next(m, a)) {
      var n: nat :| After(m, Next(m, a), n) == Stopped;
      assert After(m, a, n + 1) == Stopped;
    }
  }

  lemma {:induction false} AfterFixed(m: seq<Byte>, a: At, n: nat)
    requires Next(m, a) == a
    ensures After(m, a, n) == a
    decreases n
  {
    if n == 0 {
    } else {
      AfterFixed(m, a, n - 1);
    }
  }

  /** The entry loop over a memory-map tag ends: there is nothing to read, or each step moves on. */
  predicate Finite(m: seq<Byte>, tag: nat)
    requires tag + TAG_HDR <= |m|
  {
    Size(m, tag) <= MMAP_HDR || (tag + 12 <= |m| && U32At(m, tag + 8) != 0)
  }

  lemma {:induction false} EntriesHaltIff(m: seq<Byte>, tag: nat, pos: nat)
    requires tag + TAG_HDR <= |m| && tag + Size(m, tag) + ENTRY_READ <= |m| + 1 && tag + MMAP_HDR <= pos
    requires pos < tag + Size(m, tag) ==> U32At(m, tag + 8) != 0
    ensures Halts(m, InTag(tag, pos)) <==> Halts(m, Tag(tag + Round8(Size(m, tag))))
    decreases tag + Size(m, tag) - pos
  {
    HaltsNext(m, InTag(tag, pos));
    if pos >= tag + Size(m, tag) {
    } else {
      EntriesHaltIff(m, tag, pos + U32At(m, tag + 8));
    }
  }

  /** An entry size of zero never moves on. */
  lemma EntriesStuck(m: seq<Byte>, tag: nat, pos: nat)
    requires tag + 12 <= |m| && pos < tag + Size(m, tag) && pos + ENTRY_READ <= |m| && U32At(m, tag + 8) == 0
    ensures !Halts(m, InTag(tag, pos))
  {
    forall n: nat
      ensures After(m, InTag(tag, pos), n) != Stopped
    {
      AfterFixed(m, InTag(tag, pos), n);
    }
  }

  // ---- Tags inside the declared bytes.

  /** Fields inside the declared bytes are the fields in memory. */
  lemma SameHeader(m: seq<Byte>, total: nat, off: nat)
    requires off + TAG_HDR <= total <= |m|
    ensures Type(m[..total], off) == Type(m, off) && Size(m[..total], off) == Size(m, off)
  {
  }

  ghost predicate AllFinite(m: seq<Byte>, tags: seq<nat>) {
    forall i :: 0 <= i < |tags| ==>
      tags[i] + TAG_HDR <= |m| && (Type(m, tags[i]) == TAG_MMAP ==> Finite(m, tags[i]))
  }

  lemma AllFiniteCons(m: seq<Byte>, tag: nat, rest: seq<nat>)
    requires tag + TAG_HDR <= |m|
    ensures AllFinite(m, [tag] + rest) <==> (Type(m, tag) == TAG_MMAP ==> Finite(m, tag)) && AllFinite(m, rest)
  {
    var all := [tag] + rest;
    assert all[0] == tag && forall i :: 0 <= i < |rest| ==> all[i + 1] == rest[i];
    if AllFinite(m, all) {
      forall i | 0 <= i < |rest|
        ensures rest[i] + TAG_HDR <= |m| && (Type(m, rest[i]) == TAG_MMAP ==> Finite(m, rest[i]))
      {
        assert all[i + 1] == rest[i];
      }
    }
  }

  /**
   Where the bounded walk ends at the end tag, the kernel's walk from the same place reaches it if and only if
   no memory-map tag ahead has entries of size zero.
   */
  lemma KernelHaltsIff(m: seq<Byte>, total: nat, off: nat, left: nat)
    requires total <= TOTAL_MAX && total + 11 <= |m| && WalkFrom(m[..total], off, left).ending == AtEnd
    ensures Halts(m, Tag(off)) <==> AllFinite(m, WalkFrom(m[..total], off, left).tags)
  {
    WalkHaltsIff(m, m[..total], off, left, WalkFrom(m[..total], off, left));
  }

  /** A walk that ends at the end tag, and is not there yet, has a whole tag here and goes on behind it. */
  lemma WalkAhead(b: seq<Byte>, off: nat, left: nat, w: Walk) returns (next: nat, rest: Walk)
    requires w == WalkFrom(b, off, left) && w.ending == AtEnd && Type(b, off) != TAG_END && |b| <= TOTAL_MAX
    ensures left > 0 && off + TAG_HDR <= |b| && next == off + Round8(Size(b, off))
    ensures off + Size(b, off) <= next && next + TAG_HDR <= |b|
    ensures rest == WalkFrom(b, next, left - 1) && rest.ending == AtEnd && w.tags == [off] + rest.tags
  {
    RoundsUp(Size(b, off));
    next := off + Round8(Size(b, off));
    rest := WalkFrom(b, next, left - 1);
  }

  lemma HeaderInPrefix(m: seq<Byte>, b: seq<Byte>, off: nat)
    requires b <= m && off + TAG_HDR <= |b|
    ensures Type(m, off) == Type(b, off) && Size(m, off) == Size(b, off)
  {
    WordInPrefix(m, b, off);
    WordInPrefix(m, b, off + 4);
  }

  lemma AtEndTag(m: seq<Byte>, b: seq<Byte>, off: nat, left: nat, w: Walk)
    requires b <= m && w == WalkFrom(b, off, left) && w.ending == AtEnd
    ensures off + TAG_HDR <= |b| && Type(m, off) == Type(b, off) && Size(m, off) == Size(b, off)
    ensures Type(b, off) == TAG_END ==> Halts(m, Tag(off)) && w.tags == []
  {
    HeaderInPrefix(m, b, off);
    if Type(b, off) == TAG_END {
      assert After(m, Tag(off), 1) == Stopped;
    }
  }

  lemma {:induction false} WalkHaltsIff(m: seq<Byte>, b: seq<Byte>, off: nat, left: nat, w: Walk)
    requires b <= m && |b| <= TOTAL_MAX && |b| + 11 <= |m| && w == WalkFrom(b, off, left) && w.ending == AtEnd
    ensures Halts(m, Tag(off)) <==> AllFinite(m, w.tags)
    decreases left
  {
    AtEndTag(m, b, off, left, w);
    if Type(b, off) == TAG_END {
    } else {
      var next, rest := WalkAhead(b, off, left, w);
      WalkHaltsIff(m, b, next, left - 1, rest);
      AllFiniteCons(m, off, rest.tags);
      TagStepHaltsIff(m, off, next);
    }
  }

  /** One tag of the kernel's walk: a memory map has to be finite, any other tag is passed over. */
  lemma TagStepHaltsIff(m: seq<Byte>, tag: nat, next: nat)
    requires tag + TAG_HDR <= |m| && tag + Size(m, tag) + ENTRY_READ <= |m| + 1 && Type(m, tag) != TAG_END
    requires next == tag + Round8(Size(m, tag))
    ensures Halts(m, Tag(tag)) <==> (Type(m, tag) == TAG_MMAP ==> Finite(m, tag)) && Halts(m, Tag(next))
  {
    HaltsNext(m, Tag(tag));
    if Type(m, tag) == TAG_MMAP {
      TagHaltsIff(m, tag);
    }
  }

  lemma TagHaltsIff(m: seq<Byte>, tag: nat)
    requires tag + TAG_HDR <= |m| && tag + Size(m, tag) + ENTRY_READ <= |m| + 1
    ensures Halts(m, InTag(tag, tag + MMAP_HDR)) <==> Finite(m, tag) && Halts(m, Tag(tag + Round8(Size(m, tag))))
  {
    if Finite(m, tag) {
      EntriesHaltIff(m, tag, tag + MMAP_HDR);
    } else {
      EntriesStuck(m, tag, tag + MMAP_HDR);
    }
  }

  // ---- What the kernel reads.

  /** The entries the kernel reads between two offsets: it goes on while any byte is left. */
  function ReadEntries(m: seq<Byte>, pos: nat, end: nat, step: nat): seq<Entry>
    requires end + ENTRY_READ <= |m| + 1 && step > 0
    decreases end - pos
  {
    if pos < end then [EntryAt(m, pos)] + ReadEntries(m, pos + step, end, step) else []
  }

  ghost predicate TagInMemory(m: seq<Byte>, tag: nat) {
    tag + TAG_HDR <= |m| && tag + Size(m, tag) + ENTRY_READ <= |m| + 1 && Finite(m, tag)
  }

  function ReadTag(m: seq<Byte>, tag: nat): seq<Entry>
    requires TagInMemory(m, tag)
  {
    if Size(m, tag) <= MMAP_HDR then [] else ReadEntries(m, tag + MMAP_HDR, tag + Size(m, tag), U32At(m, tag + 8))
  }

  ghost predicate AllInMemory(m: seq<Byte>, tags: seq<nat>) {
    forall i :: 0 <= i < |tags| ==>
      tags[i] + TAG_HDR <= |m| && (Type(m, tags[i]) == TAG_MMAP ==> TagInMemory(m, tags[i]))
  }

  /** The entries the kernel reads from all memory-map tags, in order. */
  function ReadAll(m: seq<Byte>, tags: seq<nat>): (es: seq<Entry>)
    requires AllInMemory(m, tags)
  {
    if tags == [] then []
    else
      var last := tags[|tags| - 1];
      ReadAll(m, tags[..|tags| - 1]) + if Type(m, last) == TAG_MMAP then ReadTag(m, last) else []
  }

  /** The available entries as regions. */
  function Avail(es: seq<Entry>): (rs: seq<Region>) {
    if es == [] then []
    else
      var e := es[|es| - 1];
      Avail(es[..|es| - 1]) + if e.typ == AVAILABLE then [Region(e.addr, e.len)] else []
  }

  /** The table holds the first available entries read. */
  ghost predicate Filled(regions: seq<Region>, n: nat, es: seq<Entry>) {
    n <= |regions| && regions[..n] == Take(Avail(es), |regions|)
  }

  method AddRegion(regions: array<Region>, n: nat, e: Entry, ghost es: seq<Entry>) returns (n': nat)
    requires Filled(regions[..], n, es)
    modifies regions
    ensures Filled(regions[..], n', es + [e])
  {
    assert (es + [e])[..|es|] == es;
    n' := n;
    if e.typ == AVAILABLE && n < regions.Length {
      regions[n] := Region(e.addr, e.len);
      n' := n + 1;
    }
  }

  /** `seen` and the entries from `pos` on are all of them. */
  ghost predicate ReadTo(all: seq<Entry>, seen: seq<Entry>, m: seq<Byte>, pos: nat, end: nat, step: nat)
    requires end + ENTRY_READ <= |m| + 1 && step > 0
  {
    all == seen + ReadEntries(m, pos, end, step)
  }

  lemma {:induction false} ReadNext(all: seq<Entry>, seen: seq<Entry>, m: seq<Byte>, pos: nat, end: nat, step: nat,
                                    pos': nat, e: Entry)
    requires end + ENTRY_READ <= |m| + 1 && step > 0 && pos < end && ReadTo(all, seen, m, pos, end, step)
    requires pos' == pos + step && e == EntryAt(m, pos)
    ensures ReadTo(all, seen + [e], m, pos', end, step)
  {
    Shift(seen, e, ReadEntries(m, pos', end, step));
  }

  /** The entry loop. */
  method AddEntries(m: seq<Byte>, from: nat, end: nat, step: nat, regions: array<Region>, n0: nat, ghost es: seq<Entry>)
    returns (n: nat)
    requires end + ENTRY_READ <= |m| + 1 && step > 0 && Filled(regions[..], n0, es)
    modifies regions
    ensures Filled(regions[..], n, es + ReadEntries(m, from, end, step))
  {
    n := n0;
    var pos := from;
    ghost var all, seen := es + ReadEntries(m, from, end, step), es;
    while pos < end
      invariant ReadTo(all, seen, m, pos, end, step)
      invariant Filled(regions[..], n, seen)
      decreases end - pos
    {
      var e, next := EntryAt(m, pos), pos + step;
      n := AddRegion(regions, n, e, seen);
      ReadNext(all, seen, m, pos, end, step, next, e);
      seen, pos := seen + [e], next;
    }
    assert seen + [] == seen;
  }

  /** The entries of one memory-map tag. */
  method AddTag(m: seq<Byte>, tag: nat, regions: array<Region>, n0: nat, ghost es: seq<Entry>) returns (n: nat)
    requires TagInMemory(m, tag) && Filled(regions[..], n0, es)
    modifies regions
    ensures Filled(regions[..], n, es + ReadTag(m, tag))
  {
    n := n0;
    assert es + [] == es;
    if Size(m, tag) > MMAP_HDR {
      n := AddEntries(m, tag + MMAP_HDR, tag + Size(m, tag), U32At(m, tag + 8), regions, n0, es);
    }
  }

  /** On a walk that reaches the end tag, the current header is declared and its tag was accepted. */
  lemma {:induction false} HeaderAhead(w: Walk, tags: seq<nat>, m: seq<Byte>, total: nat, off: nat, left: nat)
    requires total <= TOTAL_MAX && total + 11 <= |m|
    requires OnWalk(w, tags, m[..total], off, left) && w.ending == AtEnd
    ensures left > 0 && off + TAG_HDR <= total
    ensures Type(m, off) == TAG_END ==> w.tags == tags
    ensures Type(m, off) != TAG_END ==>
              && TAG_HDR <= Size(m, off) && off + Round8(Size(m, off)) + TAG_HDR <= total
              && off + Size(m, off) + ENTRY_READ <= |m| + 1
              && Type(m[..total], off) == Type(m, off) && Size(m[..total], off) == Size(m, off)
              && |tags| < |w.tags| && w.tags[|tags|] == off
  {
    var b := m[..total];
    SameHeader(m, total, off);
    if Type(b, off) != TAG_END {
      RoundsUp(Size(b, off));
      assert WalkFrom(b, off + Round8(Size(b, off)), left - 1).ending == AtEnd;
    }
  }

  lemma {:induction false} SnocRead(m: seq<Byte>, tags: seq<nat>, off: nat)
    requires AllInMemory(m, tags) && off + TAG_HDR <= |m| && (Type(m, off) == TAG_MMAP ==> TagInMemory(m, off))
    ensures AllInMemory(m, tags + [off])
    ensures ReadAll(m, tags + [off]) ==
            if Type(m, off) == TAG_MMAP then ReadAll(m, tags) + ReadTag(m, off) else ReadAll(m, tags)
  {
    assert (tags + [off])[..|tags|] == tags && (tags + [off])[|tags|] == off;
    assert ReadAll(m, tags) + [] == ReadAll(m, tags);
  }

  /** The walk has visited `tags` and stands at a header. */
  ghost predicate Underway(w: Walk, tags: seq<nat>, m: seq<Byte>, total: nat, off: nat, left: nat) {
    off + TAG_HDR <= total <= |m| && OnWalk(w, tags, m[..total], off, left)
  }

  /** The next step of such a walk: the tag can be read, and the walk goes on at the next header. */
  lemma WalksOn(w: Walk, tags: seq<nat>, m: seq<Byte>, total: nat, off: nat, left: nat, next: nat) returns (left': nat)
    requires total <= TOTAL_MAX && total + 11 <= |m| && AllFinite(m, w.tags)
    requires Underway(w, tags, m, total, off, left) && w.ending == AtEnd && Type(m, off) != TAG_END
    requires next == off + Round8(Size(m, off))
    ensures Type(m, off) == TAG_MMAP ==> TagInMemory(m, off)
    ensures left' < left && Underway(w, tags + [off], m, total, next, left')
  {
    HeaderAhead(w, tags, m, total, off, left);
    left' := left - 1;
    NextTag(w, tags, m[..total], off, left, next, left');
  }

  /** One tag of the loop: a memory map is read, any other tag passed over. */
  method VisitTag(m: seq<Byte>, off: nat, regions: array<Region>, n0: nat, ghost tags: seq<nat>) returns (n: nat)
    requires off + TAG_HDR <= |m| && (Type(m, off) == TAG_MMAP ==> TagInMemory(m, off))
    requires AllInMemory(m, tags) && Filled(regions[..], n0, ReadAll(m, tags))
    modifies regions
    ensures AllInMemory(m, tags + [off]) && Filled(regions[..], n, ReadAll(m, tags + [off]))
  {
    n := n0;
    SnocRead(m, tags, off);
    if Type(m, off) == TAG_MMAP {
      n := AddTag(m, off, regions, n, ReadAll(m, tags));
    }
  }

  /** One tag of the loop, with what is known of the walk before and after it. */
  method Step(m: seq<Byte>, total: nat, off: nat, regions: array<Region>, n0: nat, ghost w: Walk, tags: seq<nat>,
              ghost left: nat)
    returns (n: nat, tags': seq<nat>, next: nat, ghost left': nat)
    requires total <= TOTAL_MAX && total + 11 <= |m| && AllFinite(m, w.tags) && w.ending == AtEnd
    requires Underway(w, tags, m, total, off, left) && Type(m, off) != TAG_END
    requires AllInMemory(m, tags) && Filled(regions[..], n0, ReadAll(m, tags))
    modifies regions
    ensures left' < left && next + TAG_HDR <= |m| && Underway(w, tags', m, total, next, left')
    ensures AllInMemory(m, tags') && Filled(regions[..], n, ReadAll(m, tags'))
  {
    next := off + Round8(Size(m, off));
    left' := WalksOn(w, tags, m, total, off, left, next);
    n := VisitTag(m, off, regions, n0, tags);
    tags' := tags + [off];
  }

  lemma StartsOut(w: Walk, tags: seq<nat>, m: seq<Byte>, total: nat, cap: nat)
    requires total <= TOTAL_MAX && total + 11 <= |m| && w == WalkFrom(m[..total], TAG_HDR, cap) && tags == []
    requires w.ending == AtEnd
    ensures Underway(w, tags, m, total, TAG_HDR, cap) && AllInMemory(m, tags) && ReadAll(m, tags) == []
  {
    assert [] + w.tags == w.tags;
    HeaderAhead(w, tags, m, total, TAG_HDR, cap);
  }

  lemma ComesHome(w: Walk, tags: seq<nat>, m: seq<Byte>, total: nat, off: nat, left: nat)
    requires total <= TOTAL_MAX && total + 11 <= |m| && w.ending == AtEnd
    requires Underway(w, tags, m, total, off, left) && Type(m, off) == TAG_END
    ensures w.tags == tags
  {
    HeaderAhead(w, tags, m, total, off, left);
  }

  /**
   The tag loop of `kmain`. Where the inventory is ok and no memory-map tag has entries of size zero, this
   unbounded loop stops too, visits the same tags, and keeps the first available entries it reads.
   */
  method KernelWalk(m: seq<Byte>, total: nat, regions: array<Region>, ghost cap: nat)
    returns (n: nat, visited: seq<nat>)
    requires total <= TOTAL_MAX && total + 11 <= |m| && WalkFrom(m[..total], TAG_HDR, cap).ending == AtEnd
    requires AllFinite(m, WalkFrom(m[..total], TAG_HDR, cap).tags)
    modifies regions
    ensures visited == WalkFrom(m[..total], TAG_HDR, cap).tags
    ensures AllInMemory(m, visited) && Filled(regions[..], n, ReadAll(m, visited))
  {
    ghost var w, left: nat := WalkFrom(m[..total], TAG_HDR, cap), cap;
    var off: nat := TAG_HDR;
    n, visited := 0, [];
    StartsOut(w, visited, m, total, cap);
    while Type(m, off) != TAG_END
      invariant off + TAG_HDR <= |m| && Underway(w, visited, m, total, off, left)
      invariant AllInMemory(m, visited) && Filled(regions[..], n, ReadAll(m, visited))
      decreases left
    {
      n, visited, off, left := Step(m, total, off, regions, n, w, visited, left);
    }
    ComesHome(w, visited, m, total, off, left);
  }

  // ---- The two entry loops.

  /** Bytes left over when entries are stepped through. */
  function Leftover(pos: nat, end: nat, step: nat): (n: nat)
    requires pos <= end && step > 0
    decreases end - pos
  {
    if pos + step <= end then Leftover(pos + step, end, step) else end - pos
  }

  lemma ConsSame<T>(x: T, a: seq<T>, b: seq<T>)
    ensures [x] + a == [x] + b <==> a == b
  {
    assert ([x] + a)[1..] == a && ([x] + b)[1..] == b;
  }

  lemma LastEntry(m: seq<Byte>, pos: nat, end: nat, step: nat)
    requires pos <= end < pos + step && end + ENTRY_READ <= |m| + 1 && step >= ENTRY_MIN
    ensures ReadEntries(m, pos, end, step) == Entries(m, pos, end, step) <==> pos == end || pos + ENTRY_MIN <= end
  {
    assert ReadEntries(m, pos + step, end, step) == [];
    assert pos + ENTRY_MIN <= end ==> Entries(m, pos + step, end, step) == [];
  }

  /** Both loops read the entry at `pos` if it lies whole before `end`. */
  lemma BothRead(m: seq<Byte>, pos: nat, end: nat, step: nat, next: nat) returns (read: seq<Entry>, es: seq<Entry>)
    requires next == pos + step <= end && end + ENTRY_READ <= |m| + 1 && step >= ENTRY_MIN
    ensures read == ReadEntries(m, next, end, step) && es == Entries(m, next, end, step)
    ensures ReadEntries(m, pos, end, step) == [EntryAt(m, pos)] + read
    ensures Entries(m, pos, end, step) == [EntryAt(m, pos)] + es
    ensures Leftover(pos, end, step) == Leftover(next, end, step)
  {
    read, es := ReadEntries(m, next, end, step), Entries(m, next, end, step);
  }

  lemma {:induction false} LoopsAgree(m: seq<Byte>, pos: nat, end: nat, step: nat,
                                      read: seq<Entry>, es: seq<Entry>, left: nat)
    requires pos <= end && end + ENTRY_READ <= |m| + 1 && step >= ENTRY_MIN
    requires read == ReadEntries(m, pos, end, step) && es == Entries(m, pos, end, step)
    requires left == Leftover(pos, end, step)
    ensures read == es <==> left == 0 || left >= ENTRY_MIN
    decreases end - pos
  {
    if pos + step > end {
      LastEntry(m, pos, end, step);
    } else {
      var next := pos + step;
      var read', es' := BothRead(m, pos, end, step, next);
      LoopsAgree(m, next, end, step, read', es', left);
      ConsSame(EntryAt(m, pos), read', es');
    }
  }

  /** The two entry loops read the same entries exactly when the leftover is nothing or holds a whole entry. */
  lemma LoopsAgreeIff(m: seq<Byte>, pos: nat, end: nat, step: nat)
    requires pos <= end && end + ENTRY_READ <= |m| + 1 && step >= ENTRY_MIN
    ensures ReadEntries(m, pos, end, step) == Entries(m, pos, end, step) <==>
            Leftover(pos, end, step) == 0 || Leftover(pos, end, step) >= ENTRY_MIN
  {
    LoopsAgree(m, pos, end, step, ReadEntries(m, pos, end, step), Entries(m, pos, end, step), Leftover(pos, end, step));
  }

  /** For one tag: the kernel reads what the inventory totals exactly when the entry size is sound and nothing partial
      is left. */
  ghost predicate Whole(m: seq<Byte>, tag: nat)
    requires tag + TAG_HDR <= |m|
  {
    || Size(m, tag) <= MMAP_HDR
    || (tag + 12 <= |m| && U32At(m, tag + 8) >= ENTRY_MIN &&
        var n := Leftover(tag + MMAP_HDR, tag + Size(m, tag), U32At(m, tag + 8)); n == 0 || n >= ENTRY_MIN)
  }

  lemma TagsAgreeIff(m: seq<Byte>, tag: nat)
    requires TagInMemory(m, tag)
    ensures ReadTag(m, tag) == TagEntries(m, tag) <==> Whole(m, tag)
  {
    if Size(m, tag) > MMAP_HDR {
      PayloadAgreesIff(m, tag, tag + MMAP_HDR, tag + Size(m, tag), U32At(m, tag + 8));
    }
  }

  lemma WholeIff(m: seq<Byte>, tag: nat, pos: nat, end: nat, step: nat, left: nat)
    requires tag + 12 <= |m| && Size(m, tag) > MMAP_HDR && step == U32At(m, tag + 8) >= ENTRY_MIN
    requires pos == tag + MMAP_HDR && end == tag + Size(m, tag) && left == Leftover(pos, end, step)
    ensures Whole(m, tag) <==> left == 0 || left >= ENTRY_MIN
  {
  }

  lemma PayloadAgreesIff(m: seq<Byte>, tag: nat, pos: nat, end: nat, step: nat)
    requires TagInMemory(m, tag) && Size(m, tag) > MMAP_HDR
    requires pos == tag + MMAP_HDR && end == tag + Size(m, tag) && step == U32At(m, tag + 8)
    ensures ReadEntries(m, pos, end, step) == TagEntries(m, tag) <==> Whole(m, tag)
  {
    if step >= ENTRY_MIN {
      TagUnfolds(m, tag, pos, end, step);
      LoopsAgreeIff(m, pos, end, step);
      WholeIff(m, tag, pos, end, step, Leftover(pos, end, step));
    } else {
      assert ReadEntries(m, pos, end, step) != [];
    }
  }

  // ---- The regions against the inventory.

  lemma SameEntry(m: seq<Byte>, b: seq<Byte>, pos: nat)
    requires b <= m && pos + ENTRY_READ <= |b|
    ensures EntryAt(b, pos) == EntryAt(m, pos)
  {
    WordInPrefix(m, b, pos);
    WordInPrefix(m, b, pos + 4);
    WordInPrefix(m, b, pos + 8);
    WordInPrefix(m, b, pos + 12);
    WordInPrefix(m, b, pos + 16);
  }

  lemma {:induction false} SameEntries(m: seq<Byte>, b: seq<Byte>, pos: nat, end: nat, step: nat)
    requires b <= m && end <= |b| && step >= ENTRY_MIN
    ensures Entries(b, pos, end, step) == Entries(m, pos, end, step)
    decreases end - pos
  {
    if pos + ENTRY_MIN > end {
    } else {
      SameEntries(m, b, pos + step, end, step);
      SameEntry(m, b, pos);
      EntriesCons(b, pos, end, step);
      EntriesCons(m, pos, end, step);
    }
  }

  lemma EntriesCons(b: seq<Byte>, pos: nat, end: nat, step: nat)
    requires end <= |b| && step >= ENTRY_MIN && pos + ENTRY_MIN <= end
    ensures Entries(b, pos, end, step) == [EntryAt(b, pos)] + Entries(b, pos + step, end, step)
  {
  }

  lemma SameTag(m: seq<Byte>, b: seq<Byte>, tag: nat)
    requires b <= m && tag + TAG_HDR <= |b| && tag + Size(m, tag) <= |b|
    ensures TagEntries(b, tag) == TagEntries(m, tag)
  {
    WordInPrefix(m, b, tag + 4);
    if Size(m, tag) >= MMAP_HDR {
      WordInPrefix(m, b, tag + 8);
      if U32At(m, tag + 8) >= ENTRY_MIN {
        var from, end, step := tag + MMAP_HDR, tag + Size(m, tag), U32At(m, tag + 8);
        TagUnfolds(m, tag, from, end, step);
        TagUnfolds(b, tag, from, end, step);
        SameEntries(m, b, from, end, step);
      }
    }
  }

  lemma TagUnfolds(b: seq<Byte>, tag: nat, from: nat, end: nat, step: nat)
    requires tag + MMAP_HDR <= |b| && from == tag + MMAP_HDR && end == tag + Size(b, tag) <= |b|
    requires Size(b, tag) >= MMAP_HDR
    requires step == U32At(b, tag + 8) >= ENTRY_MIN
    ensures TagEntries(b, tag) == Entries(b, from, end, step)
  {
  }

  ghost predicate AllWhole(m: seq<Byte>, tags: seq<nat>) {
    forall i :: 0 <= i < |tags| ==> tags[i] + TAG_HDR <= |m| && (Type(m, tags[i]) == TAG_MMAP ==> Whole(m, tags[i]))
  }

  /** With one memory-map tag, its entries are all the kernel reads. */
  lemma {:induction false} OneMmap(m: seq<Byte>, total: nat, tags: seq<nat>)
    requires total <= |m| && InBuffer(m[..total], tags) && AllInMemory(m, tags) && AllWhole(m, tags)
    requires Count(m[..total], tags, TAG_MMAP) <= 1
    ensures Count(m[..total], tags, TAG_MMAP) == 0 ==> ReadAll(m, tags) == []
    ensures Take(ReadAll(m, tags), ENTRY_CAP) == FirstMmap(m[..total], tags)
    decreases |tags|
  {
    if tags == [] {
    } else {
      var last := tags[|tags| - 1];
      OneMmap(m, total, tags[..|tags| - 1]);
      SameHeader(m, total, last);
      if Type(m, last) == TAG_MMAP {
        SameRead(m, m[..total], last);
      }
    }
  }

  lemma SameRead(m: seq<Byte>, b: seq<Byte>, tag: nat)
    requires b <= m && tag + TAG_HDR <= |b| && tag + Size(m, tag) <= |b| && TagInMemory(m, tag) && Whole(m, tag)
    ensures ReadTag(m, tag) == TagEntries(b, tag)
  {
    SameTag(m, b, tag);
    TagsAgreeIff(m, tag);
  }

  lemma {:induction false} AvailSums(es: seq<Entry>)
    requires Bytes(Avail(es)) < U64_LIMIT
    ensures AvailBytes(es) == Bytes(Avail(es))
    decreases |es|
  {
    if es == [] {
    } else {
      var front, rs := Avail(es[..|es| - 1]), Avail(es);
      assert rs != front ==> rs[..|rs| - 1] == front;
      AvailSums(es[..|es| - 1]);
    }
  }

  /** For one memory-map tag of whole entries, within both caps, the kernel's regions add up to the inventory's
      available bytes. */
  lemma {:induction false} RegionsSumToAvail(inv: Inventory, m: seq<Byte>, total: nat, w: Walk, regions: seq<Region>,
                                             n: nat)
    requires total <= |m| && Reports(inv, m[..total], w) && inv.counts[TAG_MMAP] == 1
    requires AllInMemory(m, w.tags) && AllWhole(m, w.tags) && Filled(regions, n, ReadAll(m, w.tags))
    requires var es := ReadAll(m, w.tags);
             |es| <= ENTRY_CAP && |Avail(es)| <= |regions| && Bytes(Avail(es)) < U64_LIMIT
    ensures Bytes(regions[..n]) == inv.mmap.availBytes
  {
    OneMmap(m, total, w.tags);
    AvailSums(ReadAll(m, w.tags));
  }

  // ---- Inputs on which the two walks differ.

  /** A memory-map tag with eight bytes of payload and an entry size of zero, then the end tag. */
  const STUCK: seq<Byte> := [
    40, 0, 0, 0, 0, 0, 0, 0,
    6, 0, 0, 0, 24, 0, 0, 0, 0, 0, 0, 0, 0, 0, 0, 0, 1, 0, 0, 0, 0, 0, 0, 0,
    0, 0, 0, 0, 8, 0, 0, 0]

  /** The inventory of this information is ok, and the kernel never gets past its memory map. */
  lemma KernelCanLoop(m: seq<Byte>)
    requires |m| >= 51 && m[..40] == STUCK
    ensures WalkFrom(m[..40], TAG_HDR, TAGS_MAX) == Walk([8], AtEnd)
    ensures !Halts(m, Tag(TAG_HDR))
  {
    var b := m[..40];
    StuckWords(b);
    OneTagWalk(b, 24, TAGS_MAX);
    SameHeader(m, 40, 8);
    WordInPrefix(m, b, 16);
    KernelHaltsIff(m, 40, TAG_HDR, TAGS_MAX);
    assert !Finite(m, [8][0]);
  }

  lemma StuckWords(b: seq<Byte>)
    requires b == STUCK
    ensures Type(b, 8) == TAG_MMAP && Size(b, 8) == 24 && U32At(b, 16) == 0 && Type(b, 32) == TAG_END
  {
    assert b[8] == 6 && b[9] == 0 && b[10] == 0 && b[11] == 0 && b[12] == 24 && b[13] == 0 && b[14] == 0 && b[15] == 0;
    assert b[16] == 0 && b[17] == 0 && b[18] == 0 && b[19] == 0 && b[32] == 0 && b[33] == 0 && b[34] == 0 && b[35] == 0;
  }

  /** The inventory of one tag of a size that is a multiple of eight, and the end tag behind it. */
  lemma OneTagWalk(b: seq<Byte>, size: nat, cap: nat)
    requires size + 16 <= |b| && Type(b, 8) != TAG_END && Size(b, 8) == size >= TAG_HDR && Round8(size) == size
    requires cap >= 2
    requires Type(b, 8 + size) == TAG_END
    ensures WalkFrom(b, TAG_HDR, cap) == Walk([8], AtEnd)
  {
    assert WalkFrom(b, 8 + size, cap - 1) == Walk([], AtEnd);
  }

  /** A memory-map tag of 24-byte entries with eight bytes too many, then the end tag. */
  const PARTIAL: seq<Byte> :=
    [64, 0, 0, 0, 0, 0, 0, 0] +
    [6, 0, 0, 0, 48, 0, 0, 0, 24, 0, 0, 0, 0, 0, 0, 0] +
    [0, 0, 16, 0, 0, 0, 0, 0, 0, 0, 32, 0, 0, 0, 0, 0, 1, 0, 0, 0, 0, 0, 0, 0] +
    [0, 0, 0, 1, 0, 0, 0, 0] +
    [0, 0, 0, 0, 8, 0, 0, 0]

  /**
   The inventory of this information is ok and counts one entry of its tag. The kernel reads a second one whose
   length is the end tag and whose type lies behind the information.
   */
  lemma PartialEntryIsRead(m: seq<Byte>)
    requires |m| >= 75 && PARTIAL <= m && m[64] == AVAILABLE && m[65] == 0 && m[66] == 0 && m[67] == 0
    ensures WalkFrom(m[..64], TAG_HDR, TAGS_MAX) == Walk([8], AtEnd)
    ensures TagInMemory(m, 8) && |TagEntries(m, 8)| == 1
    ensures ReadTag(m, 8) == TagEntries(m, 8) + [Entry(0x100_0000, 0x8_0000_0000, AVAILABLE)]
  {
    PartialWalk(m[..64]);
    PartialWords(m);
    assert Entries(m, 48, 56, 24) == [] && ReadEntries(m, 72, 56, 24) == [];
    assert Entries(m, 24, 56, 24) == [EntryAt(m, 24)] + Entries(m, 48, 56, 24);
    assert ReadEntries(m, 48, 56, 24) == [EntryAt(m, 48)] + ReadEntries(m, 72, 56, 24);
    assert ReadEntries(m, 24, 56, 24) == [EntryAt(m, 24)] + ReadEntries(m, 48, 56, 24);
  }

  lemma PartialWalk(b: seq<Byte>)
    requires b == PARTIAL
    ensures WalkFrom(b, TAG_HDR, TAGS_MAX) == Walk([8], AtEnd)
  {
    assert Type(b, 8) == TAG_MMAP && Size(b, 8) == 48 && Type(b, 56) == TAG_END && Round8(48) == 48;
    OneTagWalk(b, 48, TAGS_MAX);
  }

  lemma WordInPrefix(m: seq<Byte>, b: seq<Byte>, off: nat)
    requires b <= m && off + 4 <= |b|
    ensures U32At(m, off) == U32At(b, off)
  {
  }

  lemma PartialWords(m: seq<Byte>)
    requires PARTIAL <= m && |m| >= 68 && m[64] == AVAILABLE && m[65] == 0 && m[66] == 0 && m[67] == 0
    ensures Size(m, 8) == 48 && U32At(m, 16) == 24 && EntryAt(m, 48) == Entry(0x100_0000, 0x8_0000_0000, AVAILABLE)
  {
    var b := PARTIAL;
    WordInPrefix(m, b, 12);
    WordInPrefix(m, b, 16);
    WordInPrefix(m, b, 48);
    WordInPrefix(m, b, 52);
    WordInPrefix(m, b, 56);
    WordInPrefix(m, b, 60);
    assert U32At(b, 12) == 48 && U32At(b, 16) == 24;
    assert U32At(b, 48) == 0x100_0000 && U32At(b, 52) == 0 && U32At(b, 56) == 0 && U32At(b, 60) == 8;
    assert U32At(m, 64) == 1;
  }
}
