/**
 Records as their writers lay them out: fields one after the other, least significant byte first. The readers of
 `BootBytes` recover exactly what was written.
 */
module ByteFormats {
  import opened Words
  import opened BootBytes

  /** `n` in `width` bytes, least significant first. */
  function Le(n: nat, width: nat): (b: seq<Byte>)
    ensures |b| == width
    decreases width
  {
    if width == 0 then [] else [n % 256] + Le(n / 256, width - 1)
  }

  /** The bytes `x` stand at `off`. */
  ghost predicate Stored(b: seq<Byte>, off: nat, x: seq<Byte>) {
    off + |x| <= |b| && b[off..off + |x|] == x
  }

  /** One record after another. */
  lemma StoredSplit(b: seq<Byte>, off: nat, x: seq<Byte>, y: seq<Byte>)
    ensures Stored(b, off, x + y) <==> Stored(b, off, x) && Stored(b, off + |x|, y)
  {
    if off + |x| + |y| <= |b| {
      var all := b[off..off + |x| + |y|];
      assert all[..|x|] == b[off..off + |x|] && all[|x|..] == b[off + |x|..off + |x| + |y|];
      assert (x + y)[..|x|] == x && (x + y)[|x|..] == y;
      assert all == all[..|x|] + all[|x|..];
    }
  }

  lemma StoredAt(b: seq<Byte>, off: nat, x: seq<Byte>, i: nat)
    requires Stored(b, off, x) && i < |x|
    ensures b[off + i] == x[i]
  {
    assert b[off..off + |x|][i] == x[i];
  }

  /** A record inside a record. */
  lemma StoredInside(b: seq<Byte>, off: nat, x: seq<Byte>, k: nat, y: seq<Byte>)
    requires Stored(b, off, x) && Stored(x, k, y)
    ensures Stored(b, off + k, y)
  {
    forall i | 0 <= i < |y|
      ensures b[off + k..off + k + |y|][i] == y[i]
    {
      StoredAt(b, off, x, k + i);
      StoredAt(x, k, y, i);
    }
  }

  /** The offset of row `i` of a table with rows `step` bytes apart. */
  ghost function Row(off: nat, step: nat, i: nat): (r: nat)
    ensures r >= off
    decreases i
  {
    if i == 0 then off else Row(off + step, step, i - 1)
  }

  lemma {:induction false} RowIs(off: nat, step: nat, i: nat)
    ensures Row(off, step, i) == off + i * step
    decreases i
  {
    if i == 0 {
    } else {
      RowIs(off + step, step, i - 1);
      OneStep(step, i);
    }
  }

  lemma OneStep(step: nat, i: nat)
    requires i > 0
    ensures step + (i - 1) * step == i * step
  {
  }

  // ---- Words.

  lemma Le2(n: nat)
    ensures Le(n, 2) == [n % 256, n / 256 % 256]
  {
    assert Le(n / 256, 1) == [n / 256 % 256] + Le(n / 256 / 256, 0);
  }

  /** The two low bytes, and then the rest. */
  lemma LeHalves(n: nat, width: nat)
    ensures Le(n, width + 2) == Le(n % 0x1_0000, 2) + Le(n / 0x1_0000, width)
  {
    var b0, b1, low, rest := LowBytes(n);
    Le2(low);
    assert Le(n, width + 2) == [b0] + Le(n / 256, width + 1);
    assert Le(n / 256, width + 1) == [b1] + Le(rest, width);
  }

  lemma LowBytes(n: nat) returns (b0: Byte, b1: Byte, low: nat, rest: nat)
    ensures b0 == n % 256 && b1 == n / 256 % 256 && low == n % 0x1_0000
    ensures rest == n / 256 / 256 == n / 0x1_0000 && low % 256 == b0 && low / 256 % 256 == b1
  {
    b0, b1, low, rest := n % 256, n / 256 % 256, n % 0x1_0000, n / 0x1_0000;
  }

  lemma Word16(b: seq<Byte>, off: nat, n: nat)
    requires n < 0x1_0000 && Stored(b, off, Le(n, 2))
    ensures U16At(b, off) == n
  {
    Le2(n);
    StoredAt(b, off, Le(n, 2), 0);
    StoredAt(b, off, Le(n, 2), 1);
  }

  lemma Word32(b: seq<Byte>, off: nat, n: nat)
    requires n < U32_LIMIT && Stored(b, off, Le(n, 4))
    ensures U32At(b, off) == n
  {
    var lo, hi := n % 0x1_0000, n / 0x1_0000;
    LeHalves(n, 2);
    StoredSplit(b, off, Le(lo, 2), Le(hi, 2));
    Word16(b, off, lo);
    Word16(b, off + 2, hi);
  }

  lemma Quarters(n: nat) returns (w0: nat, w1: nat, lo: nat, hi: nat)
    requires n < U64_LIMIT
    ensures lo == n % U32_LIMIT && hi == n / U32_LIMIT == n / 0x1_0000 / 0x1_0000
    ensures w0 == n % 0x1_0000 == lo % 0x1_0000 && w1 == n / 0x1_0000 % 0x1_0000 == lo / 0x1_0000
  {
    w0, w1, lo, hi := n % 0x1_0000, n / 0x1_0000 % 0x1_0000, n % U32_LIMIT, n / U32_LIMIT;
  }

  lemma Regroup(a: seq<Byte>, m: seq<Byte>, z: seq<Byte>)
    ensures a + (m + z) == a + m + z
  {
  }

  lemma LeQuarters(n: nat, lo: nat, hi: nat)
    requires n < U64_LIMIT && lo == n % U32_LIMIT && hi == n / U32_LIMIT
    ensures Le(n, 8) == Le(lo, 4) + Le(hi, 4)
  {
    var w0, w1, lo', hi' := Quarters(n);
    LeHalves(n, 6);
    LeHalves(n / 0x1_0000, 4);
    LeHalves(lo, 2);
    Regroup(Le(w0, 2), Le(w1, 2), Le(hi, 4));
  }

  lemma Word64(b: seq<Byte>, off: nat, n: nat)
    requires n < U64_LIMIT && Stored(b, off, Le(n, 8))
    ensures U64At(b, off) == n
  {
    var lo, hi := n % U32_LIMIT, n / U32_LIMIT;
    LeQuarters(n, lo, hi);
    StoredSplit(b, off, Le(lo, 4), Le(hi, 4));
    Word32(b, off, lo);
    Word32(b, off + 4, hi);
  }

  // ---- And back: what a reader answers is what stands there.

  lemma Stored16(b: seq<Byte>, off: nat)
    requires off + 2 <= |b|
    ensures Stored(b, off, Le(U16At(b, off), 2))
  {
    var lo: nat, hi: nat := b[off], b[off + 1];
    Le2(lo + 256 * hi);
    assert (lo + 256 * hi) % 256 == lo && (lo + 256 * hi) / 256 == hi;
    assert b[off..off + 2] == [b[off], b[off + 1]];
  }

  lemma Join16(lo: nat, hi: nat) returns (n: nat)
    requires lo < 0x1_0000
    ensures n == lo + 0x1_0000 * hi && n % 0x1_0000 == lo && n / 0x1_0000 == hi
  {
    n := lo + 0x1_0000 * hi;
  }

  lemma Join32(lo: nat, hi: nat) returns (n: nat)
    requires lo < U32_LIMIT && hi < U32_LIMIT
    ensures n == lo + U32_LIMIT * hi < U64_LIMIT && n % U32_LIMIT == lo && n / U32_LIMIT == hi
  {
    n := lo + U32_LIMIT * hi;
  }

  lemma Stored32(b: seq<Byte>, off: nat)
    requires off + 4 <= |b|
    ensures Stored(b, off, Le(U32At(b, off), 4))
  {
    var lo, hi := U16At(b, off), U16At(b, off + 2);
    Stored16(b, off);
    Stored16(b, off + 2);
    var n := Join16(lo, hi);
    LeHalves(n, 2);
    StoredSplit(b, off, Le(lo, 2), Le(hi, 2));
  }

  lemma StoredHalves(b: seq<Byte>, off: nat, n: nat, lo: nat, hi: nat)
    requires n < U64_LIMIT && lo == n % U32_LIMIT && hi == n / U32_LIMIT
    requires Stored(b, off, Le(lo, 4)) && Stored(b, off + 4, Le(hi, 4))
    ensures Stored(b, off, Le(n, 8))
  {
    LeQuarters(n, lo, hi);
    StoredSplit(b, off, Le(lo, 4), Le(hi, 4));
  }

  lemma Stored64(b: seq<Byte>, off: nat)
    requires off + 8 <= |b|
    ensures Stored(b, off, Le(U64At(b, off), 8))
  {
    var lo, hi := U32At(b, off), U32At(b, off + 4);
    Stored32(b, off);
    Stored32(b, off + 4);
    var n := Join32(lo, hi);
    StoredHalves(b, off, n, lo, hi);
    assert U64At(b, off) == n;
  }
}
