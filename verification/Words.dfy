/** Machine-word arithmetic and the optional value shared by every module. */
module Words {

  const U32_LIMIT: nat := 0x1_0000_0000
  const U32_MAX: nat := 0xffff_ffff

  datatype Option<+T> = None | Some(value: T)

  /** `x++` on a `u32`: the largest word wraps to zero. */
  function Inc32(x: nat): nat {
    if x >= U32_MAX then 0 else x + 1
  }

  /** A guarded `if (x > 0) x--`. */
  function Dec(x: nat): nat {
    if x > 0 then x - 1 else 0
  }

  /** The first `n` elements, or all of them. */
  function Take<T>(s: seq<T>, n: nat): (r: seq<T>) {
    if n < |s| then s[..n] else s
  }

  ghost predicate NoDup<T>(s: seq<T>) {
    forall i, j :: 0 <= i < j < |s| ==> s[i] != s[j]
  }
}
