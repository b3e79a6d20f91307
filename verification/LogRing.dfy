/**
 The loader's circular boot log. Every character that goes to the serial port is also put in a
 fixed ring, which is later written to a file in one or two chunks.
 */
module LogRing {
  /** The newest `cap` characters of a history. */
  function Recent<T>(h: seq<T>, cap: nat): (r: seq<T>) {
    if |h| <= cap then h else h[|h| - cap..]
  }

  lemma RecentPut<T>(h: seq<T>, x: T, cap: nat)
    requires cap > 0
    ensures var r := Recent(h, cap);
            Recent(h + [x], cap) == (if |r| < cap then r else r[1..]) + [x]
  {
  }

  /** The characters a ring holds, oldest first, when `head` is the next cell to be written. */
  ghost function Contents<T>(cells: seq<T>, head: nat, len: nat): (r: seq<T>)
    requires head < |cells| && len <= |cells|
    ensures |r| == len
  {
    if len <= head then cells[head - len..head] else cells[|cells| - (len - head)..] + cells[..head]
  }

  /** Where the `k`-th oldest of `len` characters sits. */
  function CellOf(head: nat, len: nat, cap: nat, k: nat): (i: nat)
    requires head < cap && k < len <= cap
    ensures i < cap
  {
    if len <= head + k then head + k - len else cap + head + k - len
  }

  lemma ContentsAt<T>(cells: seq<T>, head: nat, len: nat, k: nat)
    requires head < |cells| && k < len <= |cells|
    ensures Contents(cells, head, len)[k] == cells[CellOf(head, len, |cells|, k)]
  {
  }

  /** The cells after a write: the newest character is at the old head, the others stay where they are. */
  lemma CellsStay(head: nat, len: nat, cap: nat, k: nat)
    requires head < cap && k < len <= cap
    ensures var head' := if head + 1 < cap then head + 1 else 0;
            && (len < cap ==> CellOf(head', len + 1, cap, k) == CellOf(head, len, cap, k) != head)
            && (len == cap && k > 0 ==> CellOf(head', len, cap, k - 1) == CellOf(head, len, cap, k) != head)
            && CellOf(head', len, cap, len - 1) == head && (len < cap ==> CellOf(head', len + 1, cap, len) == head)
  {
  }

  /** Writing at the head adds the newest character, and loses the oldest only from a full ring. */
  lemma PutContents<T>(cells: seq<T>, head: nat, len: nat, x: T)
    requires head < |cells| && len <= |cells|
    ensures var cap, r := |cells|, Contents(cells, head, len);
            var head', len' := if head + 1 < cap then head + 1 else 0, if len < cap then len + 1 else len;
            Contents(cells[head := x], head', len') == (if len < cap then r else r[1..]) + [x]
  {
    var cap, r, c' := |cells|, Contents(cells, head, len), cells[head := x];
    var head', len' := if head + 1 < cap then head + 1 else 0, if len < cap then len + 1 else len;
    var r', goal := Contents(c', head', len'), (if len < cap then r else r[1..]) + [x];
    forall k | 0 <= k < |goal|
      ensures r'[k] == goal[k]
    {
      ContentsAt(c', head', len', k);
      var was := if len < cap then k else k + 1;
      if was < len {
        ContentsAt(cells, head, len, was);
        CellsStay(head, len, cap, was);
      } else if len > 0 {
        CellsStay(head, len, cap, len - 1);
      }
    }
  }

  /** What the file protocol answers to a write: a status, and how many bytes it took. */
  datatype Reply = Reply(ok: bool, count: nat)

  datatype Result = Success | Failed | LoadError

  class Ring {
    const cells: array<char>
    var head: nat
    var len: nat
    ghost var history: seq<char>

    ghost predicate Valid()
      reads this, cells
    {
      && head < cells.Length && len <= cells.Length
      && Contents(cells[..], head, len) == Recent(history, cells.Length)
    }

    constructor (cap: nat)
      requires cap > 0
      ensures Valid() && fresh(cells) && cells.Length == cap && history == []
    {
      cells := new char[cap];
      head, len, history := 0, 0, [];
    }

    /** `boot_log_putc`. */
    method Put(ch: char)
      requires Valid()
      modifies this, cells
      ensures Valid() && history == old(history) + [ch]
    {
      RecentPut(history, ch, cells.Length);
      PutContents(cells[..], head, len, ch);
      cells[head] := ch;
      head := head + 1;
      if head >= cells.Length {
        head := 0;
      }
      if len < cells.Length {
        len := len + 1;
      }
      history := history + [ch];
    }

    /** Any run of puts. */
    method PutAll(s: string)
      requires Valid()
      modifies this, cells
      ensures Valid() && history == old(history) + s
    {
      for i := 0 to |s|
        invariant Valid() && history == old(history) + s[..i]
      {
        Put(s[i]);
        assert s[..i + 1] == s[..i] + [s[i]];
      }
      assert s[..|s|] == s;
    }

    /**
     `boot_log_file_write`, against any file: `first` and `second` are the file's answers. On success
     the file received exactly the newest characters, in order; a failing or short write leaves a
     prefix of them.
     */
    method WriteFile(first: Reply, second: Reply) returns (r: Result, out: string)
      requires Valid()
      ensures out <= Recent(history, cells.Length)
      ensures r == Success ==> out == Recent(history, cells.Length)
      ensures r == Success <==> AllTaken(head, len, first, second)
    {
      if len == 0 {
        return Success, [];
      }
      var cap := cells.Length;
      var start := head + cap - len;
      if start >= cap {
        start := start - cap;
      }
      ChunksHoldContents(cells[..], head, len, start);
      if start + len <= cap {
        r, out := Send(cells[start..start + len], first);
        return;
      }
      r, out := Send(cells[start..], first);
      if r == Success {
        var more;
        r, more := Send(cells[..len - (cap - start)], second);
        out := out + more;
      }
    }
  }

  /** The file took all of the one chunk, or all of each of the two chunks. */
  predicate AllTaken(head: nat, len: nat, first: Reply, second: Reply) {
    || len == 0
    || (first == Reply(true, if len <= head then len else len - head) &&
        (len <= head || head == 0 || second == Reply(true, head)))
  }

  lemma ChunksHoldContents<T>(cells: seq<T>, head: nat, len: nat, start: nat)
    requires head < |cells| && 0 < len <= |cells|
    requires start == if head + |cells| - len >= |cells| then head - len else head + |cells| - len
    ensures start + len <= |cells| <==> len <= head || head == 0
    ensures start + len <= |cells| ==> cells[start..start + len] == Contents(cells, head, len)
    ensures start + len > |cells| ==>
              len - (|cells| - start) == head && cells[start..] + cells[..head] == Contents(cells, head, len)
  {
  }

  /** One write: as much of the chunk reaches the file as it says it took. */
  method Send(chunk: string, reply: Reply) returns (r: Result, out: string)
    ensures out <= chunk
    ensures r == Success <==> reply == Reply(true, |chunk|)
    ensures r == Success ==> out == chunk
  {
    out := if reply.count <= |chunk| then chunk[..reply.count] else chunk;
    r := if !reply.ok then Failed else if reply.count != |chunk| then LoadError else Success;
  }
}
