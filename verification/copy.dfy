/** The block copy of the reserved opcode 0x00333302: `size` bytes from `src` to
    `dest`, one byte at a time in increasing address order, re-resolving a page
    window whenever an address reaches a page boundary. */
module PpcCopy {
  import opened PpcBulk

  /** The memory after the first `n` byte stores of the forward copy. */
  function CopyForward(m: seq<bv8>, dest: U32, src: U32, n: nat): (r: seq<bv8>)
    requires |m| == AddrSpace
    ensures |r| == AddrSpace
    decreases n
  {
    if n == 0 then m
    else
      var p := CopyForward(m, dest, src, n - 1);
      p[Wrap(dest + n - 1) := p[Wrap(src + n - 1)]]
  }

  /** The windows resolved before one byte store: the destination's when it is at a
      page boundary, then the source's when it is. */
  function StepResolves(d: U32, s: U32): seq<U32>
  {
    (if d % PageSize == 0 then [d] else []) + (if s % PageSize == 0 then [s] else [])
  }

  /** The resolve history after the first `n` byte stores of the loop, starting from
      the history `pre`. */
  function CopyResolves(pre: seq<U32>, dest: U32, src: U32, n: nat): seq<U32>
    decreases n
  {
    if n == 0 then pre else CopyResolves(pre, dest, src, n - 1) + StepResolves(Wrap(dest + n - 1), Wrap(src + n - 1))
  }

  /** The page an address lies in. */
  function PageOf(a: U32): nat
  {
    a / PageSize
  }

  /** Stepping to the next address stays in the same page unless it reaches a page
      boundary. */
  lemma NextInPage(d: U32)
    ensures Wrap(d + 1) % PageSize != 0 ==> PageOf(Wrap(d + 1)) == PageOf(d)
  {
    if d + 1 < AddrSpace && (d + 1) % PageSize != 0 {
      var q := d / PageSize;
      assert d == q * PageSize + d % PageSize;
      assert d % PageSize + 1 < PageSize;
      assert d + 1 == q * PageSize + (d % PageSize + 1);
    }
  }

  /** The loop only appends to the resolve history, at most two windows per store,
      and every window it resolves is at a page boundary. */
  lemma {:induction false} CopyResolvesAtBoundaries(pre: seq<U32>, dest: U32, src: U32, n: nat)
    ensures |pre| <= |CopyResolves(pre, dest, src, n)| <= |pre| + 2 * n
    ensures CopyResolves(pre, dest, src, n)[..|pre|] == pre
    ensures forall j :: |pre| <= j < |CopyResolves(pre, dest, src, n)| ==> CopyResolves(pre, dest, src, n)[j] % PageSize == 0
    decreases n
  {
    if n > 0 {
      CopyResolvesAtBoundaries(pre, dest, src, n - 1);
      var p := CopyResolves(pre, dest, src, n - 1);
      var t := StepResolves(Wrap(dest + n - 1), Wrap(src + n - 1));
      assert (p + t)[..|pre|] == p[..|pre|];
      forall j | |pre| <= j < |p + t|
        ensures (p + t)[j] % PageSize == 0
      {
        if j >= |p| {
          assert (p + t)[j] == t[j - |p|];
        }
      }
    }
  }

  /** The byte stores from the `j`-th to the `n`-th touch only the destination
      addresses `j` to `n - 1` bytes after `dest`; every other byte keeps the value it
      had after the first `j` stores. */
  lemma {:induction false} CopyStable(m: seq<bv8>, dest: U32, src: U32, j: nat, n: nat, k: U32)
    requires |m| == AddrSpace && j <= n <= AddrSpace
    requires Wrap(k - dest) < j || Wrap(k - dest) >= n
    ensures CopyForward(m, dest, src, n)[k] == CopyForward(m, dest, src, j)[k]
    decreases n
  {
    if n > j {
      CopyStable(m, dest, src, j, n - 1, k);
      assert k != Wrap(dest + n - 1);
    }
  }

  /** The byte `i` places after `dest` ends up holding the byte `i` places after `src`
      as it was just before the `i`-th store: later stores do not come back to it. */
  lemma CopyWritten(m: seq<bv8>, dest: U32, src: U32, n: nat, i: nat)
    requires |m| == AddrSpace && i < n <= AddrSpace
    ensures CopyForward(m, dest, src, n)[Wrap(dest + i)] == CopyForward(m, dest, src, i)[Wrap(src + i)]
  {
    CopyStable(m, dest, src, i + 1, n, Wrap(dest + i));
  }

  /** Bytes outside the `n` destination addresses are left as they were. */
  lemma CopyUntouched(m: seq<bv8>, dest: U32, src: U32, n: nat, k: U32)
    requires |m| == AddrSpace && n <= AddrSpace && Wrap(k - dest) >= n
    ensures CopyForward(m, dest, src, n)[k] == m[k]
  {
    CopyStable(m, dest, src, 0, n, k);
  }

  /** The forward copy with `dest` lying `d > 0` bytes after `src`, modulo 2^32: the
      byte `i` places after `dest` receives the original byte `i % d` places after
      `src`. When the destination starts inside the source region the first `d` source
      bytes repeat; otherwise `i % d == i` and every byte is copied from the original. */
  lemma CopyPropagates(m: seq<bv8>, dest: U32, src: U32, d: nat, n: nat, i: nat)
    requires |m| == AddrSpace && n < AddrSpace && i < n && d == Wrap(dest - src) && d > 0
    ensures CopyForward(m, dest, src, n)[Wrap(dest + i)] == m[Wrap(src + i % d)]
  {
    var q, r := i / d, i % d;
    MultipleIsProduct(q, d);
    CopyPeriodic(m, dest, src, d, n, q, r, i);
  }

  /** `q * d`, by repeated addition, so that the proofs about the copy's period stay
      linear. */
  function Multiple(q: nat, d: nat): nat
  {
    if q == 0 then 0 else Multiple(q - 1, d) + d
  }

  lemma {:induction false} MultipleIsProduct(q: nat, d: nat)
    ensures Multiple(q, d) == q * d
  {
    if q > 0 {
      MultipleIsProduct(q - 1, d);
      assert q * d == (q - 1) * d + d;
    }
  }

  /** The copy repeats with period `d`: the byte `q * d + r` places after `dest`, for
      `r < d`, receives the original byte `r` places after `src`. */
  lemma {:induction false} CopyPeriodic(m: seq<bv8>, dest: U32, src: U32, d: nat, n: nat, q: nat, r: nat, i: nat)
    requires |m| == AddrSpace && n < AddrSpace && d == Wrap(dest - src) && r < d
    requires i == Multiple(q, d) + r && i < n
    ensures CopyForward(m, dest, src, n)[Wrap(dest + i)] == m[Wrap(src + r)]
    decreases q
  {
    if q == 0 {
      CopyFromOriginal(m, dest, src, d, n, i);
    } else {
      CopyFromEarlier(m, dest, src, d, n, i);
      CopyPeriodic(m, dest, src, d, i, q - 1, r, i - d);
    }
  }

  /** Within the first `d` stores the source byte read has not been written yet. */
  lemma CopyFromOriginal(m: seq<bv8>, dest: U32, src: U32, d: nat, n: nat, i: nat)
    requires |m| == AddrSpace && n < AddrSpace && i < n && d == Wrap(dest - src) && i < d
    ensures CopyForward(m, dest, src, n)[Wrap(dest + i)] == m[Wrap(src + i)]
  {
    CopyWritten(m, dest, src, n, i);
    SourceAhead(dest, src, i);
    CopyUntouched(m, dest, src, i, Wrap(src + i));
  }

  /** From the `d`-th store on, the source byte read is the one stored `d` steps
      earlier. */
  lemma CopyFromEarlier(m: seq<bv8>, dest: U32, src: U32, d: nat, n: nat, i: nat)
    requires |m| == AddrSpace && n < AddrSpace && i < n && d == Wrap(dest - src) && 0 < d <= i
    ensures CopyForward(m, dest, src, n)[Wrap(dest + i)] == CopyForward(m, dest, src, i)[Wrap(dest + (i - d))]
  {
    CopyWritten(m, dest, src, n, i);
    SourceWritten(dest, src, i);
  }

  /** Before the distance `d` from `src` to `dest` is covered, the source address
      `i` places on lies outside the first `i` destination addresses. */
  lemma SourceAhead(dest: U32, src: U32, i: nat)
    requires i < Wrap(dest - src)
    ensures Wrap(Wrap(src + i) - dest) >= i
  {
  }

  /** From the distance `d` on, the source address `i` places on is the destination
      address `i - d` places on. */
  lemma SourceWritten(dest: U32, src: U32, i: nat)
    requires 0 < Wrap(dest - src) <= i < AddrSpace
    ensures Wrap(src + i) == Wrap(dest + (i - Wrap(dest - src)))
  {
  }

  /** Division with remainder has one result. */
  lemma ModUnique(x: int, q: int, r: int, d: int)
    requires d > 0 && 0 <= r < d && x == q * d + r
    ensures x % d == r
  {
    var q' := x / d;
    var r' := x % d;
    assert x == q' * d + r';
    var e := q - q';
    assert e * d == r' - r;
    if e > 0 {
      assert e * d == (e - 1) * d + d;
      MulNonNegative(e - 1, d);
    } else if e < 0 {
      assert -e * d == (-e - 1) * d + d;
      MulNonNegative(-e - 1, d);
    }
  }

  lemma MulNonNegative(a: int, b: int)
    requires a >= 0 && b >= 0
    ensures a * b >= 0
  {
  }

  /** When `dest` is `src` or does not start inside the `n` source bytes, the copy moves
      the original source bytes: it agrees with `memmove`. */
  lemma CopyAsMove(m: seq<bv8>, dest: U32, src: U32, n: nat, i: nat)
    requires |m| == AddrSpace && n < AddrSpace && i < n
    requires dest == src || Wrap(dest - src) >= n
    ensures CopyForward(m, dest, src, n)[Wrap(dest + i)] == m[Wrap(src + i)]
  {
    if dest == src {
      CopyWritten(m, dest, src, n, i);
      CopyUntouched(m, dest, src, i, Wrap(src + i));
    } else {
      CopyPropagates(m, dest, src, Wrap(dest - src), n, i);
      ModUnique(i, 0, i, Wrap(dest - src));
    }
  }

  /** Copying `n` bytes one place forward, from `src` to `src + 1`, fills the whole
      destination with the first source byte. */
  lemma CopySmear(m: seq<bv8>, src: U32, n: nat, i: nat)
    requires |m| == AddrSpace && n < AddrSpace && i < n
    ensures CopyForward(m, Wrap(src + 1), src, n)[Wrap(Wrap(src + 1) + i)] == m[src]
  {
    assert Wrap(Wrap(src + 1) - src) == 1;
    CopyPropagates(m, Wrap(src + 1), src, 1, n, i);
  }

  /** The body of the copy loop for one byte: the destination window is resolved
      again when `d` is at a page boundary, then the source window when `s` is, and
      the byte is stored through the two windows. */
  method CopyRound(mem: Memory, d: U32, s: U32, ghost dWin: U32, ghost sWin: U32)
    returns (ghost dWin': U32, ghost sWin': U32)
    requires mem.Valid()
    requires d % PageSize != 0 ==> PageOf(d) == PageOf(dWin)
    requires s % PageSize != 0 ==> PageOf(s) == PageOf(sWin)
    modifies mem
    ensures mem.Valid() && PageOf(d) == PageOf(dWin') && PageOf(s) == PageOf(sWin')
    ensures mem.resolved == old(mem.resolved) + StepResolves(d, s)
    ensures mem.bytes == old(mem.bytes)[d := old(mem.bytes)[s]]
  {
    dWin', sWin' := dWin, sWin;
    if d % PageSize == 0 {
      mem.Resolve(d);
      dWin' := d;
    }
    if s % PageSize == 0 {
      mem.Resolve(s);
      sWin' := s;
    }
    mem.CopyByte(d, s, dWin', sWin');
  }

  /** The block copy. Both windows are resolved first, whatever the size; then each
      store is preceded by the resolves `StepResolves` names, and every byte written
      lies in the page of the destination window last resolved, every byte read in
      that of the source window. */
  method BlockCopy(mem: Memory, dest: U32, src: U32, size: U32)
    requires mem.Valid()
    modifies mem
    ensures mem.Valid()
    ensures mem.resolved == CopyResolves(old(mem.resolved) + [dest, src], dest, src, size)
    ensures mem.bytes == CopyForward(old(mem.bytes), dest, src, size)
  {
    var d: U32 := dest;
    var s: U32 := src;
    var n: U32 := size;
    mem.Resolve(d);
    mem.Resolve(s);
    ghost var m0 := old(mem.bytes);
    ghost var trace := mem.resolved;
    assert trace == old(mem.resolved) + [dest, src];
    ghost var dWin := d;
    ghost var sWin := s;
    ghost var i: nat := 0;
    while n > 0
      invariant mem.Valid() && |m0| == AddrSpace && i + n == size
      invariant d == Wrap(dest + i) && s == Wrap(src + i)
      invariant d % PageSize != 0 ==> PageOf(d) == PageOf(dWin)
      invariant s % PageSize != 0 ==> PageOf(s) == PageOf(sWin)
      invariant mem.resolved == CopyResolves(trace, dest, src, i)
      invariant mem.bytes == CopyForward(m0, dest, src, i)
      decreases n
    {
      dWin, sWin := CopyRound(mem, d, s, dWin, sWin);
      CopyStep(m0, trace, dest, src, i);
      d := Wrap(d + 1);
      s := Wrap(s + 1);
      n := n - 1;
      i := i + 1;
    }
  }

  /** One round of the copy loop: the next byte store and the resolves before it
      extend the byte and resolve histories by one step; the addresses advance by one,
      modulo 2^32, staying in their pages unless they reach a boundary. */
  lemma CopyStep(m: seq<bv8>, trace: seq<U32>, dest: U32, src: U32, i: nat)
    requires |m| == AddrSpace
    ensures var d := Wrap(dest + i);
      var s := Wrap(src + i);
      var b := CopyForward(m, dest, src, i);
      && b[d := b[s]] == CopyForward(m, dest, src, i + 1)
      && CopyResolves(trace, dest, src, i) + StepResolves(d, s) == CopyResolves(trace, dest, src, i + 1)
      && Wrap(d + 1) == Wrap(dest + (i + 1)) && Wrap(s + 1) == Wrap(src + (i + 1))
      && (Wrap(d + 1) % PageSize != 0 ==> PageOf(Wrap(d + 1)) == PageOf(d))
      && (Wrap(s + 1) % PageSize != 0 ==> PageOf(Wrap(s + 1)) == PageOf(s))
  {
    NextInPage(Wrap(dest + i));
    NextInPage(Wrap(src + i));
    WrapAdd(dest + i, 1);
    WrapAdd(src + i, 1);
  }
}
