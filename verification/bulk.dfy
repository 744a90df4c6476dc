/** The two bulk-memory helpers of the reserved primary opcode 0: a page-chunked block
    fill and a byte-by-byte forward block copy, over an abstract byte memory whose
    page windows are resolved by an MMU outside this model. */
module PpcBulk {

  /** The size of a page and of a window returned by the memory resolver. */
  const PageSize: nat := 4096
  /** The number of 32-bit effective addresses. */
  const AddrSpace: int := 0x1_0000_0000

  /** A uint32 value, used for effective addresses and byte counts. */
  type U32 = x: int | 0 <= x < 0x1_0000_0000

  /** uint32 wrap-around of an integer result. */
  function Wrap(x: int): (r: U32)
    ensures -AddrSpace <= x < 0 ==> r == x + AddrSpace
    ensures 0 <= x < AddrSpace ==> r == x
    ensures AddrSpace <= x < 2 * AddrSpace ==> r == x - AddrSpace
  {
    x % AddrSpace
  }

  /** Wrapping to 32 bits does not move an address within its page. */
  lemma WrapKeepsPageOffset(x: int)
    requires -AddrSpace <= x < 2 * AddrSpace
    ensures Wrap(x) % PageSize == x % PageSize
  {
    if x < 0 {
      assert Wrap(x) == x + 0x10_0000 * PageSize;
    } else if x >= AddrSpace {
      assert x == Wrap(x) + 0x10_0000 * PageSize;
    }
  }

  /** One `memset` of the block fill: `len` bytes from effective address `start`. */
  datatype Chunk = Chunk(start: U32, len: nat)

  /** The chunks after the first, partial one: whole pages while at least 4096 bytes
      remain, then one chunk of what is left. */
  function PageRun(dest: U32, size: U32): seq<Chunk>
    decreases size
  {
    if size >= PageSize then [Chunk(dest, PageSize)] + PageRun(Wrap(dest + PageSize), size - PageSize)
    else if size > 0 then [Chunk(dest, size)]
    else []
  }

  /** The chunks the block fill writes, in order: when `dest` is not page aligned, first
      the rest of its page whatever `size` is, with `size` reduced modulo 2^32; then
      the page run. */
  function FillChunks(dest: U32, size: U32): seq<Chunk>
  {
    if dest % PageSize != 0 then
      var a := PageSize - dest % PageSize;
      [Chunk(dest, a)] + PageRun(Wrap(dest + a), Wrap(size - a))
    else
      PageRun(dest, size)
  }

  /** The number of bytes a chunk list writes. */
  function Total(cs: seq<Chunk>): nat
  {
    if cs == [] then 0 else cs[0].len + Total(cs[1..])
  }

  lemma {:induction false} TotalAppend(cs: seq<Chunk>, x: Chunk)
    ensures Total(cs + [x]) == Total(cs) + x.len
  {
    if cs != [] {
      assert (cs + [x])[1..] == cs[1..] + [x];
      TotalAppend(cs[1..], x);
    }
  }

  /** The resolve history `pre` followed by the start address of each chunk in turn:
      the window is resolved where every chunk starts. */
  function FillResolves(pre: seq<U32>, cs: seq<Chunk>): seq<U32>
    decreases |cs|
  {
    if cs == [] then pre else FillResolves(pre, cs[..|cs| - 1]) + [cs[|cs| - 1].start]
  }

  /** The fill only appends to the resolve history, one window per chunk, at the
      chunk's start. */
  lemma {:induction false} FillResolvesStarts(pre: seq<U32>, cs: seq<Chunk>)
    ensures |FillResolves(pre, cs)| == |pre| + |cs|
    ensures FillResolves(pre, cs)[..|pre|] == pre
    ensures forall i :: 0 <= i < |cs| ==> FillResolves(pre, cs)[|pre| + i] == cs[i].start
    decreases |cs|
  {
    if cs != [] {
      var p := cs[..|cs| - 1];
      FillResolvesStarts(pre, p);
      var r := FillResolves(pre, p) + [cs[|cs| - 1].start];
      assert r[..|pre|] == FillResolves(pre, p)[..|pre|];
      forall i | 0 <= i < |cs|
        ensures r[|pre| + i] == cs[i].start
      {
        if i < |p| {
          assert r[|pre| + i] == FillResolves(pre, p)[|pre| + i];
        }
      }
    }
  }

  /** Every chunk is non-empty and stays inside one page. */
  ghost predicate WithinPages(cs: seq<Chunk>)
  {
    forall i :: 0 <= i < |cs| ==> 0 < cs[i].len && cs[i].start % PageSize + cs[i].len <= PageSize
  }

  /** Each chunk starts where the previous one ended, modulo 2^32; the first at `s`. */
  ghost predicate Contiguous(cs: seq<Chunk>, s: U32)
  {
    && (|cs| > 0 ==> cs[0].start == s)
    && forall i :: 0 <= i < |cs| - 1 ==> cs[i + 1].start == Wrap(cs[i].start + cs[i].len)
  }

  /** Every chunk starts on a page boundary. */
  ghost predicate Aligned(cs: seq<Chunk>)
  {
    forall i :: 0 <= i < |cs| ==> cs[i].start % PageSize == 0
  }

  /** Putting a chunk that stays inside its page in front of a list that goes on
      where it ends keeps the list inside its pages and contiguous, and adds its
      length to the total. */
  lemma ConsChunk(c: Chunk, rest: seq<Chunk>)
    requires 0 < c.len && c.start % PageSize + c.len <= PageSize
    requires WithinPages(rest) && Contiguous(rest, Wrap(c.start + c.len))
    ensures WithinPages([c] + rest) && Contiguous([c] + rest, c.start)
    ensures Total([c] + rest) == c.len + Total(rest)
    ensures Aligned(rest) ==> forall i :: 1 <= i < |[c] + rest| ==> ([c] + rest)[i].start % PageSize == 0
    ensures Aligned(rest) && c.start % PageSize == 0 ==> Aligned([c] + rest)
  {
    var r := [c] + rest;
    assert r[1..] == rest;
    forall i | 0 <= i < |r| - 1
      ensures r[i + 1].start == Wrap(r[i].start + r[i].len)
    {
      if i > 0 { assert r[i] == rest[i - 1] && r[i + 1] == rest[i]; }
    }
    forall i | 1 <= i < |r|
      ensures r[i] == rest[i - 1]
    {
    }
  }

  /** From a page-aligned address the page run writes page-aligned chunks that stay
      inside their pages and follow one another, `size` bytes in all. */
  lemma {:induction false} PageRunChunks(dest: U32, size: U32)
    requires dest % PageSize == 0
    ensures WithinPages(PageRun(dest, size)) && Contiguous(PageRun(dest, size), dest)
    ensures Aligned(PageRun(dest, size))
    ensures Total(PageRun(dest, size)) == size
    decreases size
  {
    PageRunAligned(dest, size);
    if size >= PageSize {
      var next := Wrap(dest + PageSize);
      WrapKeepsPageOffset(dest + PageSize);
      PageRunChunks(next, size - PageSize);
      ConsChunk(Chunk(dest, PageSize), PageRun(next, size - PageSize));
      assert PageRun(dest, size) == [Chunk(dest, PageSize)] + PageRun(next, size - PageSize);
    } else if size > 0 {
      ConsChunk(Chunk(dest, size), []);
      assert PageRun(dest, size) == [Chunk(dest, size)] + [];
    }
  }

  /** From a page-aligned address every chunk of the page run starts on a page
      boundary. */
  lemma {:induction false} PageRunAligned(dest: U32, size: U32)
    requires dest % PageSize == 0
    ensures Aligned(PageRun(dest, size))
    decreases size
  {
    if size >= PageSize {
      var next := Wrap(dest + PageSize);
      WrapKeepsPageOffset(dest + PageSize);
      PageRunAligned(next, size - PageSize);
      var r := PageRun(dest, size);
      assert r == [Chunk(dest, PageSize)] + PageRun(next, size - PageSize);
      forall i | 1 <= i < |r|
        ensures r[i].start % PageSize == 0
      {
        assert r[i] == PageRun(next, size - PageSize)[i - 1];
      }
    }
  }

  /** The page run is `size / 4096` whole pages followed, when 4096 does not divide
      `size`, by one chunk of the remaining `size % 4096` bytes. */
  lemma {:induction false} PageRunLengths(dest: U32, size: U32)
    ensures var r := PageRun(dest, size);
      && |r| == size / PageSize + (if size % PageSize == 0 then 0 else 1)
      && (forall i :: 0 <= i < size / PageSize ==> r[i].len == PageSize)
      && (size % PageSize != 0 ==> r[|r| - 1].len == size % PageSize)
    decreases size
  {
    if size >= PageSize {
      var rest := PageRun(Wrap(dest + PageSize), size - PageSize);
      PageRunLengths(Wrap(dest + PageSize), size - PageSize);
      assert (size - PageSize) / PageSize == size / PageSize - 1;
      assert (size - PageSize) % PageSize == size % PageSize;
      var r := PageRun(dest, size);
      assert r == [Chunk(dest, PageSize)] + rest;
      forall i | 1 <= i < size / PageSize
        ensures r[i].len == PageSize
      {
        assert r[i] == rest[i - 1];
      }
    }
  }

  /** The chunks of the block fill never cross a page boundary and follow one another
      from `dest`. An unaligned `dest` first gets exactly the rest of its page, after
      which every chunk starts on a page boundary. The bytes written add up to `size`
      only when `dest` is aligned or `size` covers that first chunk; otherwise the
      subtraction wraps and 2^32 more bytes are written. */
  lemma FillChunksShape(dest: U32, size: U32)
    ensures var cs := FillChunks(dest, size);
      && WithinPages(cs) && Contiguous(cs, dest)
      && (dest % PageSize != 0 ==>
            |cs| > 0 && cs[0] == Chunk(dest, PageSize - dest % PageSize)
            && Wrap(dest + cs[0].len) % PageSize == 0)
      && (forall i :: 0 <= i < |cs| && (i > 0 || dest % PageSize == 0) ==> cs[i].start % PageSize == 0)
      && Total(cs) == if dest % PageSize == 0 || size >= PageSize - dest % PageSize then size else size + AddrSpace
  {
    if dest % PageSize == 0 {
      PageRunChunks(dest, size);
    } else {
      var a := PageSize - dest % PageSize;
      RestOfPageThenRun(dest, Wrap(size - a));
      assert FillChunks(dest, size) == [Chunk(dest, a)] + PageRun(Wrap(dest + a), Wrap(size - a));
    }
  }

  /** The rest of the page at an unaligned `dest`, followed by the page run of `n`
      bytes from the next page boundary. */
  lemma RestOfPageThenRun(dest: U32, n: U32)
    requires dest % PageSize != 0
    ensures var a := PageSize - dest % PageSize;
      var cs := [Chunk(dest, a)] + PageRun(Wrap(dest + a), n);
      && WithinPages(cs) && Contiguous(cs, dest) && Total(cs) == a + n
      && cs[0] == Chunk(dest, a) && Wrap(dest + a) % PageSize == 0
      && (forall i :: 1 <= i < |cs| ==> cs[i].start % PageSize == 0)
  {
    var a := PageSize - dest % PageSize;
    var next := Wrap(dest + a);
    WrapKeepsPageOffset(dest + a);
    PageRunChunks(next, n);
    ConsChunk(Chunk(dest, a), PageRun(next, n));
  }

  /** A fill of 10 bytes at 0x1ffd writes 3 bytes up to the page boundary at 0x2000,
      where the window is resolved again, and then 7 bytes; no whole page is written. */
  lemma FillExample()
    ensures FillChunks(0x1ffd, 10) == [Chunk(0x1ffd, 3), Chunk(0x2000, 7)]
  {
  }

  /** A fill of 2 bytes at 0x1ffd, as written, writes the 3 bytes up to 0x2000 and then,
      its size having wrapped to 0xffffffff, every remaining address: 2^32 + 2 bytes. */
  lemma FillOverrunExample()
    ensures FillChunks(0x1ffd, 2)[0] == Chunk(0x1ffd, 3)
    ensures Total(FillChunks(0x1ffd, 2)) == AddrSpace + 2
  {
    FillChunksShape(0x1ffd, 2);
  }

  /** The block fill as evidently intended: the first chunk is cut to `size`, so that
      exactly `size` bytes are written. */
  function FillChunksIntended(dest: U32, size: U32): seq<Chunk>
  {
    if dest % PageSize != 0 && size > 0 then
      var a := PageSize - dest % PageSize;
      if size <= a then [Chunk(dest, size)]
      else [Chunk(dest, a)] + PageRun(Wrap(dest + a), size - a)
    else
      PageRun(dest, size)
  }

  /** The intended fill writes exactly `size` bytes, in chunks that stay inside one
      page each and follow one another from `dest`. */
  lemma FillChunksIntendedShape(dest: U32, size: U32)
    ensures var cs := FillChunksIntended(dest, size);
      WithinPages(cs) && Contiguous(cs, dest) && Total(cs) == size
  {
    if dest % PageSize == 0 {
      assert FillChunksIntended(dest, size) == PageRun(dest, size);
      PageRunChunks(dest, size);
    } else if size == 0 {
      assert FillChunksIntended(dest, size) == [];
    } else {
      var a := PageSize - dest % PageSize;
      if size <= a {
        assert FillChunksIntended(dest, size) == [Chunk(dest, size)] + [];
        ConsChunk(Chunk(dest, size), []);
      } else {
        RestOfPageThenRun(dest, size - a);
        assert FillChunksIntended(dest, size) == [Chunk(dest, a)] + PageRun(Wrap(dest + a), size - a);
      }
    }
  }

  /** Where the written fill's size does not wrap, it is the intended fill. */
  lemma FillChunksIntendedAgrees(dest: U32, size: U32)
    requires dest % PageSize == 0 || size >= PageSize - dest % PageSize
    ensures FillChunksIntended(dest, size) == FillChunks(dest, size)
  {
    if dest % PageSize != 0 {
      var a := PageSize - dest % PageSize;
      if size == a {
        assert PageRun(Wrap(dest + a), 0) == [];
      }
    }
  }

  /** The effective byte memory, with `n` bytes from `start` set to `c`. */
  function SetRange(m: seq<bv8>, start: U32, n: nat, c: bv8): (r: seq<bv8>)
    ensures |r| == |m|
  {
    seq(|m|, k requires 0 <= k < |m| => if start <= k < start + n then c else m[k])
  }

  /** The memory after the `memset`s of a chunk list, in order. */
  function ApplyFill(m: seq<bv8>, cs: seq<Chunk>, c: bv8): (r: seq<bv8>)
    ensures |r| == |m|
    decreases |cs|
  {
    if cs == [] then m
    else
      var last := cs[|cs| - 1];
      SetRange(ApplyFill(m, cs[..|cs| - 1], c), last.start, last.len, c)
  }

  /** The memory with the `n` bytes from `s` on, counted modulo 2^32, set to `c`. */
  ghost function Filled(m: seq<bv8>, s: U32, n: nat, c: bv8): seq<bv8>
  {
    seq(|m|, k requires 0 <= k < |m| => if Wrap(k - s) < n then c else m[k])
  }

  /** Each chunk of a contiguous list starts as many bytes after `s` as the chunks
      before it write, modulo 2^32. */
  lemma {:induction false} ChunkStartsAtTotal(cs: seq<Chunk>, s: U32, i: nat)
    requires Contiguous(cs, s) && i < |cs|
    ensures cs[i].start == Wrap(s + Total(cs[..i]))
  {
    if i > 0 {
      ChunkStartsAtTotal(cs, s, i - 1);
      assert cs[..i] == cs[..i - 1] + [cs[i - 1]];
      TotalAppend(cs[..i - 1], cs[i - 1]);
      WrapAdd(s + Total(cs[..i - 1]), cs[i - 1].len);
    }
  }

  /** Wrapping an intermediate sum does not change the wrapped result. */
  lemma WrapAdd(x: int, y: int)
    ensures Wrap(Wrap(x) + y) == Wrap(x + y)
  {
    var q := x / AddrSpace;
    assert x == Wrap(x) + q * AddrSpace;
    assert (x + y) % AddrSpace == (Wrap(x) + y + q * AddrSpace) % AddrSpace;
    ModMultiple(Wrap(x) + y, q);
  }

  lemma ModMultiple(z: int, q: int)
    ensures (z + q * AddrSpace) % AddrSpace == z % AddrSpace
  {
  }

  /** A chunk that starts `t` bytes after `s` and stays inside its page covers exactly
      the addresses lying between `t` and `t + l` bytes after `s`, modulo 2^32, as far
      as these are not already covered by the first `t` bytes. */
  lemma ChunkWindow(s: U32, t: nat, l: nat, k: U32)
    requires Wrap(s + t) % PageSize + l <= PageSize
    ensures Wrap(k - s) < t + l <==> Wrap(k - s) < t || Wrap(s + t) <= k < Wrap(s + t) + l
  {
    var st := Wrap(s + t);
    PageEndInRange(st, l);
    var j := Wrap(k - s);
    if t < AddrSpace {
      if s + t < AddrSpace {
        assert st == s + t;
      } else {
        assert st == s + t - AddrSpace;
      }
    } else {
      assert j < t;
    }
  }

  /** A run that stays inside one page does not pass 2^32. */
  lemma PageEndInRange(st: U32, l: nat)
    requires st % PageSize + l <= PageSize
    ensures st + l <= AddrSpace
  {
    var q := st / PageSize;
    assert st == q * PageSize + st % PageSize;
    assert q < 0x10_0000;
    assert q * PageSize <= AddrSpace - PageSize;
  }

  /** Dropping the last chunk keeps a list contiguous and inside its pages. */
  lemma DropLastChunk(cs: seq<Chunk>, s: U32)
    requires cs != [] && WithinPages(cs) && Contiguous(cs, s)
    ensures WithinPages(cs[..|cs| - 1]) && Contiguous(cs[..|cs| - 1], s)
  {
    var p := cs[..|cs| - 1];
    forall i | 0 <= i < |p|
      ensures p[i] == cs[i]
    {
    }
  }

  /** The `memset`s of a contiguous list of chunks that stay inside their pages set
      exactly the `Total(cs)` bytes from `s` on, modulo 2^32, to `c`, and leave every
      other byte as it was; when the total reaches 2^32 that is the whole memory. */
  lemma {:induction false} FillCoverage(m: seq<bv8>, cs: seq<Chunk>, s: U32, c: bv8)
    requires |m| == AddrSpace && WithinPages(cs) && Contiguous(cs, s)
    ensures ApplyFill(m, cs, c) == Filled(m, s, Total(cs), c)
    decreases |cs|
  {
    if cs != [] {
      var n := |cs| - 1;
      var p := cs[..n];
      var last := cs[n];
      assert cs == p + [last];
      DropLastChunk(cs, s);
      FillCoverage(m, p, s, c);
      ChunkStartsAtTotal(cs, s, n);
      TotalAppend(p, last);
      FillStep(m, s, Total(p), last, c);
      assert ApplyFill(m, cs, c) == SetRange(ApplyFill(m, p, c), last.start, last.len, c);
      assert Total(cs) == Total(p) + last.len;
    } else {
      var f := Filled(m, s, 0, c);
      forall k | 0 <= k < |m|
        ensures f[k] == m[k]
      {
        assert f[k] == (if Wrap(k - s) < 0 then c else m[k]);
        assert Wrap(k - s) >= 0;
      }
    }
  }

  /** One more chunk, starting where the first `t` filled bytes end and staying inside
      its page, extends the filled window by its length. */
  lemma FillStep(m: seq<bv8>, s: U32, t: nat, last: Chunk, c: bv8)
    requires |m| == AddrSpace && last.start == Wrap(s + t)
    requires last.start % PageSize + last.len <= PageSize
    ensures SetRange(Filled(m, s, t, c), last.start, last.len, c) == Filled(m, s, t + last.len, c)
  {
    var r := SetRange(Filled(m, s, t, c), last.start, last.len, c);
    var f := Filled(m, s, t + last.len, c);
    forall k | 0 <= k < |m|
      ensures r[k] == f[k]
    {
      ChunkWindow(s, t, last.len, k);
    }
  }

  /** The fill as evidently intended sets exactly the `size` bytes from `dest` on,
      modulo 2^32, to `c`. */
  lemma FillIntendedEffect(m: seq<bv8>, dest: U32, size: U32, c: bv8)
    requires |m| == AddrSpace
    ensures ApplyFill(m, FillChunksIntended(dest, size), c) == Filled(m, dest, size, c)
  {
    FillChunksIntendedShape(dest, size);
    FillCoverage(m, FillChunksIntended(dest, size), dest, c);
  }

  /** The fill as written sets the `size` bytes from `dest` on to `c` when `dest` is page
      aligned or `size` covers the rest of its page; otherwise it sets every byte of
      the memory. */
  lemma FillEffect(m: seq<bv8>, dest: U32, size: U32, c: bv8)
    requires |m| == AddrSpace
    ensures dest % PageSize == 0 || size >= PageSize - dest % PageSize ==>
      ApplyFill(m, FillChunks(dest, size), c) == Filled(m, dest, size, c)
    ensures dest % PageSize != 0 && size < PageSize - dest % PageSize ==>
      forall k :: 0 <= k < AddrSpace ==> ApplyFill(m, FillChunks(dest, size), c)[k] == c
  {
    FillChunksShape(dest, size);
    FillCoverage(m, FillChunks(dest, size), dest, c);
    var f := Filled(m, dest, Total(FillChunks(dest, size)), c);
    forall k | 0 <= k < AddrSpace
      ensures dest % PageSize != 0 && size < PageSize - dest % PageSize ==> f[k] == c
    {
      assert Wrap(k - dest) < AddrSpace;
    }
  }

  /** The effective-address byte memory the two helpers write, together with the
      effective addresses whose page window has been resolved, in call order. */
  class Memory {
    var bytes: seq<bv8>
    var resolved: seq<U32>

    ghost predicate Valid()
      reads this
    {
      |bytes| == AddrSpace
    }

    constructor (init: seq<bv8>)
      requires |init| == AddrSpace
      ensures Valid() && bytes == init && resolved == []
    {
      bytes := init;
      resolved := [];
    }

    /** Resolves the page window of `ea`; the translation itself is not modelled. */
    method Resolve(ea: U32)
      modifies this
      ensures bytes == old(bytes) && resolved == old(resolved) + [ea]
    {
      resolved := resolved + [ea];
    }

    /** A `memset` of `n` bytes through the window just resolved for `ea`, which it
        must not leave. */
    method Memset(ea: U32, c: bv8, n: nat)
      requires Valid() && |resolved| > 0 && resolved[|resolved| - 1] == ea
      requires ea % PageSize + n <= PageSize
      modifies this
      ensures Valid() && bytes == SetRange(old(bytes), ea, n, c) && resolved == old(resolved)
    {
      bytes := SetRange(bytes, ea, n, c);
    }

    /** One byte store of the copy, `*d = *s`: the byte at `src` is written to `dest`,
        each through a resolved window of its own page. */
    method CopyByte(dest: U32, src: U32, ghost dWin: U32, ghost sWin: U32)
      requires Valid()
      requires dest / PageSize == dWin / PageSize && src / PageSize == sWin / PageSize
      modifies this
      ensures Valid() && bytes == old(bytes)[dest := old(bytes)[src]] && resolved == old(resolved)
    {
      bytes := bytes[dest := bytes[src]];
    }
  }

  lemma FillResolvesAppend(pre: seq<U32>, cs: seq<Chunk>, x: Chunk)
    ensures FillResolves(pre, cs + [x]) == FillResolves(pre, cs) + [x.start]
  {
    assert (cs + [x])[..|cs|] == cs;
  }

  /** Resolving for a list of chunks and then another is resolving for the two lists
      in turn. */
  lemma {:induction false} FillResolvesConcat(pre: seq<U32>, xs: seq<Chunk>, ys: seq<Chunk>)
    ensures FillResolves(pre, xs + ys) == FillResolves(FillResolves(pre, xs), ys)
    decreases |ys|
  {
    if ys == [] {
      assert xs + ys == xs;
    } else {
      var p := ys[..|ys| - 1];
      var x := ys[|ys| - 1];
      assert ys == p + [x];
      assert xs + ys == (xs + p) + [x];
      FillResolvesConcat(pre, xs, p);
      FillResolvesAppend(pre, xs + p, x);
      FillResolvesAppend(FillResolves(pre, xs), p, x);
    }
  }

  lemma ApplyFillAppend(m: seq<bv8>, cs: seq<Chunk>, x: Chunk, c: bv8)
    ensures ApplyFill(m, cs + [x], c) == SetRange(ApplyFill(m, cs, c), x.start, x.len, c)
  {
    assert (cs + [x])[..|cs|] == cs;
  }

  /** The unaligned start of the block fill: the rest of the page, then the page run
      from the next, aligned, page with the size reduced modulo 2^32. */
  lemma FirstChunkStep(d: U32, n: U32)
    requires d % PageSize != 0
    ensures Wrap(d + (PageSize - d % PageSize)) % PageSize == 0
    ensures FillChunks(d, n) ==
      [Chunk(d, PageSize - d % PageSize)] + PageRun(Wrap(d + (PageSize - d % PageSize)), Wrap(n - (PageSize - d % PageSize)))
  {
    WrapKeepsPageOffset(d + (PageSize - d % PageSize));
  }

  /** One whole page of the page run, after which the run goes on from the next,
      aligned, page. */
  lemma PageStep(done: seq<Chunk>, d: U32, n: U32)
    requires d % PageSize == 0 && n >= PageSize
    ensures Wrap(d + PageSize) % PageSize == 0
    ensures done + PageRun(d, n) == (done + [Chunk(d, PageSize)]) + PageRun(Wrap(d + PageSize), n - PageSize)
  {
    WrapKeepsPageOffset(d + PageSize);
  }

  /** Filling a list of chunks and then another is filling the two lists in turn. */
  lemma {:induction false} ApplyFillConcat(m: seq<bv8>, xs: seq<Chunk>, ys: seq<Chunk>, c: bv8)
    ensures ApplyFill(m, xs + ys, c) == ApplyFill(ApplyFill(m, xs, c), ys, c)
    decreases |ys|
  {
    if ys == [] {
      assert xs + ys == xs;
    } else {
      var p := ys[..|ys| - 1];
      var x := ys[|ys| - 1];
      assert ys == p + [x];
      assert xs + ys == (xs + p) + [x];
      ApplyFillConcat(m, xs, p, c);
      ApplyFillAppend(m, xs + p, x, c);
      ApplyFillAppend(ApplyFill(m, xs, c), p, x, c);
    }
  }

  /** The page-aligned part of the block fill: whole pages while at least 4096 bytes
      remain, then the rest, each written through a freshly resolved window. */
  method FillPageRun(mem: Memory, dest: U32, c: bv8, size: U32)
    requires mem.Valid() && dest % PageSize == 0
    modifies mem
    ensures mem.Valid()
    ensures mem.resolved == FillResolves(old(mem.resolved), PageRun(dest, size))
    ensures mem.bytes == ApplyFill(old(mem.bytes), PageRun(dest, size), c)
  {
    var d: U32 := dest;
    var n: U32 := size;
    ghost var done: seq<Chunk> := [];
    while n >= PageSize
      invariant mem.Valid() && d % PageSize == 0
      invariant done + PageRun(d, n) == PageRun(dest, size)
      invariant mem.resolved == FillResolves(old(mem.resolved), done)
      invariant mem.bytes == ApplyFill(old(mem.bytes), done, c)
      decreases n
    {
      mem.Resolve(d);
      mem.Memset(d, c, PageSize);
      FillResolvesAppend(old(mem.resolved), done, Chunk(d, PageSize));
      ApplyFillAppend(old(mem.bytes), done, Chunk(d, PageSize), c);
      PageStep(done, d, n);
      done := done + [Chunk(d, PageSize)];
      d := Wrap(d + PageSize);
      n := n - PageSize;
    }
    if n > 0 {
      mem.Resolve(d);
      mem.Memset(d, c, n);
      FillResolvesAppend(old(mem.resolved), done, Chunk(d, n));
      ApplyFillAppend(old(mem.bytes), done, Chunk(d, n), c);
      done := done + [Chunk(d, n)];
    }
    assert done == PageRun(dest, size);
  }

  /** The block fill of the reserved opcode 0x00333301: `size` bytes of the low byte of
      `r4` from `dest` on, one page window at a time. It resolves the window at the
      start of every chunk of `FillChunks(dest, size)` and performs exactly their
      `memset`s, in order, each inside its window. */
  method BlockFill(mem: Memory, dest: U32, r4: bv32, size: U32)
    requires mem.Valid()
    modifies mem
    ensures mem.Valid()
    ensures mem.resolved == FillResolves(old(mem.resolved), FillChunks(dest, size))
    ensures mem.bytes == ApplyFill(old(mem.bytes), FillChunks(dest, size), (r4 & 0xff) as bv8)
  {
    var c := (r4 & 0xff) as bv8;
    if dest % PageSize != 0 {
      mem.Resolve(dest);
      var a := PageSize - dest % PageSize;
      mem.Memset(dest, c, a);
      FirstChunkStep(dest, size);
      ghost var first := [Chunk(dest, a)];
      ghost var rest := PageRun(Wrap(dest + a), Wrap(size - a));
      assert mem.bytes == ApplyFill(old(mem.bytes), first, c);
      assert mem.resolved == FillResolves(old(mem.resolved), first);
      FillPageRun(mem, Wrap(dest + a), c, Wrap(size - a));
      ApplyFillConcat(old(mem.bytes), first, rest, c);
      FillResolvesConcat(old(mem.resolved), first, rest);
      assert FillChunks(dest, size) == first + rest;
    } else {
      FillPageRun(mem, dest, c, size);
      assert FillChunks(dest, size) == PageRun(dest, size);
    }
  }
}
