/**
 * The heap of mem.c: one array of block headers, linked by offsets in both
 * directions, with a cached pointer to the lowest free block.
 *
 * A header is one cell of `ram`, at the offset where its block starts.  The
 * layout of the heap is the sequence of its blocks in address order, closed by
 * the used end marker; `Live` is what a caller can observe of it: the extents
 * that have been handed out and not given back.
 */
module Heap {

  /** Build-time constants: MEM_ALIGNMENT, SIZEOF_STRUCT_MEM, MIN_SIZE_ALIGNED,
      MEM_SIZE_ALIGNED, and the number of values of mem_size_t. */
  datatype Config = Config(align: nat, header: nat, min: nat, size: nat, limit: nat)

  predicate Legal(c: Config) {
    && 0 < c.align && 0 < c.header && 0 < c.min
    && Multiple(c.header, c.align) && Multiple(c.min, c.align)
    && Multiple(c.size, c.align) && Multiple(c.limit, c.align)
    && c.header + c.min <= c.size
    && c.size + c.header + c.min < c.limit
  }

  predicate Multiple(n: nat, d: nat) {
    0 < d && n % d == 0
  }

  datatype Mem = Mem(next: nat, prev: nat, used: bool)

  datatype Block = Block(at: nat, used: bool)

  datatype Ptr = Null | At(offset: nat)

  // ---------------------------------------------------------------- layouts

  /** Blocks in address order, each able to hold a header and the minimum. */
  ghost predicate Spaced(c: Config, bs: seq<Block>) {
    && 0 < c.header && 0 < c.min
    && 2 <= |bs|
    && bs[0].at == 0
    && bs[|bs| - 1] == Block(c.size, true)
    && (forall i, j :: 0 <= i < j < |bs| ==> bs[i].at + c.header + c.min <= bs[j].at)
  }

  ghost predicate Aligned(c: Config, bs: seq<Block>) {
    forall i :: 0 <= i < |bs| ==> Multiple(bs[i].at, c.align)
  }

  /** Blocks i - 1 and i are both free. */
  ghost predicate Hole(bs: seq<Block>, i: int) {
    0 < i < |bs| && !bs[i - 1].used && !bs[i].used
  }

  ghost predicate NoHoles(bs: seq<Block>) {
    forall i :: !Hole(bs, i)
  }

  ghost predicate Tiled(c: Config, bs: seq<Block>) {
    && Legal(c)
    && Spaced(c, bs)
    && Aligned(c, bs)
    && NoHoles(bs)
  }

  /** The extents [at, end) of the blocks in use. */
  ghost function Live(bs: seq<Block>): set<(nat, nat)> {
    set i | 0 <= i < |bs| - 1 && bs[i].used :: (bs[i].at, bs[i + 1].at)
  }

  /** Block i is free and has room for `size` bytes of data. */
  ghost predicate Fits(c: Config, bs: seq<Block>, i: int, size: nat) {
    0 <= i < |bs| - 1 && !bs[i].used && bs[i].at + c.header + size <= bs[i + 1].at
  }

  /** The `n` bytes from `a` lie in the heap and meet no live extent. */
  ghost predicate Room(c: Config, bs: seq<Block>, a: nat, n: nat) {
    && a + n <= c.size
    && (forall e :: e in Live(bs) ==> a + n <= e.0 || e.1 <= a)
  }

  ghost predicate HasRoom(c: Config, bs: seq<Block>, n: nat) {
    exists a :: Room(c, bs, a, n)
  }

  /** No room for `n` bytes begins below `p`. */
  ghost predicate NoneBelow(c: Config, bs: seq<Block>, p: nat, n: nat) {
    forall a :: Room(c, bs, a, n) ==> p <= a
  }

  function InitialLayout(c: Config): seq<Block> {
    [Block(0, false), Block(c.size, true)]
  }

  ghost function Remove(bs: seq<Block>, i: nat): (r: seq<Block>)
    requires i < |bs|
    ensures |r| == |bs| - 1 && (forall k :: 0 <= k < |r| ==> r[k] == if k < i then bs[k] else bs[k + 1])
  {
    bs[..i] + bs[i + 1..]
  }

  ghost function InsertAfter(bs: seq<Block>, i: nat, b: Block): (r: seq<Block>)
    requires i < |bs|
    ensures |r| == |bs| + 1
    ensures forall k :: 0 <= k < |r| ==> r[k] == if k <= i then bs[k] else if k == i + 1 then b else bs[k - 1]
  {
    bs[..i + 1] + [b] + bs[i + 1..]
  }

  /** Join block i, free, with a free successor. */
  ghost function JoinNext(bs: seq<Block>, i: nat): seq<Block>
    requires i + 1 < |bs|
  {
    if bs[i + 1].used then bs else Remove(bs, i + 1)
  }

  /** Join block i, free, with a free predecessor. */
  ghost function JoinPrev(bs: seq<Block>, i: nat): seq<Block>
    requires i < |bs|
  {
    if i == 0 || bs[i - 1].used then bs else Remove(bs, i)
  }

  ghost function Freed(bs: seq<Block>, i: nat): seq<Block>
    requires i + 1 < |bs|
  {
    JoinPrev(JoinNext(bs[i := Block(bs[i].at, false)], i), i)
  }

  /** Hand out block i for `size` bytes, splitting off what could be a block. */
  ghost function Taken(c: Config, bs: seq<Block>, i: nat, size: nat): seq<Block>
    requires i + 1 < |bs|
  {
    var ptr2 := bs[i].at + c.header + size;
    var used := bs[i := Block(bs[i].at, true)];
    if ptr2 + c.header + c.min <= bs[i + 1].at then InsertAfter(used, i, Block(ptr2, false)) else used
  }

  /** Shrink block i, in use, to `size` bytes. */
  ghost function Trimmed(c: Config, bs: seq<Block>, i: nat, size: nat): seq<Block>
    requires i + 1 < |bs|
  {
    var ptr2 := bs[i].at + c.header + size;
    if ptr2 >= bs[i + 1].at then bs
    else if !bs[i + 1].used then bs[i + 1 := Block(ptr2, false)]
    else if ptr2 + c.header + c.min <= bs[i + 1].at then InsertAfter(bs, i, Block(ptr2, false))
    else bs
  }

  /** What the lowest-free pointer is: the first free block, or the end. */
  ghost predicate IsLowest(bs: seq<Block>, k: int) {
    && 0 <= k < |bs|
    && (k < |bs| - 1 ==> !bs[k].used)
    && (forall j :: 0 <= j < k ==> bs[j].used)
  }

  ghost predicate Lowest(bs: seq<Block>, lfree: nat) {
    exists k :: IsLowest(bs, k) && lfree == bs[k].at
  }

  // ------------------------------------------------------ alignment of sizes

  function AlignUp(align: nat, n: nat): (r: nat)
    requires 0 < align
    ensures n <= r < n + align && Multiple(r, align)
  {
    RoundUp(align, n);
    (n + align - 1) / align * align
  }

  lemma {:induction false} RoundUp(align: nat, n: nat)
    requires 0 < align
    ensures var r := (n + align - 1) / align * align; n <= r < n + align && Multiple(r, align)
  {
    var q := (n + align - 1) / align;
    DivMod(n + align - 1, align);
    MultipleMod(q, align);
  }

  lemma {:induction false} DivMod(x: nat, d: nat)
    requires 0 < d
    ensures x / d * d <= x < x / d * d + d
  {
    assert x == x / d * d + x % d;
  }

  lemma {:induction false} MultipleMod(k: nat, d: nat)
    requires 0 < d
    ensures k * d % d == 0
  {
    if k > 0 {
      MultipleMod(k - 1, d);
      assert k * d == (k - 1) * d + d;
      ModStep((k - 1) * d, d);
    }
  }

  lemma {:induction false} ModStep(x: nat, d: nat)
    requires 0 < d
    ensures (x + d) % d == x % d
  {
    var q := x / d;
    assert x + d == (q + 1) * d + x % d;
    ModUnique(x + d, d, q + 1, x % d);
  }

  lemma {:induction false} SmallMultiple(k: int, d: nat)
    requires k * d < d && -k * d < d
    ensures k == 0
  {
    if k > 0 { AtLeastOnce(k, d); }
    if k < 0 { AtLeastOnce(-k, d); }
  }

  lemma {:induction false} AtLeastOnce(k: nat, d: nat)
    requires 0 < k
    ensures d <= k * d
  {
    if k > 1 { AtLeastOnce(k - 1, d); }
    assert k * d == (k - 1) * d + d;
  }

  lemma {:induction false} ModUnique(x: nat, d: nat, q: nat, r: nat)
    requires 0 < d && r < d && x == q * d + r
    ensures x % d == r
  {
    var p := x / d;
    var k := p - q;
    assert k * d == p * d - q * d;
    assert x == p * d + x % d;
    SmallMultiple(k, d);
  }

  lemma {:induction false} ModSum(x: nat, y: nat, d: nat)
    requires Multiple(x, d) && Multiple(y, d)
    ensures Multiple(x + y, d)
  {
    var p, q := x / d, y / d;
    assert x + y == (p + q) * d;
    ModUnique(x + y, d, p + q, 0);
  }

  /** LWIP_MEM_ALIGN_SIZE cast to mem_size_t, raised to the minimum. */
  function WrappedSize(c: Config, size_in: nat): nat
    requires Legal(c)
  {
    var size := AlignUp(c.align, size_in) % c.limit;
    if size < c.min then c.min else size
  }

  /** The size a request stands for: aligned, and at least the minimum. */
  function DataSize(c: Config, size_in: nat): nat
    requires Legal(c)
  {
    var size := AlignUp(c.align, size_in);
    if size < c.min then c.min else size
  }

  /** It is the least aligned size that holds the request and the minimum. */
  lemma {:induction false} DataSizeLeast(c: Config, size_in: nat, n: nat)
    requires Legal(c)
    ensures Multiple(DataSize(c, size_in), c.align) && size_in <= DataSize(c, size_in) && c.min <= DataSize(c, size_in)
    ensures Multiple(n, c.align) && size_in <= n && c.min <= n ==> DataSize(c, size_in) <= n
  {
    var r := AlignUp(c.align, size_in);
    if Multiple(n, c.align) && size_in <= n < r {
      NoMultipleBetween(c.align, n, r);
    }
  }

  lemma {:induction false} FactorStep(a: nat, i: int, j: int)
    requires i < j
    ensures a * i + a <= a * j
  {
    FactorAtMost(a, i + 1, j);
  }

  lemma {:induction false} LessFactor(a: nat, i: int, j: int)
    requires a * i < a * j
    ensures i < j
  {
    if j <= i { FactorAtMost(a, j, i); }
  }

  lemma {:induction false} FactorAtMost(a: nat, i: int, j: int)
    requires i <= j
    ensures a * i <= a * j
    decreases j - i
  {
    if i < j { FactorAtMost(a, i, j - 1); }
  }

  lemma {:induction false} NoMultipleBetween(align: nat, n: nat, r: nat)
    requires 0 < align && Multiple(n, align) && Multiple(r, align) && n < r
    ensures n + align <= r
  {
    var i, j := n / align, r / align;
    DivMod(n, align);
    DivMod(r, align);
    LessFactor(align, i, j);
    FactorStep(align, i, j);
  }

  /** The wrapped size is only ever used when nothing wrapped. */
  lemma {:induction false} WrapCaught(c: Config, size_in: nat)
    requires Legal(c) && size_in < c.limit
    ensures WrappedSize(c, size_in) > c.size || WrappedSize(c, size_in) < size_in <==> DataSize(c, size_in) > c.size
    ensures DataSize(c, size_in) <= c.size ==> WrappedSize(c, size_in) == DataSize(c, size_in)
    ensures Multiple(DataSize(c, size_in), c.align) && c.min <= DataSize(c, size_in)
  {
    var size := AlignUp(c.align, size_in);
    Wrapped(c, size, size_in);
  }

  lemma {:induction false} Wrapped(c: Config, size: nat, size_in: nat)
    requires Legal(c) && size_in < c.limit && size_in <= size < size_in + c.align && Multiple(size, c.align)
    ensures size % c.limit == if size < c.limit then size else 0
    ensures size >= c.limit ==> c.min < size_in
  {
    if size < c.limit {
      ModUnique(size, c.limit, 0, size);
    } else {
      MultiplesApart(size, c.limit, c.align);
      ModUnique(size, c.limit, 1, size - c.limit);
      MultiplesBelow(c.header, c.align);
    }
  }

  lemma {:induction false} MultiplesBelow(x: nat, d: nat)
    requires Multiple(x, d) && 0 < x
    ensures d <= x
  {
    if x < d { ModUnique(x, d, 0, x); }
  }

  lemma {:induction false} MultiplesApart(x: nat, y: nat, d: nat)
    requires Multiple(x, d) && Multiple(y, d) && y <= x < y + d
    ensures x == y
  {
    var p, q := x / d, y / d;
    var k := p - q;
    assert k * d == p * d - q * d == x - y;
    SmallMultiple(k, d);
  }

  // ----------------------------------------------- what the operations mean

  lemma {:induction false} RemoveSpaced(c: Config, bs: seq<Block>, i: nat)
    requires Spaced(c, bs) && Aligned(c, bs) && 0 < i < |bs| - 1
    ensures Spaced(c, Remove(bs, i)) && Aligned(c, Remove(bs, i))
  {
  }

  lemma {:induction false} InsertSpaced(c: Config, bs: seq<Block>, i: nat, at: nat)
    requires Spaced(c, bs) && i < |bs| - 1
    requires bs[i].at + c.header + c.min <= at && at + c.header + c.min <= bs[i + 1].at
    ensures Spaced(c, InsertAfter(bs, i, Block(at, false)))
  {
    var rs := InsertAfter(bs, i, Block(at, false));
    forall k, l | 0 <= k < l < |rs| ensures rs[k].at + c.header + c.min <= rs[l].at {
      if k == i + 1 { assert l > i + 2 ==> bs[i + 1].at <= bs[l - 1].at; }
      else if l == i + 1 { assert k < i ==> bs[k].at <= bs[i].at; }
      else { assert bs[if k <= i then k else k - 1].at + c.header + c.min <= bs[if l <= i then l else l - 1].at; }
    }
  }

  lemma {:induction false} InsertAligned(c: Config, bs: seq<Block>, i: nat, size: nat)
    requires Aligned(c, bs) && i < |bs| && Multiple(c.header, c.align) && Multiple(size, c.align)
    ensures Multiple(bs[i].at + c.header + size, c.align)
    ensures Aligned(c, InsertAfter(bs, i, Block(bs[i].at + c.header + size, false)))
  {
    ModSum(bs[i].at, c.header, c.align);
    ModSum(bs[i].at + c.header, size, c.align);
  }

  /** An extent is live exactly when some used block has it. */
  lemma {:induction false} LiveAt(bs: seq<Block>, e: (nat, nat))
    ensures e in Live(bs) <==> exists i :: 0 <= i < |bs| - 1 && bs[i].used && bs[i].at == e.0 && bs[i + 1].at == e.1
  {
  }

  /** The extent of a used block is live ... */
  lemma {:induction false} InLive(bs: seq<Block>, k: nat)
    requires k + 1 < |bs| && bs[k].used
    ensures (bs[k].at, bs[k + 1].at) in Live(bs)
  {
  }

  /** ... and every live extent is that of a used block. */
  lemma {:induction false} BlockOf(bs: seq<Block>, e: (nat, nat)) returns (k: nat)
    requires e in Live(bs)
    ensures k + 1 < |bs| && bs[k].used && bs[k].at == e.0 && bs[k + 1].at == e.1
  {
    k :| 0 <= k < |bs| - 1 && bs[k].used && (bs[k].at, bs[k + 1].at) == e;
  }

  /** Dropping the boundary between two free blocks changes no live extent. */
  lemma {:induction false} RemoveLive(bs: seq<Block>, i: nat)
    requires 0 < i < |bs| - 1 && !bs[i - 1].used && !bs[i].used
    ensures Live(Remove(bs, i)) == Live(bs)
  {
    hide Live;
    var rs := Remove(bs, i);
    forall e ensures e in Live(rs) <==> e in Live(bs) {
      if e in Live(rs) {
        var k := BlockOf(rs, e);
        InLive(bs, if k < i then k else k + 1);
      }
      if e in Live(bs) {
        var k := BlockOf(bs, e);
        InLive(rs, if k < i then k else k - 1);
      }
    }
  }

  /** No two neighbours are free except perhaps blocks i - 1 and i. */
  ghost predicate OnlyHole(bs: seq<Block>, i: int) {
    forall k :: k != i ==> !Hole(bs, k)
  }

  lemma {:induction false} JoinNextTiles(c: Config, bs: seq<Block>, i: nat)
    requires Spaced(c, bs) && Aligned(c, bs) && i < |bs| - 1 && !bs[i].used
    requires forall k :: k != i && k != i + 1 ==> !Hole(bs, k)
    ensures var rs := JoinNext(bs, i);
      Spaced(c, rs) && Aligned(c, rs) && OnlyHole(rs, i) && Live(rs) == Live(bs) && i < |rs| - 1 && !rs[i].used
  {
    hide Live, Spaced, Aligned;
    var rs := JoinNext(bs, i);
    if !bs[i + 1].used {
      EndUsed(c, bs);
      RemoveSpaced(c, bs, i + 1);
      RemoveLive(bs, i + 1);
    }
    forall k | k != i ensures !Hole(rs, k) {
      if k < i { assert !Hole(bs, k); }
      else if bs[i + 1].used { assert !Hole(bs, k); }
      else { assert !Hole(bs, k + 1) && !Hole(bs, i + 2); }
    }
  }

  lemma {:induction false} EndUsed(c: Config, bs: seq<Block>)
    requires Spaced(c, bs)
    ensures 2 <= |bs| && bs[|bs| - 1].used
  {
  }

  lemma {:induction false} JoinPrevTiles(c: Config, bs: seq<Block>, i: nat)
    requires Spaced(c, bs) && Aligned(c, bs) && i < |bs| - 1 && !bs[i].used && OnlyHole(bs, i)
    ensures var rs := JoinPrev(bs, i);
      Spaced(c, rs) && Aligned(c, rs) && NoHoles(rs) && Live(rs) == Live(bs)
  {
    hide Live, Spaced, Aligned;
    var rs := JoinPrev(bs, i);
    if i > 0 && !bs[i - 1].used {
      RemoveSpaced(c, bs, i);
      RemoveLive(bs, i);
      forall k ensures !Hole(rs, k) {
        if k < i { assert !Hole(bs, k); } else { assert !Hole(bs, k + 1); }
      }
    }
  }

  /** mem_free: the layout stays a tiling and exactly one extent stops being live. */
  lemma {:induction false} FreedIsFree(c: Config, bs: seq<Block>, i: nat)
    requires Tiled(c, bs) && i < |bs| - 1 && bs[i].used
    ensures Tiled(c, Freed(bs, i))
    ensures Live(Freed(bs, i)) == Live(bs) - {(bs[i].at, bs[i + 1].at)}
  {
    var b0 := bs[i := Block(bs[i].at, false)];
    ClearLive(c, bs, i);
    hide Live;
    hide Spaced, Aligned;
    SetUsedTiles(c, bs, i, false);
    forall k | k != i && k != i + 1 ensures !Hole(b0, k) { assert !Hole(bs, k); }
    JoinNextTiles(c, b0, i);
    JoinPrevTiles(c, JoinNext(b0, i), i);
  }

  lemma {:induction false} ClearLive(c: Config, bs: seq<Block>, i: nat)
    requires Spaced(c, bs) && i < |bs| - 1 && bs[i].used
    ensures Live(bs[i := Block(bs[i].at, false)]) == Live(bs) - {(bs[i].at, bs[i + 1].at)}
  {
    hide Live, Spaced;
    var rs := bs[i := Block(bs[i].at, false)];
    forall e ensures e in Live(rs) <==> e in Live(bs) && e != (bs[i].at, bs[i + 1].at) {
      if e in Live(rs) {
        var k := BlockOf(rs, e);
        InLive(bs, k);
        SameStart(c, bs, k, i);
      }
      if e in Live(bs) && e != (bs[i].at, bs[i + 1].at) {
        var k := BlockOf(bs, e);
        InLive(rs, k);
      }
    }
  }

  /** Blocks are told apart by where they start. */
  lemma {:induction false} SameStart(c: Config, bs: seq<Block>, i: nat, j: nat)
    requires Spaced(c, bs) && i < |bs| && j < |bs|
    ensures bs[i].at == bs[j].at <==> i == j
    ensures bs[i].at == c.size <==> i == |bs| - 1
  {
  }

  /** Block i, free before, is in use and ends at `end`; the rest is as it was. */
  lemma {:induction false} TakenLive(bs: seq<Block>, rs: seq<Block>, i: nat)
    requires i < |bs| - 1 && !bs[i].used && |bs| <= |rs| <= |bs| + 1 && i < |rs| - 1
    requires rs[i] == Block(bs[i].at, true)
    requires forall k :: 0 <= k < i ==> rs[k] == bs[k]
    requires |rs| == |bs| ==> forall k :: i < k < |rs| ==> rs[k] == bs[k]
    requires |rs| == |bs| + 1 ==> !rs[i + 1].used && forall k :: i + 1 < k < |rs| ==> rs[k] == bs[k - 1]
    ensures Live(rs) == Live(bs) + {(rs[i].at, rs[i + 1].at)}
  {
    var d := |rs| - |bs|;
    forall e ensures e in Live(rs) <==> e in Live(bs) || e == (rs[i].at, rs[i + 1].at) {
      if e in Live(rs) {
        var k :| 0 <= k < |rs| - 1 && rs[k].used && (rs[k].at, rs[k + 1].at) == e;
        if k < i { assert bs[k].used && (bs[k].at, bs[k + 1].at) == e; }
        if k > i { assert bs[k - d].used && (bs[k - d].at, bs[k - d + 1].at) == e; }
      }
      if e in Live(bs) {
        var k :| 0 <= k < |bs| - 1 && bs[k].used && (bs[k].at, bs[k + 1].at) == e;
        if k < i { assert rs[k].used && (rs[k].at, rs[k + 1].at) == e; }
        else { assert rs[k + d].used && (rs[k + d].at, rs[k + d + 1].at) == e; }
      }
    }
  }

  lemma {:induction false} SetUsedTiles(c: Config, bs: seq<Block>, i: nat, used: bool)
    requires Spaced(c, bs) && Aligned(c, bs) && i < |bs| - 1
    ensures Spaced(c, bs[i := Block(bs[i].at, used)]) && Aligned(c, bs[i := Block(bs[i].at, used)])
  {
  }

  /** mem_malloc: one new extent, of at least the size asked for. */
  lemma {:induction false} TakenIsUsed(c: Config, bs: seq<Block>, i: nat, size: nat)
    requires Tiled(c, bs) && Fits(c, bs, i, size) && Multiple(size, c.align) && c.min <= size
    ensures var rs := Taken(c, bs, i, size);
      && Tiled(c, rs)
      && i + 1 < |rs| && rs[i].at == bs[i].at && bs[i].at + c.header + size <= rs[i + 1].at <= bs[i + 1].at
      && rs[i + 1].at < bs[i].at + c.header + size + c.header + c.min
      && Live(rs) == Live(bs) + {(bs[i].at, rs[i + 1].at)}
  {
    hide Live, Spaced, Aligned;
    var ptr2 := bs[i].at + c.header + size;
    var used := bs[i := Block(bs[i].at, true)];
    var rs := Taken(c, bs, i, size);
    assert !Hole(bs, i + 1) && bs[i + 1].used;
    SetUsedTiles(c, bs, i, true);
    if ptr2 + c.header + c.min <= bs[i + 1].at {
      InsertAligned(c, used, i, size);
      InsertSpaced(c, used, i, ptr2);
    }
    TakenNoHoles(c, bs, i, size);
    TakenLive(bs, rs, i);
  }

  lemma {:induction false} TakenNoHoles(c: Config, bs: seq<Block>, i: nat, size: nat)
    requires (forall k :: !Hole(bs, k)) && Fits(c, bs, i, size)
    ensures forall k :: !Hole(Taken(c, bs, i, size), k)
  {
    var rs := Taken(c, bs, i, size);
    assert !Hole(bs, i);
    forall k ensures !Hole(rs, k) {
      assert !Hole(bs, k) && !Hole(bs, k - 1);
    }
  }

  /** mem_trim: the extent keeps its address and gives up its tail. */
  lemma {:induction false} TrimmedIsShorter(c: Config, bs: seq<Block>, i: nat, size: nat)
    requires Tiled(c, bs) && i < |bs| - 1 && bs[i].used
    requires Multiple(size, c.align) && c.min <= size && bs[i].at + c.header + size <= bs[i + 1].at
    ensures var rs := Trimmed(c, bs, i, size);
      && Tiled(c, rs)
      && i + 1 < |rs| && rs[i].at == bs[i].at && bs[i].at + c.header + size <= rs[i + 1].at <= bs[i + 1].at
      && (rs[i + 1].at == bs[i].at + c.header + size
          || bs[i + 1].at < bs[i].at + c.header + size + c.header + c.min)
      && Live(rs) == Live(bs) - {(bs[i].at, bs[i + 1].at)} + {(bs[i].at, rs[i + 1].at)}
  {
    hide Live, Spaced, Aligned;
    var ptr2 := bs[i].at + c.header + size;
    var rs := Trimmed(c, bs, i, size);
    EndUsed(c, bs);
    if rs == bs {
      assert (bs[i].at, bs[i + 1].at) in Live(bs) by { LiveAt(bs, (bs[i].at, bs[i + 1].at)); }
    } else if !bs[i + 1].used {
      MoveDown(c, bs, i, size);
      forall k ensures !Hole(rs, k) { assert !Hole(bs, k); }
      MovedLive(c, bs, i, ptr2);
    } else {
      InsertAligned(c, bs, i, size);
      InsertSpaced(c, bs, i, ptr2);
      forall k ensures !Hole(rs, k) { assert !Hole(bs, k) && !Hole(bs, k - 1); }
      SplitLive(c, bs, i, ptr2);
    }
  }

  lemma {:induction false} MoveDown(c: Config, bs: seq<Block>, i: nat, size: nat)
    requires Multiple(c.header, c.align) && Multiple(size, c.align)
    requires Spaced(c, bs) && Aligned(c, bs) && i + 1 < |bs| - 1 && c.min <= size
    requires bs[i].at + c.header + size <= bs[i + 1].at
    ensures var rs := bs[i + 1 := Block(bs[i].at + c.header + size, false)]; Spaced(c, rs) && Aligned(c, rs)
  {
    var rs := bs[i + 1 := Block(bs[i].at + c.header + size, false)];
    ModSum(bs[i].at, c.header, c.align);
    ModSum(bs[i].at + c.header, size, c.align);
    hide Aligned;
    forall k, l | 0 <= k < l < |rs| ensures rs[k].at + c.header + c.min <= rs[l].at {
      assert bs[k].at + c.header + c.min <= bs[l].at;
      assert k < i ==> bs[k].at <= bs[i].at;
    }
    assert Aligned(c, rs) by { AlignedUpdate(c, bs, i + 1, rs[i + 1]); }
  }

  lemma {:induction false} AlignedUpdate(c: Config, bs: seq<Block>, i: nat, b: Block)
    requires Aligned(c, bs) && i < |bs| && Multiple(b.at, c.align)
    ensures Aligned(c, bs[i := b])
  {
  }

  /** Cutting the tail off a used block: forget it, then take its front. */
  lemma {:induction false} SplitLive(c: Config, bs: seq<Block>, i: nat, at: nat)
    requires Spaced(c, bs) && i < |bs| - 1 && bs[i].used
    ensures Live(InsertAfter(bs, i, Block(at, false)))
         == Live(bs) - {(bs[i].at, bs[i + 1].at)} + {(bs[i].at, at)}
  {
    hide Live;
    var bs0 := bs[i := Block(bs[i].at, false)];
    ClearLive(c, bs, i);
    var rs := InsertAfter(bs, i, Block(at, false));
    TakenLive(bs0, rs, i);
  }

  lemma {:induction false} MovedLive(c: Config, bs: seq<Block>, i: nat, at: nat)
    requires Spaced(c, bs) && i + 1 < |bs| - 1 && bs[i].used && !bs[i + 1].used
    ensures Live(bs[i + 1 := Block(at, false)]) == Live(bs) - {(bs[i].at, bs[i + 1].at)} + {(bs[i].at, at)}
  {
    hide Live, Spaced;
    var rs := bs[i + 1 := Block(at, false)];
    var bs0 := bs[i := Block(bs[i].at, false)];
    var rs0 := rs[i := Block(bs[i].at, false)];
    ClearLive(c, bs, i);
    TakenLive(rs0, rs, i);
    MoveFree(bs0, i + 1, at);
    assert rs0 == bs0[i + 1 := Block(at, false)];
  }

  /** A free block's start is no live extent's business if its predecessor is free. */
  lemma {:induction false} MoveFree(bs: seq<Block>, i: nat, at: nat)
    requires 0 < i < |bs| && !bs[i].used && !bs[i - 1].used
    ensures Live(bs[i := Block(at, false)]) == Live(bs)
  {
    var rs := bs[i := Block(at, false)];
    forall e ensures e in Live(rs) <==> e in Live(bs) {
      if e in Live(rs) {
        var k :| 0 <= k < |rs| - 1 && rs[k].used && (rs[k].at, rs[k + 1].at) == e;
        assert bs[k].used && (bs[k].at, bs[k + 1].at) == e;
      }
      if e in Live(bs) {
        var k :| 0 <= k < |bs| - 1 && bs[k].used && (bs[k].at, bs[k + 1].at) == e;
        assert rs[k].used && (rs[k].at, rs[k + 1].at) == e;
      }
    }
  }

  // ------------------------------------------- the layout has no other freedom

  /** Two tilings with the same live extents are the same layout: what the heap
      looks like depends on what is allocated, never on how it came about. */
  lemma {:induction false} LayoutDetermined(c: Config, bs: seq<Block>, cs: seq<Block>)
    requires Tiled(c, bs) && Tiled(c, cs) && Live(bs) == Live(cs)
    ensures bs == cs
  {
    var n := if |bs| < |cs| then |bs| else |cs|;
    PrefixDetermined(c, bs, cs, n);
    assert bs[n - 1] == bs[..n][n - 1] && cs[n - 1] == cs[..n][n - 1];
    assert bs[n - 1].at == cs[n - 1].at == c.size;
    assert |bs| == n == |cs|;
  }

  lemma {:induction false} PrefixDetermined(c: Config, bs: seq<Block>, cs: seq<Block>, n: nat)
    requires Tiled(c, bs) && Tiled(c, cs) && Live(bs) == Live(cs) && n <= |bs| && n <= |cs|
    ensures bs[..n] == cs[..n]
  {
    hide Tiled, Live;
    if n > 0 {
      PrefixDetermined(c, bs, cs, n - 1);
      var i := n - 1;
      assert i > 0 ==> bs[i - 1] == bs[..i][i - 1] && cs[i - 1] == cs[..i][i - 1];
      StartNotBefore(c, bs, cs, i);
      StartNotBefore(c, cs, bs, i);
      if bs[i].used { UsedAlike(c, bs, cs, i); }
      if cs[i].used { UsedAlike(c, cs, bs, i); }
      assert bs[..n] == bs[..i] + [bs[i]] && cs[..n] == cs[..i] + [cs[i]];
    }
  }

  /** With equal predecessors, the start of block i is a boundary of cs too,
      so block i of cs does not start above it. */
  lemma {:induction false} StartNotBefore(c: Config, bs: seq<Block>, cs: seq<Block>, i: nat)
    requires Tiled(c, bs) && Tiled(c, cs) && Live(bs) == Live(cs) && i < |bs| && i < |cs|
    requires i > 0 ==> bs[i - 1] == cs[i - 1]
    ensures cs[i].at <= bs[i].at
  {
    if i > 0 {
      var k: nat := |cs| - 1;
      if bs[i - 1].used {
        assert (bs[i - 1].at, bs[i].at) in Live(bs);
        k := BlockOf(cs, (bs[i - 1].at, bs[i].at));
        k := k + 1;
      } else if i < |bs| - 1 {
        assert !Hole(bs, i) && bs[i].used;
        assert (bs[i].at, bs[i + 1].at) in Live(bs);
        k := BlockOf(cs, (bs[i].at, bs[i + 1].at));
      }
      hide Live;
      assert bs[i].at == cs[k].at && cs[i - 1].at < cs[k].at;
      assert i <= k;
    }
  }

  lemma {:induction false} UsedAlike(c: Config, bs: seq<Block>, cs: seq<Block>, i: nat)
    requires Tiled(c, bs) && Tiled(c, cs) && Live(bs) == Live(cs) && i < |bs| && i < |cs|
    requires bs[i].at == cs[i].at && bs[i].used
    ensures cs[i].used
  {
    if i < |bs| - 1 {
      var e := (bs[i].at, bs[i + 1].at);
      assert e in Live(bs);
      var k :| 0 <= k < |cs| - 1 && cs[k].used && (cs[k].at, cs[k + 1].at) == e;
      assert k == i;
    } else {
      assert i == |cs| - 1;
    }
  }

  /** Once everything has been given back, the heap is its one initial block. */
  lemma {:induction false} AllFreeIsInitial(c: Config, bs: seq<Block>)
    requires Tiled(c, bs) && Live(bs) == {}
    ensures bs == InitialLayout(c)
  {
    var cs := InitialLayout(c);
    assert Tiled(c, cs) by {
      ModUnique(0, c.align, 0, 0);
      forall k ensures !Hole(cs, k) { }
    }
    assert Live(cs) == {};
    LayoutDetermined(c, bs, cs);
  }

  lemma {:induction false} NotLive(c: Config, bs: seq<Block>, i: nat, e: (nat, nat))
    requires Spaced(c, bs) && i < |bs| - 1 && !bs[i].used && e.0 == bs[i].at
    ensures e !in Live(bs)
  {
  }

  /** Giving back what was just handed out restores the whole layout. */
  lemma {:induction false} FreeUndoesMalloc(c: Config, bs: seq<Block>, i: nat, size: nat)
    requires Tiled(c, bs) && Fits(c, bs, i, size) && Multiple(size, c.align) && c.min <= size
    ensures i + 1 < |Taken(c, bs, i, size)| && Freed(Taken(c, bs, i, size), i) == bs
  {
    TakenIsUsed(c, bs, i, size);
    var rs := Taken(c, bs, i, size);
    var e := (rs[i].at, rs[i + 1].at);
    FreedIsFree(c, rs, i);
    NotLive(c, bs, i, e);
    assert Live(rs) - {e} == Live(bs);
    LayoutDetermined(c, Freed(rs, i), bs);
  }

  /** Live extents never overlap, leave room for a header and the minimum, and
      lie inside the heap. */
  lemma {:induction false} LiveDisjoint(c: Config, bs: seq<Block>, e: (nat, nat), f: (nat, nat))
    requires Tiled(c, bs) && e in Live(bs) && f in Live(bs)
    ensures e == f || e.1 <= f.0 || f.1 <= e.0
    ensures e.0 + c.header + c.min <= e.1 <= c.size
  {
    var i :| 0 <= i < |bs| - 1 && bs[i].used && (bs[i].at, bs[i + 1].at) == e;
    var j :| 0 <= j < |bs| - 1 && bs[j].used && (bs[j].at, bs[j + 1].at) == f;
    assert i + 1 < |bs| - 1 ==> bs[i + 1].at <= bs[|bs| - 1].at;
    if i < j { assert i + 1 < j ==> bs[i + 1].at <= bs[j].at; }
    if j < i { assert j + 1 < i ==> bs[j + 1].at <= bs[i].at; }
  }

  // ------------------------------------------------------------- first fit

  /** Whatever room there is lies inside one free block, at or above its start. */
  lemma {:induction false} RoomIsInBlock(c: Config, bs: seq<Block>, a: nat, size: nat) returns (i: nat)
    requires Tiled(c, bs) && Room(c, bs, a, c.header + size)
    ensures Fits(c, bs, i, size) && bs[i].at <= a
  {
    i := BlockAround(c, bs, a, |bs| - 1);
    var e := (bs[i].at, bs[i + 1].at);
    assert bs[i].used ==> e in Live(bs);
    if i + 1 < |bs| - 1 {
      assert !Hole(bs, i + 1);
      var f := (bs[i + 1].at, bs[i + 2].at);
      assert f in Live(bs) && a < f.1;
    }
  }

  lemma {:induction false} BlockAround(c: Config, bs: seq<Block>, a: nat, n: nat) returns (i: nat)
    requires Spaced(c, bs) && 0 < n < |bs| && a < bs[n].at
    ensures i < n && bs[i].at <= a < bs[i + 1].at
  {
    if bs[n - 1].at <= a { i := n - 1; } else { i := BlockAround(c, bs, a, n - 1); }
  }

  /** A block that fits is room at its start. */
  lemma {:induction false} FitIsRoom(c: Config, bs: seq<Block>, i: nat, size: nat)
    requires Tiled(c, bs) && Fits(c, bs, i, size)
    ensures Room(c, bs, bs[i].at, c.header + size)
  {
    var a := bs[i].at;
    assert bs[i + 1].at <= c.size by {
      if i + 1 < |bs| - 1 { assert bs[i + 1].at < bs[|bs| - 1].at; }
    }
    forall e | e in Live(bs) ensures a + c.header + size <= e.0 || e.1 <= a {
      var k :| 0 <= k < |bs| - 1 && bs[k].used && (bs[k].at, bs[k + 1].at) == e;
      if k < i { assert k + 1 < i ==> bs[k + 1].at <= bs[i].at; }
      if i < k { assert i + 1 < k ==> bs[i + 1].at <= bs[k].at; }
    }
  }

  /** First fit: i is the lowest block with room, so no room lies below it. */
  lemma {:induction false} FirstFitIsLowestRoom(c: Config, bs: seq<Block>, i: nat, size: nat)
    requires Tiled(c, bs) && Fits(c, bs, i, size) && (forall j :: 0 <= j < i ==> !Fits(c, bs, j, size))
    ensures Room(c, bs, bs[i].at, c.header + size) && NoneBelow(c, bs, bs[i].at, c.header + size)
  {
    var n := c.header + size;
    FitIsRoom(c, bs, i, size);
    forall a | Room(c, bs, a, n) ensures bs[i].at <= a {
      var j := RoomIsInBlock(c, bs, a, size);
      assert i < j ==> bs[i].at < bs[j].at;
    }
  }

  /** No block fits exactly when there is no room anywhere in the heap. */
  lemma {:induction false} NoFitIffNoRoom(c: Config, bs: seq<Block>, size: nat)
    requires Tiled(c, bs)
    ensures (exists i :: Fits(c, bs, i, size)) <==> HasRoom(c, bs, c.header + size)
  {
    if i :| Fits(c, bs, i, size) { FitIsRoom(c, bs, i, size); }
    var n := c.header + size;
    if a :| Room(c, bs, a, n) { var i := RoomIsInBlock(c, bs, a, size); }
  }

  // ------------------------------------------------------- headers and links

  /** The header of block i.  The end marker links to itself; so does the
      first block, backwards. */
  ghost function Header(bs: seq<Block>, i: int): Mem
    requires 0 <= i < |bs|
  {
    if i == |bs| - 1 then Mem(bs[i].at, bs[i].at, true)
    else Mem(bs[i + 1].at, if i == 0 then bs[0].at else bs[i - 1].at, bs[i].used)
  }

  ghost predicate Linked(ram: seq<Mem>, bs: seq<Block>) {
    && (forall i :: 0 <= i < |bs| ==> bs[i].at < |ram|)
    && (forall i {:trigger Header(bs, i)} :: 0 <= i < |bs| ==> ram[bs[i].at] == Header(bs, i))
  }

  /** Writing `prev` of the block at `at`, unless that is the end marker. */
  ghost function SetPrev(c: Config, ram: seq<Mem>, at: nat, prev: nat): seq<Mem>
    requires at < |ram|
  {
    if at == c.size then ram else ram[at := ram[at].(prev := prev)]
  }

  lemma {:induction false} LinkUsed(c: Config, ram: seq<Mem>, bs: seq<Block>, i: nat, used: bool)
    requires Spaced(c, bs) && Linked(ram, bs) && i < |bs| - 1
    ensures Linked(ram[bs[i].at := ram[bs[i].at].(used := used)], bs[i := Block(bs[i].at, used)])
  {
    var rs := bs[i := Block(bs[i].at, used)];
    forall k | 0 <= k < |rs| ensures ram[bs[i].at := ram[bs[i].at].(used := used)][rs[k].at] == Header(rs, k) {
      assert ram[bs[k].at] == Header(bs, k);
      assert bs[k].at == bs[i].at <==> k == i;
    }
  }

  lemma {:induction false} LinkRemove(c: Config, ram: seq<Mem>, bs: seq<Block>, i: nat)
    requires Spaced(c, bs) && Linked(ram, bs) && 0 < i < |bs| - 1
    ensures var prev := bs[i - 1].at; var next := bs[i + 1].at;
      Linked(SetPrev(c, ram[prev := ram[prev].(next := next)], next, prev), Remove(bs, i))
  {
    hide Spaced;
    var prev, next := bs[i - 1].at, bs[i + 1].at;
    var rs := Remove(bs, i);
    var ram' := SetPrev(c, ram[prev := ram[prev].(next := next)], next, prev);
    forall k | 0 <= k < |rs| ensures ram'[rs[k].at] == Header(rs, k) {
      var k' := if k < i then k else k + 1;
      assert ram[bs[k'].at] == Header(bs, k');
      SameStart(c, bs, k', i - 1);
      SameStart(c, bs, k', i + 1);
      SameStart(c, bs, i + 1, |bs| - 1);
    }
  }

  /** No block starts strictly inside another. */
  lemma {:induction false} InsideNoStart(c: Config, bs: seq<Block>, i: nat, at: nat, k: nat)
    requires Spaced(c, bs) && i < |bs| - 1 && bs[i].at < at < bs[i + 1].at && k < |bs|
    ensures bs[k].at != at
  {
    if k < i { assert bs[k].at < bs[i].at; }
    if k > i + 1 { assert bs[i + 1].at < bs[k].at; }
  }

  /** The cells after a block at `at` has been spliced in behind block i. */
  ghost function Spliced(c: Config, ram: seq<Mem>, prev: nat, at: nat, next: nat): seq<Mem>
    requires prev < |ram| && at < |ram| && next < |ram|
  {
    SetPrev(c, ram[at := Mem(next, prev, false)][prev := ram[prev].(next := at)], next, at)
  }

  lemma {:induction false} SplicedCell(c: Config, ram: seq<Mem>, bs: seq<Block>, i: nat, at: nat, k: nat)
    requires Spaced(c, bs) && Linked(ram, bs) && i < |bs| - 1 && bs[i].at < at < bs[i + 1].at && k < |bs|
    ensures var ram' := Spliced(c, ram, bs[i].at, at, bs[i + 1].at); var h := Header(bs, k);
      && |ram'| == |ram|
      && ram'[at] == Mem(bs[i + 1].at, bs[i].at, false)
      && ram'[bs[k].at] == if k == i then h.(next := at) else if k == i + 1 < |bs| - 1 then h.(prev := at) else h
  {
    SameStart(c, bs, k, i);
    SameStart(c, bs, k, i + 1);
    InsideNoStart(c, bs, i, at, k);
  }

  lemma {:induction false} LinkInsert(c: Config, ram: seq<Mem>, bs: seq<Block>, i: nat, at: nat)
    requires Spaced(c, bs) && Linked(ram, bs) && i < |bs| - 1 && bs[i].at < at < bs[i + 1].at
    ensures Linked(Spliced(c, ram, bs[i].at, at, bs[i + 1].at), InsertAfter(bs, i, Block(at, false)))
  {
    hide Spaced, Spliced;
    var rs := InsertAfter(bs, i, Block(at, false));
    var ram' := Spliced(c, ram, bs[i].at, at, bs[i + 1].at);
    SplicedCell(c, ram, bs, i, at, i);
    forall k | 0 <= k < |rs| ensures ram'[rs[k].at] == Header(rs, k) {
      if k != i + 1 { SplicedCell(c, ram, bs, i, at, if k <= i then k else k - 1); }
    }
  }

  lemma {:induction false} LinkMove(c: Config, ram: seq<Mem>, bs: seq<Block>, i: nat, at: nat)
    requires Spaced(c, bs) && Linked(ram, bs) && i < |bs| - 2 && bs[i].at < at < bs[i + 1].at && !bs[i + 1].used
    ensures Linked(Spliced(c, ram, bs[i].at, at, bs[i + 2].at), bs[i + 1 := Block(at, false)])
  {
    assert bs[i + 1].at < bs[i + 2].at;
    hide Spaced;
    var rs := bs[i + 1 := Block(at, false)];
    var ram' := Spliced(c, ram, bs[i].at, at, bs[i + 2].at);
    SameStart(c, bs, i + 2, |bs| - 1);
    forall k | 0 <= k < |rs| ensures ram'[rs[k].at] == Header(rs, k) { LinkMoveAt(c, ram, bs, i, at, k); }
  }

  lemma {:induction false} LinkMoveAt(c: Config, ram: seq<Mem>, bs: seq<Block>, i: nat, at: nat, k: nat)
    requires Spaced(c, bs) && Linked(ram, bs) && i < |bs| - 2 && bs[i].at < at < bs[i + 1].at && !bs[i + 1].used && k < |bs|
    requires bs[i + 1].at < bs[i + 2].at
    ensures var rs := bs[i + 1 := Block(at, false)]; Spliced(c, ram, bs[i].at, at, bs[i + 2].at)[rs[k].at] == Header(rs, k)
  {
    SameStart(c, bs, i + 2, |bs| - 1);
    SameStart(c, bs, k, i);
    SameStart(c, bs, k, i + 2);
    InsideNoStart(c, bs, i, at, k);
    hide Spaced;
    assert ram[bs[k].at] == Header(bs, k);
  }

  /** mem_link_valid's verdict on the cell at `p`. */
  predicate LinkValid(c: Config, ram: seq<Mem>, p: nat)
    requires p < |ram| && |ram| == c.size + 1
  {
    var m := ram[p];
    && m.next <= c.size && m.prev <= c.size
    && (m.prev == p || ram[m.prev].next == p)
    && (m.next == c.size || ram[m.next].prev == p)
  }

  /** mem_link_valid accepts every block of a linked layout. */
  lemma {:induction false} BlocksLinkValid(c: Config, ram: seq<Mem>, bs: seq<Block>, i: nat)
    requires Spaced(c, bs) && Linked(ram, bs) && |ram| == c.size + 1 && i < |bs| - 1
    ensures LinkValid(c, ram, bs[i].at)
  {
    assert ram[bs[i].at] == Header(bs, i);
    assert ram[bs[i + 1].at] == Header(bs, i + 1);
    if i > 0 { assert ram[bs[i - 1].at] == Header(bs, i - 1); }
    SameStart(c, bs, i + 1, |bs| - 1);
    assert i + 1 < |bs| - 1 ==> bs[i + 1].at < bs[|bs| - 1].at;
  }

  // -------------------------------------------------- the lowest-free pointer

  lemma {:induction false} LowestCleared(c: Config, bs: seq<Block>, i: nat, lfree: nat)
    requires Spaced(c, bs) && Lowest(bs, lfree) && i < |bs| - 1
    ensures Lowest(bs[i := Block(bs[i].at, false)], if bs[i].at < lfree then bs[i].at else lfree)
  {
    var k :| IsLowest(bs, k) && lfree == bs[k].at;
    assert bs[i].at < lfree <==> i < k;
    assert IsLowest(bs[i := Block(bs[i].at, false)], if i < k then i else k);
  }

  lemma {:induction false} LowestRemoved(c: Config, bs: seq<Block>, i: nat, lfree: nat)
    requires Spaced(c, bs) && Lowest(bs, lfree) && 0 < i < |bs| - 1 && !bs[i - 1].used
    ensures Lowest(Remove(bs, i), if lfree == bs[i].at then bs[i - 1].at else lfree)
  {
    var k :| IsLowest(bs, k) && lfree == bs[k].at;
    assert k <= i - 1;
    assert IsLowest(Remove(bs, i), k);
  }

  /** Taking block i leaves a lower lfree alone; lfree itself moves up. */
  lemma {:induction false} LowestTaken(c: Config, bs: seq<Block>, i: nat, size: nat, lfree: nat)
    requires Spaced(c, bs) && Lowest(bs, lfree) && i < |bs| - 1 && !bs[i].used
    ensures lfree != bs[i].at ==> Lowest(Taken(c, bs, i, size), lfree)
    ensures lfree == bs[i].at ==> forall j :: 0 <= j < i ==> Taken(c, bs, i, size)[j].used
  {
    var k :| IsLowest(bs, k) && lfree == bs[k].at;
    SameStart(c, bs, k, i);
    if k < i { assert IsLowest(Taken(c, bs, i, size), k); }
  }

  lemma {:induction false} LowestTrimmed(c: Config, bs: seq<Block>, i: nat, size: nat, lfree: nat)
    requires Spaced(c, bs) && Lowest(bs, lfree) && i < |bs| - 1 && bs[i].used
    ensures var ptr2 := bs[i].at + c.header + size; var rs := Trimmed(c, bs, i, size);
      Lowest(rs, if rs == bs then lfree
                 else if bs[i + 1].used then if ptr2 < lfree then ptr2 else lfree
                 else if lfree == bs[i + 1].at then ptr2 else lfree)
  {
    var k :| IsLowest(bs, k) && lfree == bs[k].at;
    var ptr2 := bs[i].at + c.header + size;
    var rs := Trimmed(c, bs, i, size);
    assert k < i ==> bs[k].at < bs[i].at;
    assert i + 1 < k ==> bs[i + 1].at < bs[k].at;
    if bs[i + 1].used && rs != bs {
      assert ptr2 < lfree <==> i < k;
      assert IsLowest(rs, if i < k then i + 1 else k);
    } else if rs != bs {
      assert IsLowest(rs, k);
    }
  }

  // ----------------------------------------------------- facts for the program

  lemma {:induction false} Unfold(c: Config, bs: seq<Block>)
    requires Tiled(c, bs)
    ensures 0 < c.header && 0 < c.min && Legal(c) && Spaced(c, bs) && Aligned(c, bs) && NoHoles(bs)
  {
  }

  function Redirected(lfree: nat, from: nat, to: nat): nat {
    if lfree == from then to else lfree
  }

  lemma {:induction false} FreedIs(bs: seq<Block>, i: nat)
    requires i + 1 < |bs|
    ensures var b1 := JoinNext(bs[i := Block(bs[i].at, false)], i);
      && i < |b1| && b1[i] == Block(bs[i].at, false) && (i == |b1| - 1 ==> i + 2 == |bs| && !bs[i + 1].used)
      && Freed(bs, i) == JoinPrev(b1, i)
  {
  }

  lemma {:induction false} SpacedRemove(c: Config, bs: seq<Block>, i: nat)
    requires Spaced(c, bs) && 0 < i < |bs| - 1
    ensures Spaced(c, Remove(bs, i))
  {
  }

  lemma {:induction false} LiveHere(c: Config, bs: seq<Block>, i: nat)
    requires Spaced(c, bs) && i < |bs| - 1 && bs[i].used
    ensures (bs[i].at, bs[i + 1].at) in Live(bs)
    ensures forall e :: e in Live(bs) && e.0 == bs[i].at ==> e == (bs[i].at, bs[i + 1].at)
  {
    forall e | e in Live(bs) && e.0 == bs[i].at ensures e == (bs[i].at, bs[i + 1].at) {
      var k := BlockOf(bs, e);
      SameStart(c, bs, k, i);
    }
  }

  lemma {:induction false} NoRoomBeyond(c: Config, bs: seq<Block>, size: nat)
    requires size > c.size
    ensures !HasRoom(c, bs, c.header + size)
  {
  }

  /** What mem_malloc hands out when it takes the first block that fits. */
  lemma {:induction false} TakenFacts(c: Config, bs: seq<Block>, i: nat, size: nat) returns (end: nat)
    requires Tiled(c, bs) && Fits(c, bs, i, size) && Multiple(size, c.align) && c.min <= size
    requires forall j :: 0 <= j < i ==> !Fits(c, bs, j, size)
    ensures Granted(c, bs, Taken(c, bs, i, size), size, bs[i].at + c.header, end)
  {
    FirstFitIsLowestRoom(c, bs, i, size);
    TakenIsUsed(c, bs, i, size);
    end := Taken(c, bs, i, size)[i + 1].at;
    NotLive(c, bs, i, (bs[i].at, end));
    ModSum(bs[i].at, c.header, c.align);
  }

  lemma {:induction false} TrimFacts(c: Config, bs: seq<Block>, i: nat, size: nat) returns (end: nat)
    requires Tiled(c, bs) && i < |bs| - 1 && bs[i].used
    requires Multiple(size, c.align) && c.min <= size && bs[i].at + c.header + size <= bs[i + 1].at
    ensures Cut(c, bs, Trimmed(c, bs, i, size), (bs[i].at, bs[i + 1].at), size, end)
    ensures bs[i].at + c.header + size == bs[i + 1].at ==> Trimmed(c, bs, i, size) == bs
  {
    TrimmedIsShorter(c, bs, i, size);
    end := Trimmed(c, bs, i, size)[i + 1].at;
  }

  /** No live extent is behind a pointer that mem_free turns down at sight. */
  lemma {:induction false} NotHandedOut(c: Config, bs: seq<Block>, rmem: Ptr)
    requires Tiled(c, bs)
    requires rmem.Null? || !Multiple(rmem.offset, c.align) || rmem.offset < c.header || rmem.offset + c.min > c.size
    ensures forall e :: e in Live(bs) ==> rmem != At(e.0 + c.header)
  {
    forall e | e in Live(bs) ensures rmem != At(e.0 + c.header) {
      var k := BlockOf(bs, e);
      LiveDisjoint(c, bs, e, e);
      ModSum(bs[k].at, c.header, c.align);
    }
  }

  /** The header of a live extent is marked used and passes mem_link_valid. */
  lemma {:induction false} HandedOutIsLinked(c: Config, ram: seq<Mem>, bs: seq<Block>, rmem: Ptr)
    requires Tiled(c, bs) && Linked(ram, bs) && |ram| == c.size + 1
    requires rmem.At? && c.header <= rmem.offset && rmem.offset - c.header < c.size
    requires !ram[rmem.offset - c.header].used || !LinkValid(c, ram, rmem.offset - c.header)
    ensures forall e :: e in Live(bs) ==> rmem != At(e.0 + c.header)
  {
    forall e | e in Live(bs) ensures rmem != At(e.0 + c.header) {
      var k := BlockOf(bs, e);
      assert ram[bs[k].at] == Header(bs, k);
      BlocksLinkValid(c, ram, bs, k);
    }
  }

  /** Nothing at or above block i fits once block i starts too high. */
  lemma {:induction false} NoFitAbove(c: Config, bs: seq<Block>, i: nat, size: nat, j: int)
    requires Spaced(c, bs) && i < |bs| && c.size - size <= bs[i].at && i <= j
    ensures !Fits(c, bs, j, size)
  {
    if j < |bs| - 1 {
      assert bs[j + 1].at <= c.size by { if j + 1 < |bs| - 1 { assert bs[j + 1].at < bs[|bs| - 1].at; } }
      assert bs[i].at <= bs[j].at by { if i < j { assert bs[i].at < bs[j].at; } }
    }
  }

  /** Block i's header and those of its neighbours. */
  lemma {:induction false} Neighbours(c: Config, cells: seq<Mem>, bs: seq<Block>, i: nat)
    requires |cells| == c.size + 1 && Linked(cells, bs) && Spaced(c, bs) && i < |bs| - 1
    ensures bs[i].at < bs[i + 1].at <= c.size
    ensures cells[bs[i].at] == Header(bs, i)
    ensures cells[bs[i + 1].at] == Header(bs, i + 1)
    ensures bs[i + 1].at == c.size <==> i + 1 == |bs| - 1
    ensures i + 1 == |bs| - 1 ==> bs[i + 1].used
    ensures i + 1 < |bs| - 1 ==> bs[i + 1].at < bs[i + 2].at <= c.size
    ensures i > 0 ==> bs[i - 1].at < bs[i].at && cells[bs[i - 1].at] == Header(bs, i - 1)
  {
    SameStart(c, bs, i + 1, |bs| - 1);
    assert i + 1 < |bs| - 1 ==> bs[i + 1].at < bs[|bs| - 1].at;
    assert i + 2 < |bs| - 1 ==> bs[i + 2].at < bs[|bs| - 1].at;
    if i > 0 { assert cells[bs[i - 1].at] == Header(bs, i - 1); }
  }

  /** The cells after the block at `mem` has been told that `next` follows it. */
  ghost function Joined(c: Config, cells: seq<Mem>, mem: nat, next: nat): seq<Mem>
    requires mem < |cells| && next < |cells|
  {
    SetPrev(c, cells[mem := cells[mem].(next := next)], next, mem)
  }

  /** plug_holes, forward half: what it reads and what its writes amount to. */
  lemma {:induction false} PlugNext(c: Config, cells: seq<Mem>, bs: seq<Block>, i: nat, lfree: nat)
    requires |cells| == c.size + 1 && Spaced(c, bs) && Linked(cells, bs) && Lowest(bs, lfree)
    requires i < |bs| - 1 && !bs[i].used
    ensures var mem := bs[i].at; var nmem := cells[mem].next; var rs := JoinNext(bs, i);
      && mem < nmem <= c.size
      && if !cells[nmem].used && nmem != c.size then
           && nmem < cells[nmem].next <= c.size
           && Spaced(c, rs) && Linked(Joined(c, cells, mem, cells[nmem].next), rs)
           && Lowest(rs, if lfree == nmem then mem else lfree)
         else rs == bs
  {
    Neighbours(c, cells, bs, i);
    hide Spaced, Linked, Lowest;
    if !bs[i + 1].used {
      LinkRemove(c, cells, bs, i + 1);
      LowestRemoved(c, bs, i + 1, lfree);
      SpacedRemove(c, bs, i + 1);
    }
  }

  /** plug_holes, backward half. */
  lemma {:induction false} PlugPrev(c: Config, cells: seq<Mem>, bs: seq<Block>, i: nat, lfree: nat)
    requires |cells| == c.size + 1 && Spaced(c, bs) && Linked(cells, bs) && Lowest(bs, lfree)
    requires i < |bs| - 1 && !bs[i].used
    ensures var mem := bs[i].at; var pmem := cells[mem].prev; var rs := JoinPrev(bs, i);
      && pmem <= mem < cells[mem].next <= c.size
      && if pmem != mem && !cells[pmem].used then
           && Spaced(c, rs) && Linked(Joined(c, cells, pmem, cells[mem].next), rs)
           && Lowest(rs, if lfree == mem then pmem else lfree)
         else rs == bs
  {
    Neighbours(c, cells, bs, i);
    hide Spaced, Linked, Lowest;
    if i > 0 && !bs[i - 1].used {
      LinkRemove(c, cells, bs, i);
      LowestRemoved(c, bs, i, lfree);
      SpacedRemove(c, bs, i);
    }
  }

  /** The writes mem_malloc makes on choosing block i, and where they lead. */
  ghost predicate TakePlanned(c: Config, cells: seq<Mem>, bs: seq<Block>, i: nat, size: nat, lfree: nat)
    requires |cells| == c.size + 1 && i + 1 < |bs| && bs[i].at < |cells|
  {
    var ptr, rs, next := bs[i].at, Taken(c, bs, i, size), cells[bs[i].at].next;
    var cells', ptr2 := cells[ptr := cells[ptr].(used := true)], ptr + c.header + size;
    && Tiled(c, rs) && Spaced(c, rs) && i < |rs| && rs[i].at == ptr && ptr < ptr2 <= next <= c.size
    && (if next - (ptr + c.header) >= size + c.header + c.min
        then ptr2 < next && Linked(Spliced(c, cells', ptr, ptr2, next), rs) else Linked(cells', rs))
    && (if lfree == ptr then forall j :: 0 <= j < i ==> rs[j].used else Lowest(rs, lfree))
  }

  lemma {:induction false} TakePlan(c: Config, cells: seq<Mem>, bs: seq<Block>, i: nat, size: nat, lfree: nat)
    requires |cells| == c.size + 1 && Tiled(c, bs) && Linked(cells, bs) && Lowest(bs, lfree)
    requires Fits(c, bs, i, size) && Multiple(size, c.align) && c.min <= size
    ensures bs[i].at < |cells| && TakePlanned(c, cells, bs, i, size, lfree)
  {
    hide Spaced, Linked, Lowest, Legal, Aligned, NoHoles, Live, Spliced, InsertAfter, Multiple, Hole, Tiled;
    Unfold(c, bs);
    TakenIsUsed(c, bs, i, size);
    LowestTaken(c, bs, i, size, lfree);
    SetUsedTiles(c, bs, i, true);
    LinkUsed(c, cells, bs, i, true);
    Neighbours(c, cells, bs, i);
    Unfold(c, Taken(c, bs, i, size));
    var ptr, next := bs[i].at, bs[i + 1].at;
    if next - (ptr + c.header) >= size + c.header + c.min {
      LinkInsert(c, cells[ptr := cells[ptr].(used := true)], bs[i := Block(ptr, true)], i, ptr + c.header + size);
    }
  }

  /** The writes mem_trim makes when block i has something to give up. */
  ghost predicate TrimPlanned(c: Config, cells: seq<Mem>, bs: seq<Block>, i: nat, size: nat, lfree: nat)
    requires |cells| == c.size + 1 && i + 1 < |bs| && bs[i].at < |cells|
  {
    var ptr, rs, mem2 := bs[i].at, Trimmed(c, bs, i, size), cells[bs[i].at].next;
    var ptr2 := ptr + c.header + size;
    && Tiled(c, rs) && mem2 == bs[i + 1].at <= c.size && ptr < ptr2 < mem2
    && if !cells[mem2].used then
         && mem2 < cells[mem2].next <= c.size
         && Linked(Spliced(c, cells, ptr, ptr2, cells[mem2].next), rs)
         && Lowest(rs, if lfree == mem2 then ptr2 else lfree)
       else if size + c.header + c.min <= mem2 - ptr - c.header then
         && Linked(Spliced(c, cells, ptr, ptr2, mem2), rs)
         && Lowest(rs, if ptr2 < lfree then ptr2 else lfree)
       else rs == bs
  }

  lemma {:induction false} TrimPlan(c: Config, cells: seq<Mem>, bs: seq<Block>, i: nat, size: nat, lfree: nat)
    requires |cells| == c.size + 1 && Tiled(c, bs) && Linked(cells, bs) && Lowest(bs, lfree)
    requires i < |bs| - 1 && bs[i].used && Multiple(size, c.align) && c.min <= size
    requires bs[i].at + c.header + size < bs[i + 1].at
    ensures bs[i].at < |cells| && TrimPlanned(c, cells, bs, i, size, lfree)
  {
    hide Spaced, Linked, Lowest, Legal, Aligned, NoHoles, Live, Spliced, InsertAfter, Multiple, Hole, Tiled;
    Unfold(c, bs);
    TrimmedIsShorter(c, bs, i, size);
    LowestTrimmed(c, bs, i, size, lfree);
    Neighbours(c, cells, bs, i);
    var ptr2 := bs[i].at + c.header + size;
    if !bs[i + 1].used {
      LinkMove(c, cells, bs, i, ptr2);
    } else if ptr2 + c.header + c.min <= bs[i + 1].at {
      LinkInsert(c, cells, bs, i, ptr2);
    }
  }

  /** What a successful mem_malloc means to its caller: an aligned pointer to a
      new extent, big enough and not wastefully big, in the lowest place with room. */
  ghost predicate Granted(c: Config, bs: seq<Block>, bs': seq<Block>, size: nat, offset: nat, end: nat) {
    && c.header <= offset && Multiple(offset, c.align)
    && offset + size <= end < offset + size + c.header + c.min
    && (offset - c.header, end) !in Live(bs)
    && Live(bs') == Live(bs) + {(offset - c.header, end)}
    && NoneBelow(c, bs, offset - c.header, c.header + size)
  }

  /** What a successful mem_trim means: same address, the tail given up unless
      it is too short to be a block. */
  ghost predicate Cut(c: Config, bs: seq<Block>, bs': seq<Block>, e: (nat, nat), size: nat, end: nat) {
    && Live(bs') == Live(bs) - {e} + {(e.0, end)}
    && e.0 + c.header + size <= end <= e.1
    && (end == e.0 + c.header + size || e.1 < e.0 + c.header + size + c.header + c.min)
  }

  /** One call of a program that uses the heap: `k` picks a block it holds. */
  datatype Op = MallocOp(size: nat) | FreeOp(k: nat) | TrimOp(k: nat, size: nat)

  /** `held` names the start of every live extent, each once. */
  ghost predicate Holds(bs: seq<Block>, held: seq<nat>) {
    && (forall i, j :: 0 <= i < j < |held| ==> held[i] != held[j])
    && (forall p :: p in held ==> LiveFrom(bs, p))
    && (forall e :: e in Live(bs) ==> e.0 in held)
  }

  ghost predicate LiveFrom(bs: seq<Block>, p: nat) {
    exists e :: e in Live(bs) && e.0 == p
  }

  lemma {:induction false} HeldExtent(bs: seq<Block>, held: seq<nat>, k: nat) returns (e: (nat, nat))
    requires Holds(bs, held) && k < |held|
    ensures e in Live(bs) && e.0 == held[k]
  {
    assert held[k] in held && LiveFrom(bs, held[k]);
    e :| e in Live(bs) && e.0 == held[k];
  }

  /** No two live extents start at one address. */
  lemma {:induction false} OneExtent(c: Config, bs: seq<Block>, e: (nat, nat), f: (nat, nat))
    requires Tiled(c, bs) && e in Live(bs) && f in Live(bs) && e.0 == f.0
    ensures e == f
  {
    LiveDisjoint(c, bs, e, f);
    LiveDisjoint(c, bs, f, e);
    Unfold(c, bs);
  }

  lemma {:induction false} GrantedHolds(c: Config, bs: seq<Block>, bs': seq<Block>, size: nat, offset: nat, end: nat, held: seq<nat>)
    requires Tiled(c, bs') && Granted(c, bs, bs', size, offset, end) && Holds(bs, held)
    ensures c.header <= offset && Holds(bs', held + [offset - c.header])
  {
    hide Tiled, Live;
    var p := offset - c.header;
    assert p !in held by {
      if p in held {
        assert LiveFrom(bs, p);
        var e :| e in Live(bs) && e.0 == p;
        OneExtent(c, bs', e, (p, end));
      }
    }
    forall q | q in held + [p] ensures LiveFrom(bs', q) {
      if q == p { assert (p, end) in Live(bs'); } else { assert LiveFrom(bs, q); }
    }
  }

  lemma {:induction false} DroppedHolds(c: Config, bs: seq<Block>, bs': seq<Block>, held: seq<nat>, k: nat, e: (nat, nat))
    requires Tiled(c, bs) && Holds(bs, held) && k < |held| && e in Live(bs) && e.0 == held[k] && Live(bs') == Live(bs) - {e}
    ensures Holds(bs', held[..k] + held[k + 1..])
  {
    hide Tiled, Live;
    var rest := held[..k] + held[k + 1..];
    assert held == held[..k] + [held[k]] + held[k + 1..];
    forall p | p in rest ensures LiveFrom(bs', p) {
      var i :| 0 <= i < |rest| && rest[i] == p;
      assert p == held[if i < k then i else i + 1] && p != held[k];
      assert LiveFrom(bs, p);
    }
    forall f | f in Live(bs') ensures f.0 in rest {
      assert f.0 in held;
      if f.0 == held[k] { OneExtent(c, bs, e, f); }
    }
    forall i, j | 0 <= i < j < |rest| ensures rest[i] != rest[j] {
      assert rest[i] == held[if i < k then i else i + 1] && rest[j] == held[if j < k then j else j + 1];
    }
  }

  lemma {:induction false} CutHolds(c: Config, bs: seq<Block>, bs': seq<Block>, e: (nat, nat), size: nat, end: nat, held: seq<nat>)
    requires Tiled(c, bs) && Cut(c, bs, bs', e, size, end) && e in Live(bs) && Holds(bs, held)
    ensures Holds(bs', held)
  {
    hide Tiled, Live;
    forall p | p in held ensures LiveFrom(bs', p) {
      assert LiveFrom(bs, p);
      var f :| f in Live(bs) && f.0 == p;
      assert (if f == e then (e.0, end) else f) in Live(bs');
    }
  }

  lemma {:induction false} NothingHeld(c: Config, bs: seq<Block>)
    requires Tiled(c, bs) && Holds(bs, [])
    ensures bs == InitialLayout(c) && forall lfree :: Lowest(bs, lfree) ==> lfree == 0
  {
    assert Live(bs) == {} by {
      forall e | e in Live(bs) ensures false { }
    }
    AllFreeIsInitial(c, bs);
  }

  // ------------------------------------------------------------- the program

  class Allocator {
    const c: Config
    const ram: array<Mem>
    var lfree: nat
    ghost var blocks: seq<Block>

    /** Blocks tile the heap, their headers are linked, and lfree is right. */
    ghost predicate Valid()
      reads this, ram
    {
      && ram.Length == c.size + 1
      && Tiled(c, blocks)
      && Linked(ram[..], blocks)
      && Lowest(blocks, lfree)
    }

    /** The same, while a block that has just been freed is not joined yet. */
    ghost predicate Laid()
      reads this, ram
    {
      && ram.Length == c.size + 1
      && Legal(c)
      && Spaced(c, blocks)
      && Linked(ram[..], blocks)
      && Lowest(blocks, lfree)
    }

    /** mem_init */
    constructor (c: Config)
      requires Legal(c)
      ensures Valid() && this.c == c && fresh(ram)
      ensures blocks == InitialLayout(c) && Live(blocks) == {}
    {
      this.c := c;
      var cells := new Mem[c.size + 1](_ => Mem(0, 0, false));
      cells[0] := Mem(c.size, 0, false);
      cells[c.size] := Mem(c.size, c.size, true);
      ram := cells;
      lfree := 0;
      blocks := InitialLayout(c);
      new;
      ModUnique(0, c.align, 0, 0);
      assert forall k :: !Hole(blocks, k);
      assert ram[..][blocks[0].at] == Header(blocks, 0) && ram[..][blocks[1].at] == Header(blocks, 1);
      assert IsLowest(blocks, 0);
    }

    /** plug_holes, forward half */
    method PlugForward(mem: nat, ghost i: nat)
      requires Laid() && i < |blocks| - 1 && blocks[i] == Block(mem, false)
      modifies this`lfree, this`blocks, ram
      ensures Laid() && blocks == JoinNext(old(blocks), i)
    {
      hide Spaced, Linked, Lowest, Legal, JoinNext, Joined;
      PlugNext(c, ram[..], blocks, i, lfree);
      var nmem := ram[mem].next;
      if mem != nmem && !ram[nmem].used && nmem != c.size {
        lfree := Redirected(lfree, nmem, mem);
        Join(mem, ram[nmem].next);
      }
      blocks := JoinNext(blocks, i);
    }

    /** plug_holes, backward half */
    method PlugBackward(mem: nat, ghost i: nat)
      requires Laid() && i < |blocks| - 1 && blocks[i] == Block(mem, false)
      modifies this`lfree, this`blocks, ram
      ensures Laid() && blocks == JoinPrev(old(blocks), i)
    {
      hide Spaced, Linked, Lowest, Legal, JoinPrev, Joined;
      PlugPrev(c, ram[..], blocks, i, lfree);
      var pmem := ram[mem].prev;
      if pmem != mem && !ram[pmem].used {
        lfree := Redirected(lfree, mem, pmem);
        Join(pmem, ram[mem].next);
      }
      blocks := JoinPrev(blocks, i);
    }

    /** Links the block at `mem` to the one at `next`, and back. */
    method Join(mem: nat, next: nat)
      requires ram.Length == c.size + 1 && mem < next <= c.size
      modifies ram
      ensures ram[..] == Joined(c, old(ram[..]), mem, next)
    {
      ghost var cells := ram[..];
      ram[mem] := ram[mem].(next := next);
      assert ram[..] == cells[mem := cells[mem].(next := next)];
      if next != c.size { ram[next] := ram[next].(prev := mem); }
    }

    /** A pointer into the heap is where mem_malloc put it: nothing else in the
        heap passes for the header of a used block. */
    ghost predicate Genuine(rmem: Ptr)
      requires Valid()
      reads this, ram
    {
      rmem.At? && c.header <= rmem.offset && rmem.offset + c.min <= c.size && Multiple(rmem.offset, c.align) ==>
        var p := rmem.offset - c.header;
        ram[p].used && LinkValid(c, ram[..], p) ==> exists i :: 0 <= i < |blocks| - 1 && blocks[i] == Block(p, true)
    }

    /** mem_free */
    method Free(rmem: Ptr)
      requires Valid() && Genuine(rmem)
      modifies this`lfree, this`blocks, ram
      ensures Valid()
      ensures forall e :: e in old(Live(blocks)) && rmem == At(e.0 + c.header) ==> Live(blocks) == old(Live(blocks)) - {e}
      ensures (forall e :: e in old(Live(blocks)) ==> rmem != At(e.0 + c.header)) ==>
                blocks == old(blocks) && lfree == old(lfree) && ram[..] == old(ram[..])
    {
      hide Spaced, Linked, Lowest, Live, Aligned, NoHoles;
      if rmem.Null? || !Multiple(rmem.offset, c.align) {
        NotHandedOut(c, blocks, rmem);
        return;
      }
      if rmem.offset < c.header || rmem.offset + c.min > c.size {
        NotHandedOut(c, blocks, rmem);
        return;
      }
      var mem := rmem.offset - c.header;
      if !ram[mem].used || !LinkValid(c, ram[..], mem) {
        HandedOutIsLinked(c, ram[..], blocks, rmem);
        return;
      }
      ghost var i :| 0 <= i < |blocks| - 1 && blocks[i] == Block(mem, true);
      FreeBlock(mem, i);
    }

    method FreeBlock(mem: nat, ghost i: nat)
      requires Valid() && i < |blocks| - 1 && blocks[i] == Block(mem, true)
      modifies this`lfree, this`blocks, ram
      ensures Valid() && blocks == Freed(old(blocks), i)
      ensures forall e :: e in old(Live(blocks)) && mem == e.0 ==> Live(blocks) == old(Live(blocks)) - {e}
      ensures exists e :: e in old(Live(blocks)) && mem == e.0
    {
      hide Spaced, Linked, Lowest, Legal, Live, Aligned, NoHoles, Tiled, Freed, JoinNext, JoinPrev;
      Unfold(c, blocks);
      Neighbours(c, ram[..], blocks, i);
      FreedIsFree(c, blocks, i);
      FreedIs(blocks, i);
      LiveHere(c, blocks, i);
      LinkUsed(c, ram[..], blocks, i, false);
      LowestCleared(c, blocks, i, lfree);
      SetUsedTiles(c, blocks, i, false);
      ghost var cells := ram[..];
      ram[mem] := ram[mem].(used := false);
      assert ram[..] == cells[mem := cells[mem].(used := false)];
      blocks := blocks[i := Block(mem, false)];
      if mem < lfree { lfree := mem; }
      PlugForward(mem, i);
      PlugBackward(mem, i);
    }

    /** mem_malloc's scan, from the lowest free block to MEM_SIZE_ALIGNED - size */
    method FirstFit(size: nat) returns (r: Ptr, ghost i: nat)
      requires Valid() && size <= c.size
      ensures r.At? ==> Fits(c, blocks, i, size) && blocks[i].at == r.offset
      ensures r.At? ==> forall j :: 0 <= j < i ==> !Fits(c, blocks, j, size)
      ensures r.Null? ==> forall j :: !Fits(c, blocks, j, size)
    {
      i :| IsLowest(blocks, i) && lfree == blocks[i].at;
      var ptr := lfree;
      while ptr < c.size - size
        invariant i < |blocks| && ptr == blocks[i].at
        invariant forall j :: 0 <= j < i ==> !Fits(c, blocks, j, size)
        decreases |blocks| - i
      {
        Neighbours(c, ram[..], blocks, i);
        var mem := ram[ptr];
        if !mem.used && mem.next - (ptr + c.header) >= size {
          return At(ptr), i;
        }
        ptr := mem.next;
        i := i + 1;
      }
      r := Null;
      forall j ensures !Fits(c, blocks, j, size) {
        if i <= j { NoFitAbove(c, blocks, i, size, j); }
      }
    }

    /** mem_malloc's search for the next lowest free block */
    method AdvanceLowest(ghost i: nat)
      requires ram.Length == c.size + 1 && Spaced(c, blocks) && Linked(ram[..], blocks)
      requires i < |blocks| && lfree == blocks[i].at && forall j :: 0 <= j < i ==> blocks[j].used
      modifies this`lfree
      ensures Lowest(blocks, lfree)
    {
      ghost var k := i;
      var cur := lfree;
      assert ram[..][blocks[k].at] == Header(blocks, k);
      while ram[cur].used && cur != c.size
        invariant k < |blocks| && cur == blocks[k].at && ram[cur] == Header(blocks, k)
        invariant forall j :: 0 <= j < k ==> blocks[j].used
        decreases |blocks| - k
      {
        SameStart(c, blocks, k, |blocks| - 1);
        Neighbours(c, ram[..], blocks, k);
        cur := ram[cur].next;
        k := k + 1;
      }
      SameStart(c, blocks, k, |blocks| - 1);
      assert IsLowest(blocks, k);
      lfree := cur;
    }

    /** mem_malloc, once a block has been chosen */
    method Take(ptr: nat, size: nat, ghost i: nat)
      requires Valid() && Fits(c, blocks, i, size) && blocks[i].at == ptr && Multiple(size, c.align) && c.min <= size
      modifies this`lfree, this`blocks, ram
      ensures Valid() && blocks == Taken(c, old(blocks), i, size)
    {
      hide Spaced, Linked, Tiled, Lowest, Legal, Spliced, Taken, Multiple;
      TakePlan(c, ram[..], blocks, i, size, lfree);
      ghost var cells := ram[..];
      ram[ptr] := ram[ptr].(used := true);
      assert ram[..] == cells[ptr := cells[ptr].(used := true)];
      var next := ram[ptr].next;
      if next - (ptr + c.header) >= size + c.header + c.min {
        Splice(ptr, ptr + c.header + size, next);
      }
      blocks := Taken(c, blocks, i, size);
      if ptr == lfree { AdvanceLowest(i); }
    }

    /** Puts the header of a free block at `at` between its neighbours. */
    method Splice(prev: nat, at: nat, next: nat)
      requires ram.Length == c.size + 1 && prev < at < next <= c.size
      modifies ram
      ensures ram[..] == Spliced(c, old(ram[..]), prev, at, next)
    {
      ghost var cells := ram[..];
      ram[at] := Mem(next, prev, false);
      ram[prev] := ram[prev].(next := at);
      assert ram[..] == cells[at := Mem(next, prev, false)][prev := cells[prev].(next := at)];
      if next != c.size { ram[next] := ram[next].(prev := at); }
    }

    /** mem_malloc */
    method Malloc(size_in: nat) returns (r: Ptr, ghost end: nat)
      requires Valid() && size_in < c.limit
      modifies this`lfree, this`blocks, ram
      ensures Valid()
      ensures r.Null? <==> size_in == 0 || !HasRoom(c, old(blocks), c.header + DataSize(c, size_in))
      ensures r.Null? ==> blocks == old(blocks) && lfree == old(lfree) && ram[..] == old(ram[..])
      ensures r.At? ==> Granted(c, old(blocks), blocks, DataSize(c, size_in), r.offset, end)
    {
      hide Tiled, Linked, Lowest, Legal, Granted, Taken, Fits, DataSize, WrappedSize, HasRoom, Multiple;
      Unfold(c, blocks);
      end := 0;
      if size_in == 0 { return Null, 0; }
      var size := WrappedSize(c, size_in);
      WrapCaught(c, size_in);
      if size > c.size || size < size_in {
        NoRoomBeyond(c, blocks, DataSize(c, size_in));
        return Null, 0;
      }
      ghost var i;
      r, i := FirstFit(size);
      NoFitIffNoRoom(c, blocks, size);
      if r.Null? { return; }
      end := TakenFacts(c, blocks, i, size);
      Take(r.offset, size, i);
      r := At(r.offset + c.header);
    }

    /** mem_trim.  `tripped` says whether an LWIP_ASSERT on the way did not hold. */
    method Trim(rmem: Ptr, new_size: nat, ghost e: (nat, nat)) returns (r: Ptr, tripped: bool, ghost end: nat)
      requires Valid() && new_size < c.limit
      requires rmem.At? && rmem.offset < c.size ==> e in Live(blocks) && rmem.offset == e.0 + c.header
      modifies this`lfree, this`blocks, ram
      ensures Valid()
      ensures var size := DataSize(c, new_size);
        if size > c.size then r == Null && !tripped && blocks == old(blocks)
        else if rmem.Null? || rmem.offset >= c.size then r == rmem && tripped && blocks == old(blocks)
        else if e.0 + c.header + size > e.1 then r == Null && tripped && blocks == old(blocks)
        else
          && r == rmem
          && (tripped <==> e.1 == c.size && e.0 + c.header + size + c.header + c.min <= e.1)
          && Cut(c, old(blocks), blocks, e, size, end)
    {
      hide Tiled, Linked, Lowest, Legal, Live, Cut, Trimmed, DataSize, WrappedSize, Multiple;
      Unfold(c, blocks);
      hide Spaced, Aligned, NoHoles;
      end := 0;
      tripped := false;
      var newsize := WrappedSize(c, new_size);
      WrapCaught(c, new_size);
      if newsize > c.size || newsize < new_size { return Null, false, 0; }
      if rmem.Null? || rmem.offset >= c.size { return rmem, true, 0; }
      ghost var i := BlockOf(blocks, e);
      Neighbours(c, ram[..], blocks, i);
      var ptr := rmem.offset - c.header;
      var size := ram[ptr].next - ptr - c.header;
      if newsize > size { return Null, true, 0; }
      end := TrimFacts(c, blocks, i, newsize);
      if newsize == size { return rmem, false, end; }
      tripped := Shrink(ptr, newsize, i);
      r := rmem;
    }

    /**
     * Every program of allocations, frees and trims on what it holds.  `held` are
     * the blocks it still has at the end; a NULL from mem_malloc holds nothing.
     */
    method Run(ops: seq<Op>, start: seq<nat>) returns (held: seq<nat>)
      requires Valid() && Holds(blocks, start)
      requires forall i :: 0 <= i < |ops| && ops[i].MallocOp? ==> ops[i].size < c.limit
      requires forall i :: 0 <= i < |ops| && ops[i].TrimOp? ==> ops[i].size < c.limit
      modifies this`lfree, this`blocks, ram
      ensures Valid() && Holds(blocks, held)
    {
      hide Valid, Holds, Granted, Cut, Live, DataSize, HasRoom;
      held := start;
      var i := 0;
      while i < |ops|
        invariant i <= |ops| && Valid() && Holds(blocks, held)
      {
        match ops[i] {
          case MallocOp(size) =>
            var r;
            ghost var end, bs := 0, blocks;
            UnfoldValid();
            r, end := Malloc(size);
            if r.At? {
              UnfoldValid();
              GrantedHolds(c, bs, blocks, DataSize(c, size), r.offset, end, held);
              held := held + [r.offset - c.header];
            }
          case FreeOp(k) =>
            if k < |held| { held := FreeHeld(held, k); }
          case TrimOp(k, size) =>
            if k < |held| { TrimHeld(held, k, size); }
        }
        i := i + 1;
      }
    }

    lemma {:induction false} UnfoldValid()
      requires Valid()
      ensures Tiled(c, blocks) && Legal(c)
    {
    }

    method FreeHeld(held: seq<nat>, k: nat) returns (rest: seq<nat>)
      requires Valid() && Holds(blocks, held) && k < |held|
      modifies this`lfree, this`blocks, ram
      ensures Valid() && Holds(blocks, rest) && rest == held[..k] + held[k + 1..]
    {
      ghost var e := HeldExtent(blocks, held, k);
      ghost var bs := blocks;
      HeldGenuine(e);
      hide Tiled, Linked, Lowest, Live, Holds, Genuine;
      Free(At(held[k] + c.header));
      rest := held[..k] + held[k + 1..];
      DroppedHolds(c, bs, blocks, held, k, e);
    }

    lemma {:induction false} HeldGenuine(e: (nat, nat))
      requires Valid() && e in Live(blocks)
      ensures Genuine(At(e.0 + c.header))
    {
      var i := BlockOf(blocks, e);
    }

    method TrimHeld(held: seq<nat>, k: nat, size: nat)
      requires Valid() && Holds(blocks, held) && k < |held| && size < c.limit
      modifies this`lfree, this`blocks, ram
      ensures Valid() && Holds(blocks, held)
    {
      ghost var e := HeldExtent(blocks, held, k);
      ghost var bs := blocks;
      LiveDisjoint(c, blocks, e, e);
      hide Tiled, Linked, Lowest, Live, Holds, Cut, DataSize;
      var r, tripped;
      ghost var end;
      r, tripped, end := Trim(At(held[k] + c.header), size, e);
      if blocks != bs { CutHolds(c, bs, blocks, e, DataSize(c, size), end, held); }
    }

    /** When everything is given back, the heap is its one initial block again */
    method ReleaseAll(held: seq<nat>)
      requires Valid() && Holds(blocks, held)
      modifies this`lfree, this`blocks, ram
      ensures Valid() && blocks == InitialLayout(c) && lfree == 0
    {
      var rest := held;
      while rest != []
        invariant Valid() && Holds(blocks, rest)
        decreases |rest|
      {
        rest := FreeHeld(rest, 0);
      }
      NothingHeld(c, blocks);
    }

    /** mem_trim, when there is something to give up */
    method Shrink(ptr: nat, newsize: nat, ghost i: nat) returns (tripped: bool)
      requires Valid() && i < |blocks| - 1 && blocks[i] == Block(ptr, true)
      requires Multiple(newsize, c.align) && c.min <= newsize && ptr + c.header + newsize < blocks[i + 1].at
      modifies this`lfree, this`blocks, ram
      ensures Valid() && blocks == Trimmed(c, old(blocks), i, newsize)
      ensures tripped <==> old(blocks[i + 1].at) == c.size && ptr + c.header + newsize + c.header + c.min <= c.size
    {
      tripped := false;
      hide Spaced, Linked, Tiled, Lowest, Legal, Trimmed, Spliced, Multiple;
      TrimPlan(c, ram[..], blocks, i, newsize, lfree);
      var ptr2 := ptr + c.header + newsize;
      var mem2 := ram[ptr].next;
      var size := mem2 - ptr - c.header;
      if !ram[mem2].used {
        if lfree == mem2 { lfree := ptr2; }
        Splice(ptr, ptr2, ram[mem2].next);
      } else if newsize + c.header + c.min <= size {
        tripped := mem2 == c.size;
        if ptr2 < lfree { lfree := ptr2; }
        Splice(ptr, ptr2, mem2);
      }
      blocks := Trimmed(c, blocks, i, newsize);
    }
  }
  /** mem_trim's own assertion does not hold when the last block of the heap is
      shrunk by enough to leave a block behind. */
  method TrimOfLastBlock() returns (tripped: bool)
    ensures tripped
  {
    var c := Config(4, 8, 12, 64, 0x1_0000);
    var heap := new Allocator(c);
    assert Room(c, heap.blocks, 0, 64);
    var p, end := heap.Malloc(56);
    LiveDisjoint(c, heap.blocks, (0, end), (0, end));
    var q;
    ghost var shorter;
    q, tripped, shorter := heap.Trim(p, 12, (0, 64));
  }
}
