/** inet_chksum.c: the Internet checksum (sections 1 and 2 of RFC 1071). One specification,
    `Sum16`, is met by all three lwip_standard_chksum() versions at every alignment and on
    hosts of either byte order, and by the chained, pseudo-header and partial forms. */
module InetChksum {
  import opened SeqNum

  const ONES: int := 0xffff

  // ------------------------------------------------------------ one's complement sums

  /** FOLD_U32T */
  function Fold(x: nat): nat { x / 0x1_0000 + x % 0x1_0000 }

  /** The 16-bit value of a sum with end-around carry: congruent modulo 0xffff, and zero
      only for zero. */
  function Canon(x: nat): u16
    decreases x
  {
    if x <= ONES then x else Canon(x - ONES)
  }

  lemma {:induction false} CanonPlus(x: nat, k: nat)
    requires x > 0
    ensures Canon(x + ONES * k) == Canon(x)
    decreases k
  {
    if k > 0 { CanonPlus(x, k - 1); assert x + ONES * k - ONES == x + ONES * (k - 1); }
  }

  /** How often 0xffff went in. */
  lemma {:induction false} CanonQuotient(x: nat) returns (q: nat)
    ensures x == Canon(x) + ONES * q && (x > 0 ==> Canon(x) > 0)
    decreases x
  {
    if x <= ONES {
      q := 0;
    } else {
      q := CanonQuotient(x - ONES);
      q := q + 1;
    }
  }

  /** Sums that differ by a multiple of 0xffff fold to the same value, unless one is zero. */
  lemma {:induction false} CanonCongruent(x: nat, y: nat, k: int)
    requires x == y + ONES * k && (x == 0 <==> y == 0)
    ensures Canon(x) == Canon(y)
  {
    if x != 0 {
      if k >= 0 { CanonPlus(y, k); } else { CanonPlus(x, -k); }
    }
  }

  lemma {:induction false} CanonFold(x: nat)
    ensures Canon(Fold(x)) == Canon(x)
    ensures x < M32 ==> Fold(x) <= 2 * ONES
    ensures x <= 2 * ONES ==> Fold(x) == Canon(x)
  {
    assert x == 0x1_0000 * (x / 0x1_0000) + x % 0x1_0000;
    CanonCongruent(x, Fold(x), x / 0x1_0000);
  }

  /** Two folds settle any 32-bit sum. */
  lemma {:induction false} CanonFoldTwice(x: nat)
    requires x < M32
    ensures Fold(Fold(x)) == Canon(x)
  {
    CanonFold(x);
    CanonFold(Fold(x));
  }

  /** Folding early or late makes no difference. */
  lemma {:induction false} CanonAdd(x: nat, y: nat)
    ensures Canon(Canon(x) + y) == Canon(x + y)
  {
    var q := CanonQuotient(x);
    CanonCongruent(x + y, Canon(x) + y, q);
  }

  /** Exchanging the bytes of a word multiplies it by 256, carry wrapped around. */
  function Swap(w: u16): u16 { Canon(0x100 * w) }

  /** SWAP_BYTES_IN_WORD, and lwip_htons() on a little-endian host. */
  method SwapBytesInWord(w: u16) returns (r: u16)
    ensures r == Swap(w)
  {
    r := (w % 0x100) * 0x100 + w / 0x100;
    assert 0x100 * w == r + ONES * (w / 0x100);
    CanonCongruent(0x100 * w, r, w / 0x100);
  }

  lemma {:induction false} SwapCanon(x: nat)
    ensures Swap(Canon(x)) == Canon(0x100 * x)
  {
    CanonScale(x);
  }

  lemma {:induction false} CanonScale(x: nat)
    ensures Canon(0x100 * Canon(x)) == Canon(0x100 * x)
  {
    var q := CanonQuotient(x);
    CanonCongruent(0x100 * x, 0x100 * Canon(x), 0x100 * q);
  }

  lemma {:induction false} SwapTwice(w: u16)
    ensures Swap(Swap(w)) == w
  {
    CanonScale(0x100 * w);
    CanonCongruent(0x1_0000 * w, w, w);
  }

  // ------------------------------------------------------------- sums over memory

  /** The u16_t at an address, given its two bytes; `le` is the host's byte order. */
  function Word(le: bool, first: byte, second: byte): u16 {
    if le then first + 0x100 * second else 0x100 * first + second
  }

  function WordSum(le: bool, s: seq<byte>): nat
    decreases |s|
  {
    if s == [] then 0
    else if |s| == 1 then Word(le, s[0], 0)
    else Word(le, s[0], s[1]) + WordSum(le, s[2..])
  }

  /** The non-inverted Internet sum in host order. */
  function Sum16(le: bool, s: seq<byte>): u16 { Canon(WordSum(le, s)) }

  lemma {:induction false} WordSumEven(le: bool, a: seq<byte>, b: seq<byte>)
    requires |a| % 2 == 0
    ensures WordSum(le, a + b) == WordSum(le, a) + WordSum(le, b)
    decreases |a|
  {
    if a == [] {
      assert a + b == b;
    } else {
      assert (a + b)[2..] == a[2..] + b;
      WordSumEven(le, a[2..], b);
    }
  }

  /** A sum that starts one byte off is the aligned sum of the rest, times 256. */
  lemma {:induction false} WordSumShift(le: bool, x: byte, b: seq<byte>) returns (k: nat)
    ensures WordSum(le, [x] + b) + ONES * k == Word(le, x, 0) + 0x100 * WordSum(le, b)
    ensures WordSum(le, [x] + b) == 0 <==> x == 0 && WordSum(le, b) == 0
    decreases |b|
  {
    if b == [] {
      assert [x] + b == [x];
      k := 0;
    } else if |b| == 1 {
      assert ([x] + b)[2..] == [];
      k := if le then 0 else b[0];
    } else {
      assert ([x] + b)[2..] == [b[1]] + b[2..];
      var j := WordSumShift(le, b[1], b[2..]);
      k := j + if le then b[1] else b[0];
    }
  }

  lemma {:induction false} WordSumOdd(le: bool, a: seq<byte>, b: seq<byte>) returns (k: nat)
    requires |a| % 2 == 1
    ensures WordSum(le, a + b) + ONES * k == WordSum(le, a) + 0x100 * WordSum(le, b)
    ensures WordSum(le, a + b) == 0 <==> WordSum(le, a) == 0 && WordSum(le, b) == 0
  {
    var c, x := a[..|a| - 1], a[|a| - 1];
    assert a + b == c + ([x] + b) && a == c + [x];
    WordSumEven(le, c, [x] + b);
    WordSumEven(le, c, [x]);
    k := WordSumShift(le, x, b);
    assert WordSum(le, [x]) == Word(le, x, 0);
  }

  /** Concatenation: an odd first part puts the second part's bytes in the other lane. */
  lemma {:induction false} Sum16Concat(le: bool, a: seq<byte>, b: seq<byte>)
    ensures |a| % 2 == 0 ==> Sum16(le, a + b) == Canon(WordSum(le, a) + WordSum(le, b))
    ensures |a| % 2 == 1 ==> Sum16(le, a + b) == Canon(WordSum(le, a) + 0x100 * WordSum(le, b))
  {
    if |a| % 2 == 0 {
      WordSumEven(le, a, b);
    } else {
      var k := WordSumOdd(le, a, b);
      CanonCongruent(WordSum(le, a) + 0x100 * WordSum(le, b), WordSum(le, a + b), k);
    }
  }

  /** "Host endianness is irrelevant": the two byte orders give byte-swapped sums. */
  lemma {:induction false} ByteOrder(s: seq<byte>) returns (k: nat)
    ensures 0x100 * WordSum(false, s) == WordSum(true, s) + ONES * k
    ensures WordSum(false, s) == 0 <==> WordSum(true, s) == 0
    decreases |s|
  {
    if s == [] {
      k := 0;
    } else if |s| == 1 {
      k := s[0];
    } else {
      var j := ByteOrder(s[2..]);
      k := j + s[0];
    }
  }

  lemma {:induction false} ByteOrderSwaps(s: seq<byte>)
    ensures Swap(Sum16(false, s)) == Sum16(true, s)
  {
    var k := ByteOrder(s);
    SwapCanon(WordSum(false, s));
    CanonCongruent(0x100 * WordSum(false, s), WordSum(true, s), k);
  }

  lemma {:induction false} WordSumBound(le: bool, s: seq<byte>)
    ensures WordSum(le, s) <= ONES * ((|s| + 1) / 2)
    decreases |s|
  {
    if |s| >= 2 { WordSumBound(le, s[2..]); }
  }

  /** One more word of an even prefix. */
  lemma {:induction false} WordSumStep(le: bool, s: seq<byte>, i: nat)
    requires i % 2 == 0 && i < |s|
    ensures i + 1 < |s| ==> WordSum(le, s[..i + 2]) == WordSum(le, s[..i]) + Word(le, s[i], s[i + 1])
    ensures i + 1 == |s| ==> WordSum(le, s) == WordSum(le, s[..i]) + Word(le, s[i], 0)
  {
    if i + 1 < |s| {
      assert s[..i + 2] == s[..i] + [s[i], s[i + 1]];
      WordSumEven(le, s[..i], [s[i], s[i + 1]]);
      assert [s[i], s[i + 1]][2..] == [];
    } else {
      assert s == s[..i] + [s[i]];
      WordSumEven(le, s[..i], [s[i]]);
    }
  }

  // ------------------------------------------------- lwip_standard_chksum(), three times

  /** Version 1: octets in network order, reordered at the end. */
  method Chksum1(le: bool, data: seq<byte>) returns (r: u16)
    requires |data| <= 0x2_0000
    ensures r == Sum16(le, data)
  {
    var acc: u32 := 0;
    var i := 0;
    WordSumBound(false, data);
    while |data| - i > 1
      invariant i % 2 == 0 && i <= |data| && acc == WordSum(false, data[..i])
    {
      WordSumStep(false, data, i);
      WordSumBound(false, data[..i + 2]);
      acc := acc + Word(false, data[i], data[i + 1]);
      i := i + 2;
    }
    assert i == |data| ==> data[..i] == data;
    if i < |data| {
      WordSumStep(false, data, i);
      acc := acc + Word(false, data[i], 0);
    }
    CanonFoldTwice(acc);
    CanonFold(acc);
    acc := Fold(acc);
    if acc > 0xffff {
      acc := Fold(acc);
    }
    ByteOrderSwaps(data);
    r := acc;
    if le {
      r := SwapBytesInWord(acc);
    }
  }

  /** Reads the u16_t at offset `i` of a buffer at address `at`, which must be even. */
  function Load16(le: bool, s: seq<byte>, i: nat, at: nat): u16
    requires i + 2 <= |s| && (at + i) % 2 == 0
  {
    Word(le, s[i], s[i + 1])
  }

  /** Adds the words of an even-aligned buffer; returns the sum and the index of a left-over byte. */
  method AddWords(le: bool, data: seq<byte>, start: u32, at: nat) returns (sum: u32, i: nat)
    requires start + ONES * (|data| / 2) < M32 && (|data| > 0 ==> at % 2 == 0)
    ensures i == |data| - |data| % 2 && sum == start + WordSum(le, data[..i])
  {
    sum, i := start, 0;
    while |data| - i > 1
      invariant i % 2 == 0 && i <= |data| && sum == start + WordSum(le, data[..i])
      invariant WordSum(le, data[..i]) <= ONES * (i / 2)
    {
      WordSumStep(le, data, i);
      sum := sum + Load16(le, data, i, at);
      i := i + 2;
    }
  }

  /** What the end bytes t[0] (tail) and t[1] (head) add up to around an even middle. */
  lemma {:induction false} EndBytes(le: bool, data: seq<byte>, odd: bool, body: seq<byte>, i: nat, t0: byte, t1: byte)
    requires body == if odd && data != [] then data[1..] else data
    requires i == |body| - |body| % 2
    requires t1 == if odd && data != [] then data[0] else 0
    requires t0 == if i < |body| then body[i] else 0
    ensures var x := WordSum(le, body[..i]) + Word(le, t0, t1);
      Sum16(le, data) == if odd then Swap(Canon(x)) else Canon(x)
  {
    var x := WordSum(le, body[..i]) + Word(le, t0, t1);
    if i < |body| { WordSumStep(le, body, i); } else { assert body[..i] == body; }
    assert x == WordSum(le, body) + Word(le, 0, t1);
    if odd {
      SwapCanon(x);
      if data != [] {
        assert data == [t1] + body;
        var k := WordSumShift(le, t1, body);
        CanonCongruent(0x100 * x, WordSum(le, data), k + if le then t1 else 0);
      }
    }
  }

  /** Version 2: two bytes at a time from any alignment. */
  method Chksum2(le: bool, data: seq<byte>, addr: nat) returns (r: u16)
    requires |data| <= 0x2_0000
    ensures r == Sum16(le, data)
  {
    var odd := addr % 2 == 1;
    var pb := data;
    var t0: byte, t1: byte := 0, 0;
    var at := addr;
    if odd && |pb| > 0 {
      t1 := pb[0];
      pb := pb[1..];
      at := at + 1;
    }
    var sum, i := AddWords(le, pb, 0, at);
    if i < |pb| {
      t0 := pb[i];
    }
    WordSumBound(le, pb[..i]);
    EndBytes(le, data, odd, pb, i, t0, t1);
    r := FinishSum(sum, Word(le, t0, t1), odd, sum);
  }

  /** The u32_t at an address, as the two u16_t it overlays. */
  function Long(le: bool, s: seq<byte>, i: nat): u32
    requires i + 4 <= |s|
  {
    if le then Word(le, s[i], s[i + 1]) + 0x1_0000 * Word(le, s[i + 2], s[i + 3])
    else 0x1_0000 * Word(le, s[i], s[i + 1]) + Word(le, s[i + 2], s[i + 3])
  }

  /** Reads the u32_t at offset `i` of a buffer at address `at`, which must be a multiple of four. */
  function Load32(le: bool, s: seq<byte>, i: nat, at: nat): u32
    requires i + 4 <= |s| && (at + i) % 4 == 0
  {
    Long(le, s, i)
  }

  /** A 32-bit addition with its carry added back: modulo 2^32 - 1, a multiple of 0xffff. */
  method AddWithCarry(sum: u32, x: u32) returns (tmp: u32)
    ensures Canon(tmp) == Canon(sum + x)
  {
    tmp := Wrap(sum + x);
    if tmp < sum {
      tmp := tmp + 1;
      assert sum + x == tmp + (M32 - 1);
      CanonCongruent(sum + x, tmp, 0x1_0001);
    }
  }

  /** Reading one u32_t is reading two u16_t, as far as the folded sum can tell. */
  lemma {:induction false} CanonLong(le: bool, s: seq<byte>, i: nat)
    requires i % 2 == 0 && i + 4 <= |s|
    ensures Canon(WordSum(le, s[..i]) + Long(le, s, i)) == Canon(WordSum(le, s[..i + 4]))
  {
    WordSumStep(le, s, i);
    WordSumStep(le, s, i + 2);
    CanonCongruent(WordSum(le, s[..i]) + Long(le, s, i), WordSum(le, s[..i + 4]),
                   if le then Word(le, s[i + 2], s[i + 3]) else Word(le, s[i], s[i + 1]));
  }

  lemma {:induction false} CanonReplace(a: nat, b: nat, y: nat)
    requires Canon(a) == Canon(b)
    ensures Canon(a + y) == Canon(b + y)
  {
    CanonAdd(a, y);
    CanonAdd(b, y);
  }

  /** `sum + *pl++` with the carry added back. */
  method AddLong(le: bool, ps: seq<byte>, sum: u32, i: nat, at: nat) returns (tmp: u32)
    requires (at + i) % 4 == 0 && i % 2 == 0 && i + 4 <= |ps| && Canon(sum) == Canon(WordSum(le, ps[..i]))
    ensures Canon(tmp) == Canon(WordSum(le, ps[..i + 4]))
  {
    CanonReplace(sum, WordSum(le, ps[..i]), Long(le, ps, i));
    CanonLong(le, ps, i);
    tmp := AddWithCarry(sum, Load32(le, ps, i, at));
  }

  /** The unrolled 8-byte loop. */
  method AddLongs(le: bool, ps: seq<byte>, start: u32, from: nat, at: nat) returns (sum: u32, i: nat)
    requires (|ps| > 1 ==> (at + from) % 4 == 0) && from % 2 == 0 && from <= |ps| && start == WordSum(le, ps[..from])
    ensures i % 2 == 0 && from <= i <= |ps| && |ps| - i <= 7
    ensures Canon(sum) == Canon(WordSum(le, ps[..i]))
  {
    sum, i := start, from;
    while |ps| - i > 7
      invariant i % 2 == 0 && from <= i <= |ps| && Canon(sum) == Canon(WordSum(le, ps[..i]))
      invariant |ps| > 1 ==> (at + i) % 4 == 0
    {
      var tmp := AddLong(le, ps, sum, i, at);            // ping
      sum := AddLong(le, ps, tmp, i + 4, at);            // pong
      i := i + 8;
    }
  }

  /** The fewer than eight bytes that remain, on a folded sum. */
  method AddRest(le: bool, pb: seq<byte>, start: u32, from: nat, at: nat) returns (sum: u32, i: nat)
    requires (|pb| > 0 ==> at % 2 == 0) && from % 2 == 0 && from <= |pb| <= from + 7 && start <= 2 * ONES
    requires Canon(start) == Canon(WordSum(le, pb[..from]))
    ensures i == |pb| - |pb| % 2 && sum <= 5 * ONES && Canon(sum) == Canon(WordSum(le, pb[..i]))
  {
    hide Canon, WordSum;
    sum, i := start, from;
    while |pb| - i > 1
      invariant i % 2 == 0 && from <= i <= |pb| && 2 * sum <= 4 * ONES + ONES * (i - from)
      invariant Canon(sum) == Canon(WordSum(le, pb[..i]))
    {
      WordSumStep(le, pb, i);
      CanonReplace(sum, WordSum(le, pb[..i]), Word(le, pb[i], pb[i + 1]));
      sum := sum + Load16(le, pb, i, at);
      i := i + 2;
    }
  }

  lemma {:induction false} NoWords(le: bool, s: seq<byte>)
    ensures WordSum(le, s[..0]) == 0
  {
    assert s[..0] == [];
  }

  /** From the 2-byte boundary to the 4-byte boundary. */
  method AlignToLong(le: bool, pb: seq<byte>, at: nat) returns (sum: u32, i: nat)
    requires |pb| > 0 ==> at % 2 == 0
    ensures i % 2 == 0 && i <= |pb| && sum == WordSum(le, pb[..i]) && (|pb| > 1 ==> (at + i) % 4 == 0)
  {
    hide WordSum, Word;
    NoWords(le, pb);
    sum, i := 0, 0;
    if at % 4 != 0 && |pb| > 1 {
      WordSumStep(le, pb, 0);
      assert pb[..0 + 2] == pb[..2];
      sum := Load16(le, pb, 0, at);
      i := 2;
    }
  }

  /** Version 3: eight bytes per turn, carries added back, any length and alignment. */
  method Chksum3(le: bool, data: seq<byte>, addr: nat) returns (r: u16)
    ensures r == Sum16(le, data)
  {
    hide Canon, WordSum, Sum16, Swap;
    var odd := addr % 2 == 1;
    var pb := data;
    var t0: byte, t1: byte := 0, 0;
    var at := addr;
    if odd && |pb| > 0 {
      t1 := pb[0];
      pb := pb[1..];
      at := at + 1;
    }
    var sum, i := AlignToLong(le, pb, at);
    sum, i := AddLongs(le, pb, sum, i, at);
    CanonFold(sum);
    sum := Fold(sum);
    sum, i := AddRest(le, pb, sum, i, at);
    if i < |pb| {
      t0 := pb[i];
    }
    EndBytes(le, data, odd, pb, i, t0, t1);
    r := FinishSum(sum, Word(le, t0, t1), odd, WordSum(le, pb[..i]));
  }

  /** The odd end bytes are added, then two folds, and the swap for an odd start. */
  method FinishSum(sum: u32, t: u16, odd: bool, ghost x: nat) returns (r: u16)
    requires sum + t < M32 && Canon(sum) == Canon(x)
    ensures r == if odd then Swap(Canon(x + t)) else Canon(x + t)
  {
    CanonReplace(sum, x, t);
    CanonFoldTwice(sum + t);
    var s := Fold(sum + t);
    s := Fold(s);
    r := s;
    if odd {
      r := SwapBytesInWord(s);
    }
  }

  // ------------------------------------------------------------ chains and pseudo headers

  /** A pbuf chain, one byte string per pbuf. */
  type Chain = seq<seq<byte>>

  function Flat(c: Chain): seq<byte> { if c == [] then [] else c[0] + Flat(c[1..]) }

  lemma {:induction false} FlatSnoc(c: Chain, i: nat)
    requires i < |c|
    ensures Flat(c[..i + 1]) == Flat(c[..i]) + c[i]
  {
    if i == 0 {
      assert |c[..1][1..]| == 0 && c[..1][0] == c[0];
    } else {
      assert c[..i + 1][1..] == c[1..][..i] && c[..i][1..] == c[1..][..i - 1];
      FlatSnoc(c[1..], i - 1);
    }
  }

  function Lane(swapped: bool, w: u16): u16 { if swapped then Swap(w) else w }

  lemma {:induction false} AddSameLane(x: nat, y: nat)
    ensures Fold(Canon(x) + Canon(y)) == Canon(x + y)
  {
    CanonFold(Canon(x) + Canon(y));
    CanonAdd(x, Canon(y));
    CanonAdd(y, x);
  }

  lemma {:induction false} AddOtherLane(x: nat, y: nat, z: nat, k: int)
    requires z + ONES * k == x + 0x100 * y && (z == 0 <==> x == 0 && y == 0)
    ensures Fold(Swap(Canon(x)) + Canon(y)) == Swap(Canon(z))
  {
    var p := CanonQuotient(x);
    var q := CanonQuotient(z);
    AddScaled(Canon(x), y, Canon(z), k + q - p);
  }

  lemma {:induction false} AddScaled(x: u16, y: nat, z: u16, k: int)
    requires z + ONES * k == x + 0x100 * y && (z == 0 <==> x == 0 && y == 0)
    ensures Fold(Swap(x) + Canon(y)) == Swap(z)
  {
    AddSameLane(0x100 * x, y);
    assert 0x100 * z == 0x100 * x + y + ONES * (y - 0x100 * k);
    CanonCongruent(0x100 * z, 0x100 * x + y, y - 0x100 * k);
  }

  /** Where a chain loop stands: `done` was summed on top of acc0; after an odd number of
      bytes the accumulator is kept swapped so that the next piece adds in its own lane. */
  ghost predicate ChainAcc(le: bool, acc0: nat, done: seq<byte>, swapped: bool, acc: u16) {
    acc == Lane(swapped, Canon(acc0 + WordSum(le, done)))
  }

  /** Adding a piece in its lane, for both parities. */
  lemma {:induction false} AddInLane(le: bool, acc0: nat, swapped: bool, done: seq<byte>, piece: seq<byte>)
    requires swapped == (|done| % 2 == 1)
    ensures Fold(Lane(swapped, Canon(acc0 + WordSum(le, done))) + Sum16(le, piece))
         == Lane(swapped, Canon(acc0 + WordSum(le, done + piece)))
  {
    hide WordSum, Canon, Fold, Swap;
    if swapped {
      var k := WordSumOdd(le, done, piece);
      AddOtherLane(acc0 + WordSum(le, done), WordSum(le, piece), acc0 + WordSum(le, done + piece), k);
    } else {
      WordSumEven(le, done, piece);
      AddSameLane(acc0 + WordSum(le, done), WordSum(le, piece));
    }
  }

  lemma {:induction false} LaneToggle(b: bool, w: u16)
    ensures Swap(Lane(b, w)) == Lane(!b, w)
  {
    SwapTwice(w);
  }

  /** One turn of every chain loop: add the next piece, fold once, swap if the pbuf is odd. */
  method AddPiece(le: bool, acc: u16, swapped: bool, piece: seq<byte>, pbufLen: nat, ghost acc0: nat, ghost done: seq<byte>)
    returns (acc': u16, swapped': bool)
    requires ChainAcc(le, acc0, done, swapped, acc) && swapped == (|done| % 2 == 1)
    ensures ChainAcc(le, acc0, done + piece, swapped', acc') && swapped' == (swapped != (pbufLen % 2 != 0))
  {
    AddInLane(le, acc0, swapped, done, piece);
    acc', swapped' := Fold(acc + Sum16(le, piece)), swapped;
    if pbufLen % 2 != 0 {
      LaneToggle(swapped, Canon(acc0 + WordSum(le, done + piece)));
      swapped' := !swapped';
      acc' := SwapBytesInWord(acc');
    }
  }

  /** inet_chksum_pbuf() */
  method ChksumPbuf(le: bool, p: Chain) returns (r: u16)
    ensures r == ONES - Sum16(le, Flat(p))
  {
    var acc := SumChain(le, p, 0);
    assert 0 + WordSum(le, Flat(p)) == WordSum(le, Flat(p));
    r := ONES - acc;
  }

  /** The loop shared by inet_chksum_pbuf() and inet_cksum_pseudo_base(). */
  method SumChain(le: bool, p: Chain, acc0: u16) returns (acc: u16)
    ensures acc == Canon(acc0 + WordSum(le, Flat(p)))
  {
    var swapped := false;
    acc := acc0;
    assert Flat(p[..0]) == [];
    var i := 0;
    while i < |p|
      invariant i <= |p| && swapped == (|Flat(p[..i])| % 2 == 1)
      invariant ChainAcc(le, acc0, Flat(p[..i]), swapped, acc)
    {
      FlatSnoc(p, i);
      acc, swapped := AddPiece(le, acc, swapped, p[i], |p[i]|, acc0, Flat(p[..i]));
      i := i + 1;
    }
    assert p[..i] == p;
    acc := Unswap(le, acc0, Flat(p), swapped, acc);
  }

  /** The bytes a partial checksum is over: the loop ends with the chain. */
  function Covered(p: Chain, chksumLen: nat): seq<byte> {
    if chksumLen <= |Flat(p)| then Flat(p)[..chksumLen] else Flat(p)
  }

  /** The loop of inet_cksum_pseudo_partial_base(): the first `chksumLen` bytes only. A pbuf
      summed in part swaps by its whole length, which the final swap takes back. `tripped` is the failed
      assertion that less than 0x7fff bytes are left. */
  method SumChainPartial(le: bool, p: Chain, chksumLen: u16, acc0: u16) returns (acc: u16, tripped: bool)
    ensures tripped <==> p != [] && chksumLen - |p[0]| >= 0x7fff
    ensures !tripped ==> acc == Canon(acc0 + WordSum(le, Covered(p, chksumLen)))
  {
    hide Canon, WordSum, Lane, ChainAcc;
    var swapped := false;
    var left: u16 := chksumLen;
    acc, tripped := acc0, false;
    assert Flat(p[..0]) == [];
    ghost var done: seq<byte> := [];
    var i := 0;
    NothingSummed(le, acc0);
    while i < |p| && left > 0
      invariant i <= |p| && left + |done| == chksumLen && done <= Flat(p)
      invariant left > 0 ==> done == Flat(p[..i]) && swapped == (|done| % 2 == 1)
      invariant ChainAcc(le, acc0, done, swapped, acc)
      invariant if i == 0 then left == chksumLen else chksumLen - |p[0]| < 0x7fff && left < 0x7fff
    {
      FlatSnoc(p, i);
      FlatPrefix(p, i + 1);
      var chklen := if |p[i]| > left then left else |p[i]|;
      acc, swapped := AddPiece(le, acc, swapped, p[i][..chklen], |p[i]|, acc0, done);
      done := done + p[i][..chklen];
      left := left - chklen;
      if left >= 0x7fff {
        tripped := true;
        return;
      }
      i := i + 1;
      assert i == |p| ==> p[..i] == p;
    }
    if left > 0 { assert p[..i] == p; }
    assert done == Flat(p)[..|done|] && done == Covered(p, chksumLen);
    acc := Unswap(le, acc0, done, swapped, acc);
  }

  lemma {:induction false} NothingSummed(le: bool, acc0: u16)
    ensures ChainAcc(le, acc0, [], false, acc0)
  {
  }

  /** The swap behind every chain loop. */
  method Unswap(le: bool, ghost acc0: nat, ghost done: seq<byte>, swapped: bool, acc: u16) returns (acc': u16)
    requires ChainAcc(le, acc0, done, swapped, acc)
    ensures acc' == Canon(acc0 + WordSum(le, done))
  {
    acc' := acc;
    if swapped {
      SwapTwice(Canon(acc0 + WordSum(le, done)));
      acc' := SwapBytesInWord(acc);
    }
  }

  lemma {:induction false} FlatPrefix(c: Chain, i: nat)
    requires i <= |c|
    ensures Flat(c[..i]) <= Flat(c)
  {
    if i > 0 {
      assert c[..i][1..] == c[1..][..i - 1] && c[..i][0] == c[0];
      FlatPrefix(c[1..], i - 1);
    }
  }

  /** Pseudo-header start value from the 16-bit halves of the two addresses. */
  method SumAddresses(halves: seq<u16>) returns (acc: u16)
    requires |halves| <= 16
    ensures acc == Canon(Total(halves))
  {
    var sum := 0;
    var i := 0;
    assert halves[..0] == [];
    while i < |halves|
      invariant i <= |halves| && sum == Total(halves[..i]) && sum <= ONES * i
    {
      TotalSnoc(halves, i);
      sum := sum + halves[i];
      i := i + 1;
    }
    assert halves[..i] == halves;
    CanonFoldTwice(sum);
    sum := Fold(sum);
    acc := Fold(sum);
  }

  function Total(ws: seq<u16>): nat { if ws == [] then 0 else ws[0] + Total(ws[1..]) }

  lemma {:induction false} TotalSnoc(ws: seq<u16>, i: nat)
    requires i < |ws|
    ensures Total(ws[..i + 1]) == Total(ws[..i]) + ws[i]
  {
    if i == 0 {
      assert |ws[..1][1..]| == 0 && |ws[..0]| == 0;
    } else {
      assert ws[..i + 1][1..] == ws[1..][..i] && ws[..i][1..] == ws[1..][..i - 1];
      TotalSnoc(ws[1..], i - 1);
    }
  }

  /** lwip_htons() */
  function Htons(le: bool, w: u16): u16 { if le then Swap(w) else w }

  /** What every checksum over a pseudo header and `body` must be. */
  function PseudoChksum(le: bool, halves: seq<u16>, proto: byte, protoLen: u16, body: seq<byte>): u16 {
    ONES - Canon(Total(halves) + WordSum(le, body) + Htons(le, proto) + Htons(le, protoLen))
  }

  /** Protocol and length are added, the sum is folded twice and inverted. */
  method FinishPseudo(acc: u16, p: u16, l: u16, ghost a: nat, ghost x: nat) returns (r: u16)
    requires acc == Canon(Canon(a) + x)
    ensures r == ONES - Canon(a + x + p + l)
  {
    hide Canon;
    CanonFoldTwice(acc + p + l);
    CanonAdd(a, x);
    CanonAdd(a + x, p + l);
    var sum := Fold(acc + p + l);
    sum := Fold(sum);
    r := ONES - sum;
  }

  /** The 16-bit halves of addresses in memory. */
  function Halves(le: bool, addresses: seq<byte>): seq<u16>
    requires |addresses| % 2 == 0
    decreases |addresses|
  {
    if addresses == [] then [] else [Word(le, addresses[0], addresses[1])] + Halves(le, addresses[2..])
  }

  /** The pseudo header as it would stand in memory. */
  function PseudoHeader(addresses: seq<byte>, proto: byte, protoLen: u16): seq<byte> {
    addresses + [0, proto, protoLen / 0x100, protoLen % 0x100]
  }

  lemma {:induction false} HtonsWord(le: bool, w: u16)
    ensures Htons(le, w) == Word(le, w / 0x100, w % 0x100)
  {
    if le { CanonCongruent(0x100 * w, w / 0x100 + 0x100 * (w % 0x100), w / 0x100); }
  }

  lemma {:induction false} HalvesCount(le: bool, addresses: seq<byte>)
    requires |addresses| % 2 == 0
    ensures |Halves(le, addresses)| == |addresses| / 2
    decreases |addresses|
  {
    if addresses != [] { HalvesCount(le, addresses[2..]); }
  }

  lemma {:induction false} HalvesTotal(le: bool, addresses: seq<byte>)
    requires |addresses| % 2 == 0
    ensures Total(Halves(le, addresses)) == WordSum(le, addresses)
    decreases |addresses|
  {
    if addresses != [] {
      HalvesTotal(le, addresses[2..]);
      assert Halves(le, addresses)[1..] == Halves(le, addresses[2..]);
    }
  }

  lemma {:induction false} TwoBytes(le: bool, a: byte, b: byte)
    ensures WordSum(le, [a, b]) == Word(le, a, b)
  {
    assert |[a, b][2..]| == 0;
  }

  lemma {:induction false} FourBytes(le: bool, a: byte, b: byte, c: byte, d: byte)
    ensures WordSum(le, [a, b, c, d]) == Word(le, a, b) + Word(le, c, d)
  {
    TwoBytes(le, a, b);
    TwoBytes(le, c, d);
    WordSumEven(le, [a, b], [c, d]);
    assert [a, b] + [c, d] == [a, b, c, d];
  }

  lemma {:induction false} PseudoHeaderSum(le: bool, addresses: seq<byte>, proto: byte, protoLen: u16)
    requires |addresses| % 2 == 0
    ensures WordSum(le, PseudoHeader(addresses, proto, protoLen))
         == Total(Halves(le, addresses)) + Htons(le, proto) + Htons(le, protoLen)
  {
    HalvesTotal(le, addresses);
    HtonsWord(le, proto);
    HtonsWord(le, protoLen);
    WordSumEven(le, addresses, [0, proto, protoLen / 0x100, protoLen % 0x100]);
    FourBytes(le, 0, proto, protoLen / 0x100, protoLen % 0x100);
  }

  /** The pseudo-header checksum is the inverted Internet sum over the bytes of addresses, zero, protocol, length and
      body, in either byte order (section 3.1 of RFC 793). */
  lemma {:induction false} PseudoOnBytes(le: bool, addresses: seq<byte>, proto: byte, protoLen: u16, body: seq<byte>)
    requires |addresses| % 2 == 0
    ensures PseudoChksum(le, Halves(le, addresses), proto, protoLen, body)
         == ONES - Sum16(le, PseudoHeader(addresses, proto, protoLen) + body)
  {
    PseudoHeaderSum(le, addresses, proto, protoLen);
    Sum16Concat(le, PseudoHeader(addresses, proto, protoLen), body);
  }

  /** A u16_t in memory */
  function Stored(le: bool, w: u16): seq<byte> {
    if le then [w % 0x100, w / 0x100] else [w / 0x100, w % 0x100]
  }

  lemma {:induction false} ThreeParts(le: bool, a: seq<byte>, b: seq<byte>, c: seq<byte>)
    requires |a| % 2 == 0 && |b| % 2 == 0
    ensures WordSum(le, a + b + c) == WordSum(le, a) + WordSum(le, b) + WordSum(le, c)
  {
    WordSumEven(le, a + b, c);
    WordSumEven(le, a, b);
  }

  /** What the receiver tests: with the checksum in its zeroed field, the sum over pseudo header and segment is
      0xffff, whatever the receiver's byte order. */
  lemma {:induction false} ReceiverAccepts(le: bool, le': bool, addresses: seq<byte>, proto: byte, protoLen: u16, body: seq<byte>, at: nat)
    requires |addresses| % 2 == 0 && at % 2 == 0 && at + 2 <= |body| && body[at] == 0 && body[at + 1] == 0
    ensures var c := PseudoChksum(le, Halves(le, addresses), proto, protoLen, body);
      Sum16(le', PseudoHeader(addresses, proto, protoLen) + body[..at] + Stored(le, c) + body[at + 2..]) == ONES
  {
    hide PseudoChksum, Canon, WordSum;
    var hdr, c := PseudoHeader(addresses, proto, protoLen), PseudoChksum(le, Halves(le, addresses), proto, protoLen, body);
    var a, z, b := hdr + body[..at], [0, 0], body[at + 2..];
    PseudoOnBytes(le, addresses, proto, protoLen, body);
    assert hdr + body == a + z + b;
    ThreeParts(le, a, z, b);
    ThreeParts(le, a, Stored(le, c), b);
    TwoBytes(le, 0, 0);
    StoredWord(le, c);
    InvertedSum(WordSum(le, a + z + b));
    assert Sum16(le, a + Stored(le, c) + b) == ONES;
    ByteOrderSwaps(a + Stored(le, c) + b);
    SwapOnes(Sum16(false, a + Stored(le, c) + b));
  }

  lemma {:induction false} StoredWord(le: bool, w: u16)
    ensures WordSum(le, Stored(le, w)) == w
  {
    TwoBytes(le, Stored(le, w)[0], Stored(le, w)[1]);
  }

  lemma {:induction false} InvertedSum(x: nat)
    ensures Canon(x + (ONES - Canon(x))) == ONES
  {
    var q := CanonQuotient(x);
    CanonCongruent(x + (ONES - Canon(x)), ONES, q);
  }

  /** Only 0xffff is 0xffff with its bytes exchanged. */
  lemma {:induction false} SwapOnes(w: u16)
    ensures Swap(w) == ONES <==> w == ONES
  {
    CanonCongruent(0x100 * ONES, ONES, 0xff);
    SwapTwice(w);
  }

  /** ip_chksum_pseudo(): inet_cksum_pseudo_base() on the folded addresses. */
  method ChksumPseudo(le: bool, p: Chain, halves: seq<u16>, proto: byte, protoLen: u16) returns (r: u16)
    requires |halves| <= 16
    ensures r == PseudoChksum(le, halves, proto, protoLen, Flat(p))
  {
    var acc := SumAddresses(halves);
    acc := SumChain(le, p, acc);
    r := FinishPseudo(acc, Htons(le, proto), Htons(le, protoLen), Total(halves), WordSum(le, Flat(p)));
  }

  /** ip_chksum_pseudo_partial(): the same over the first `chksumLen` bytes only. */
  method ChksumPseudoPartial(le: bool, p: Chain, halves: seq<u16>, proto: byte, protoLen: u16, chksumLen: u16)
    returns (r: u16, tripped: bool)
    requires |halves| <= 16
    ensures tripped <==> p != [] && chksumLen - |p[0]| >= 0x7fff
    ensures !tripped ==> r == PseudoChksum(le, halves, proto, protoLen, Covered(p, chksumLen))
  {
    r := 0;
    var acc := SumAddresses(halves);
    acc, tripped := SumChainPartial(le, p, chksumLen, acc);
    if tripped {
      return;
    }
    r := FinishPseudo(acc, Htons(le, proto), Htons(le, protoLen), Total(halves), WordSum(le, Covered(p, chksumLen)));
  }

  /** One byte in the first pbuf and 0x7fff behind it. TCP headers, of at most 60 bytes, never come to this. */
  method LongTailExample(le: bool) returns (tripped: bool)
    ensures tripped
  {
    var p := [[0], seq(0x7fff, _ => 0)];
    var r;
    r, tripped := ChksumPseudoPartial(le, p, [], 6, 0x8000, 0x8000);
  }

  // --------------------------------------------------------------- checksum on copy

  /** The pair (chksum, chksum_swapped) a tcp_seg keeps for its payload. */
  datatype SegChksum = SegChksum(chksum: u16, swapped: bool)

  /** The pair is right for `data`: the sum, byte-swapped while the length is odd. */
  ghost predicate ChksumOf(le: bool, c: SegChksum, data: seq<byte>) {
    c.swapped == (|data| % 2 == 1) && c.chksum == Lane(c.swapped, Sum16(le, data))
  }

  const NO_DATA: SegChksum := SegChksum(0, false)

  /** tcp_seg_add_chksum() keeps the pair right when the checksum of further data is added,
      whatever the parities. */
  method AddChksum(le: bool, c: SegChksum, chksum: u16, len: nat, ghost data: seq<byte>, ghost more: seq<byte>)
    returns (c': SegChksum)
    requires ChksumOf(le, c, data) && chksum == Sum16(le, more) && len == |more|
    ensures ChksumOf(le, c', data + more)
  {
    hide Canon, Swap, WordSum;
    AddInLane(le, 0, c.swapped, data, more);
    var sum := Fold(c.chksum + chksum);
    c' := SegChksum(sum, c.swapped);
    if len % 2 != 0 {
      LaneToggle(c.swapped, Sum16(le, data + more));
      var swappedSum := SwapBytesInWord(sum);
      c' := SegChksum(swappedSum, !c.swapped);
    }
  }

  /** The checksum block of tcp_output_segment(): the header is summed afresh, the payload
      sum comes from the segment; the result is the full pseudo-header checksum, the slow
      value of TCP_CHECKSUM_ON_COPY_SANITY_CHECK. */
  method OutputChksum(le: bool, p: Chain, hdrLen: u16, c: SegChksum, halves: seq<u16>, proto: byte, totLen: u16)
    returns (r: u16)
    requires |halves| <= 16 && hdrLen % 2 == 0 && hdrLen <= 60 && hdrLen <= |Flat(p)|
    requires ChksumOf(le, c, Flat(p)[hdrLen..])
    ensures r == PseudoChksum(le, halves, proto, totLen, Flat(p))
  {
    ghost var hdr, data := Flat(p)[..hdrLen], Flat(p)[hdrLen..];
    assert Flat(p) == hdr + data;
    WordSumEven(le, hdr, data);
    var acc, tripped := ChksumPseudoPartial(le, p, halves, proto, totLen, hdrLen);
    SwapTwice(Sum16(le, data));
    var chksum := c.chksum;
    if c.swapped {
      chksum := SwapBytesInWord(chksum);
    }
    assert chksum == Sum16(le, data);
    r := JoinSums(ONES - acc, chksum, Total(halves) + WordSum(le, hdr) + Htons(le, proto) + Htons(le, totLen), WordSum(le, data));
  }

  /** The header's inverted sum and the payload's sum joined into one checksum. */
  method JoinSums(a: u16, b: u16, ghost x: nat, ghost y: nat) returns (r: u16)
    requires a == Canon(x) && b == Canon(y)
    ensures r == ONES - Canon(x + y)
  {
    AddSameLane(x, y);
    r := ONES - Fold(a + b);
  }
}
