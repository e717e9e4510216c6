/** Fixed-width unsigned words, bitwise conjunction and little-endian byte strings.
    Everything is stated over mathematical integers; the widths of the Go types are
    subset types and every wrap-around is written out with `% TWO64` and the like. */
module Words {

  const TWO16: nat := 0x1_0000
  const TWO32: nat := 0x1_0000_0000
  const TWO64: nat := 0x1_0000_0000_0000_0000

  type byte = b: int | 0 <= b < 0x100
  type u16 = x: int | 0 <= x < 0x1_0000
  type u32 = x: int | 0 <= x < 0x1_0000_0000
  type u64 = x: int | 0 <= x < 0x1_0000_0000_0000_0000

  function Min(a: int, b: int): int { if a <= b then a else b }

  // ---------------------------------------------------------------- bits

  function Pow2(k: nat): (p: nat)
    ensures p > 0
  {
    if k == 0 then 1 else 2 * Pow2(k - 1)
  }

  function Bit(x: nat, y: nat): nat { if x % 2 == 1 && y % 2 == 1 then 1 else 0 }

  /** Go's `x & y`. */
  function And(x: nat, y: nat): nat {
    if x == 0 || y == 0 then 0 else 2 * And(x / 2, y / 2) + Bit(x, y)
  }

  /** The number of one bits of `v`. */
  function Ones(v: nat): nat {
    if v == 0 then 0 else v % 2 + Ones(v / 2)
  }

  /** Go's `exactlyOne` and the ring's power-of-two test share this bit trick. */
  predicate SingleBit(v: nat) { v != 0 && And(v, v - 1) == 0 }

  lemma {:induction false} AndSelf(x: nat)
    ensures And(x, x) == x
  {
    if x != 0 { AndSelf(x / 2); }
  }

  lemma {:induction false} OnesZero(v: nat)
    ensures Ones(v) == 0 <==> v == 0
  {
    if v != 0 { OnesZero(v / 2); }
  }

  /** One step of the trick: an even number defers to its half, an odd one must be 1. */
  lemma SingleBitStep(v: nat)
    requires v != 0
    ensures v % 2 == 0 ==> (SingleBit(v) <==> SingleBit(v / 2))
    ensures v % 2 == 1 ==> (SingleBit(v) <==> v == 1)
  {
    if v % 2 == 0 {
      assert (v - 1) / 2 == v / 2 - 1 && (v - 1) % 2 == 1;
      assert And(v, v - 1) == 2 * And(v / 2, (v - 1) / 2);
    } else if v != 1 {
      assert (v - 1) / 2 == v / 2 && (v - 1) % 2 == 0;
      assert And(v, v - 1) == 2 * And(v / 2, v / 2);
      AndSelf(v / 2);
    }
  }

  /** `v != 0 && v & (v-1) == 0` says that exactly one bit of `v` is set. */
  lemma {:induction false} SingleBitIsOneOne(v: nat)
    ensures SingleBit(v) <==> Ones(v) == 1
  {
    if v != 0 {
      SingleBitStep(v);
      OnesZero(v / 2);
      if v % 2 == 0 { SingleBitIsOneOne(v / 2); }
    }
  }

  /** ... equivalently, that `v` is a power of two. */
  lemma {:induction false} SingleBitIsPow2(v: nat) returns (k: nat)
    requires SingleBit(v)
    ensures v == Pow2(k)
  {
    SingleBitStep(v);
    if v % 2 == 1 {
      k := 0;
    } else {
      var j := SingleBitIsPow2(v / 2);
      k := j + 1;
    }
  }

  lemma {:induction false} Pow2IsSingleBit(k: nat)
    ensures SingleBit(Pow2(k))
  {
    if k != 0 { Pow2IsSingleBit(k - 1); SingleBitStep(Pow2(k)); }
  }

  lemma MulBounds(m: int, d: int)
    requires m > 0
    ensures d >= 1 ==> m * d >= m
    ensures d <= -1 ==> m * d <= -m
    ensures d >= 2 ==> m * d >= 2 * m
    ensures d == 0 ==> m * d == 0
  {}

  lemma Distribute(m: int, a: int, b: int)
    ensures m * (a + b) == m * a + m * b
  {}

  lemma ModUnique(x: int, m: int, q: int, r: int)
    requires m > 0 && x == m * q + r && 0 <= r < m
    ensures x % m == r && x / m == q
  {
    var d := x / m - q;
    assert m * d == r - x % m by { assert x == m * (x / m) + x % m; assert m * (x / m - q) == m * (x / m) - m * q; }
    MulBounds(m, d);
  }

  lemma Halves(x: nat, p: nat)
    requires p > 0
    ensures x % (2 * p) == 2 * (x / 2 % p) + x % 2
    ensures x / (2 * p) == x / 2 / p
  {
    var q, r := x / 2 / p, x / 2 % p;
    assert x / 2 == p * q + r;
    assert x == (2 * p) * q + (2 * r + x % 2);
    ModUnique(x, 2 * p, q, 2 * r + x % 2);
  }

  lemma AndEven(x: nat, h: nat)
    ensures And(x, 2 * h) == 2 * And(x / 2, h)
  {
    var m := 2 * h;
    assert m / 2 == h && m % 2 == 0;
    assert And(x, m) == if x == 0 || m == 0 then 0 else 2 * And(x / 2, m / 2) + Bit(x, m);
  }

  lemma AndZero(x: nat)
    ensures And(x, 0) == 0 == And(0, x)
  {}

  lemma Regroup(p: nat, h: nat)
    ensures (2 * p) * h == 2 * (p * h) == p * (2 * h)
  {}

  lemma AndOdd(x: nat, h: nat)
    ensures And(x, 2 * h + 1) == 2 * And(x / 2, h) + x % 2
  {
    var m := 2 * h + 1;
    assert m / 2 == h && m % 2 == 1;
    assert And(x, m) == if x == 0 then 0 else 2 * And(x / 2, m / 2) + Bit(x, m);
  }

  /** Masking with `2^k - 1` is the remainder modulo `2^k`. */
  lemma {:induction false} AndMask(x: nat, k: nat)
    ensures And(x, Pow2(k) - 1) == x % Pow2(k)
  {
    hide And;
    if k == 0 {
      AndZero(x);
      ModUnique(x, 1, x, 0);
    } else {
      var p := Pow2(k - 1);
      AndMask(x / 2, k - 1);
      AndOdd(x, p - 1);
      Halves(x, p);
    }
  }

  /** A single-bit mask keeps exactly that bit. */
  lemma {:induction false} AndPow2(x: nat, k: nat)
    ensures And(x, Pow2(k)) == (x / Pow2(k) % 2) * Pow2(k)
  {
    if x == 0 {
      assert 0 / Pow2(k) == 0 by { ModUnique(0, Pow2(k), 0, 0); }
    } else if k == 0 {
      assert And(x, 1) == 2 * And(x / 2, 0) + x % 2;
    } else {
      var p := Pow2(k - 1);
      AndPow2(x / 2, k - 1);
      assert And(x, 2 * p) == 2 * And(x / 2, p);
      Halves(x, p);
      var bit := x / 2 / p % 2;
      assert 2 * (bit * p) == bit * (2 * p);
    }
  }

  lemma {:induction false} Pow2Splits(j: nat, k: nat)
    requires j <= k
    ensures Pow2(k) == Pow2(j) * Pow2(k - j)
    ensures Pow2(j) <= Pow2(k)
  {
    if j == k {
      assert Pow2(k - j) == 1;
    } else {
      Pow2Splits(j, k - 1);
      Regroup(Pow2(j), Pow2(k - 1 - j));
      assert Pow2(k - j) == 2 * Pow2(k - 1 - j) && Pow2(k) == 2 * Pow2(k - 1);
    }
  }

  lemma Pow64()
    ensures Pow2(64) == TWO64 && Pow2(32) == TWO32
  {
    assert Pow2(8) == 0x100;
    assert Pow2(16) == 0x1_0000;
    assert Pow2(24) == 0x100_0000;
    assert Pow2(32) == 0x1_0000_0000;
    assert Pow2(40) == 0x100_0000_0000;
    assert Pow2(48) == 0x1_0000_0000_0000;
    assert Pow2(56) == 0x100_0000_0000_0000;
  }

  lemma ModMod(x: nat, c: nat, q: nat)
    requires c > 0 && q > 0
    ensures c * q > 0 && x % (c * q) % c == x % c
  {
    var m := c * q;
    assert m > 0 by { MulBounds(c, q); }
    var a, r := x / m, x % m;
    var b, t := r / c, r % c;
    assert x == m * a + r && r == c * b + t;
    assert m * a == c * (q * a);
    assert x == c * (q * a + b) + t by { assert c * (q * a + b) == c * (q * a) + c * b; }
    ModUnique(x, c, q * a + b, t);
  }

  /** A 64-bit counter that has wrapped still selects the slot its unbounded value selects,
      because every 32-bit power of two divides 2^64. */
  lemma WrappedIndex(counter: nat, capacity: nat)
    requires SingleBit(capacity) && capacity < TWO32
    ensures And(counter % TWO64, capacity - 1) == counter % capacity
  {
    var k := SingleBitIsPow2(capacity);
    Pow64();
    if k > 64 { Pow2Splits(64, k); assert false; }
    Pow2Splits(k, 64);
    AndMask(counter % TWO64, k);
    ModMod(counter, capacity, Pow2(64 - k));
  }

  /** Distinct counters less than `m` apart select distinct slots. */
  lemma DistinctSlots(i: nat, j: nat, m: nat)
    requires i < j < i + m
    ensures i % m != j % m
  {
    var d := j / m - i / m;
    assert j - i == m * d + (j % m - i % m) by {
      assert j == m * (j / m) + j % m && i == m * (i / m) + i % m;
      assert m * d == m * (j / m) - m * (i / m);
    }
    MulBounds(m, d);
  }

  /** Go's `head - tail` on uint64. */
  function Sub64(a: u64, b: u64): u64 { (a - b) % TWO64 }

  lemma GapOfWrapped(hi: nat, lo: nat)
    requires lo <= hi && hi - lo < TWO64
    ensures Sub64(hi % TWO64, lo % TWO64) == hi - lo
  {
    var a, b := hi / TWO64, lo / TWO64;
    var d := hi % TWO64 - lo % TWO64;
    assert hi - lo == TWO64 * (a - b) + d;
    MulBounds(TWO64, a - b);
    MulBounds(TWO64, a - b - 1);
    if a == b + 1 { ModUnique(d, TWO64, -1, hi - lo); }
  }

  // -------------------------------------------------- little-endian bytes

  function Pow256(n: nat): (p: nat)
    ensures p > 0
  {
    if n == 0 then 1 else 256 * Pow256(n - 1)
  }

  /** The `n` low bytes of `v`, least significant first. */
  function LE(n: nat, v: nat): (s: seq<byte>)
    ensures |s| == n
  {
    if n == 0 then [] else [v % 256] + LE(n - 1, v / 256)
  }

  /** The number a little-endian byte string spells. */
  function UnLE(s: seq<byte>): (v: nat)
    ensures v < Pow256(|s|)
  {
    if s == [] then 0 else s[0] + 256 * UnLE(s[1..])
  }

  lemma {:induction false} UnLEofLE(n: nat, v: nat)
    requires v < Pow256(n)
    ensures UnLE(LE(n, v)) == v
  {
    if n != 0 {
      assert v / 256 < Pow256(n - 1);
      UnLEofLE(n - 1, v / 256);
      assert LE(n, v)[1..] == LE(n - 1, v / 256);
    }
  }

  lemma {:induction false} LEofUnLE(s: seq<byte>)
    ensures LE(|s|, UnLE(s)) == s
  {
    if s != [] {
      LEofUnLE(s[1..]);
      var t := UnLE(s[1..]);
      ModUnique(UnLE(s), 256, t, s[0]);
      assert s == [s[0]] + s[1..];
    }
  }

  lemma Widths()
    ensures Pow256(2) == TWO16 && Pow256(4) == TWO32 && Pow256(8) == TWO64
  {
    assert Pow256(3) == 0x100_0000;
    assert Pow256(6) == 0x1_0000_0000_0000;
  }

  lemma Word(b: seq<byte>, i: nat, j: nat)
    requires i <= j <= |b|
    ensures LE(j - i, UnLE(b[i..j])) == b[i..j]
  {
    LEofUnLE(b[i..j]);
  }

  lemma Join4(b: seq<byte>, p0: nat, p1: nat, p2: nat, p3: nat, p4: nat)
    requires p0 <= p1 <= p2 <= p3 <= p4 <= |b|
    ensures b[p0..p1] + b[p1..p2] + b[p2..p3] + b[p3..p4] == b[p0..p4]
  {}

  /** `binary.LittleEndian.Uint16/32/64` at a fixed offset. */
  function Get16(b: seq<byte>, at: nat): u16
    requires at + 2 <= |b|
  {
    Widths(); UnLE(b[at..at + 2])
  }

  function Get32(b: seq<byte>, at: nat): u32
    requires at + 4 <= |b|
  {
    Widths(); UnLE(b[at..at + 4])
  }

  function Get64(b: seq<byte>, at: nat): u64
    requires at + 8 <= |b|
  {
    Widths(); UnLE(b[at..at + 8])
  }

  /** `b` with the bytes from `at` on overwritten by `s`. */
  function Splice(b: seq<byte>, at: nat, s: seq<byte>): (r: seq<byte>)
    requires at + |s| <= |b|
    ensures |r| == |b|
  {
    b[..at] + s + b[at + |s|..]
  }

  lemma SpliceAppend(b: seq<byte>, at: nat, s: seq<byte>, t: seq<byte>)
    requires at + |s| + |t| <= |b|
    ensures Splice(Splice(b, at, s), at + |s|, t) == Splice(b, at, s + t)
  {
    var once := Splice(b, at, s);
    assert once[..at + |s|] == b[..at] + s;
    assert once[at + |s| + |t|..] == b[at + |s| + |t|..];
  }

  lemma SpliceOver(b: seq<byte>, at: nat, s: seq<byte>, t: seq<byte>)
    requires at + |s| <= |b| && |s| == |t|
    ensures Splice(Splice(b, at, s), at, t) == Splice(b, at, t)
  {
    var once := Splice(b, at, s);
    assert once[..at] == b[..at] && once[at + |t|..] == b[at + |t|..];
  }

  /** Reading back a splice, and reading around it. */
  lemma SpliceRead(b: seq<byte>, at: nat, s: seq<byte>, lo: nat, hi: nat)
    requires at + |s| <= |b| && lo <= hi <= |b|
    ensures Splice(b, at, s)[at..at + |s|] == s
    ensures hi <= at || at + |s| <= lo ==> Splice(b, at, s)[lo..hi] == b[lo..hi]
  {
    SpliceAt(b, at, s);
    hide Splice;
    var r := Splice(b, at, s);
    assert |r[at..at + |s|]| == |s| && forall i :: 0 <= i < |s| ==> r[at..at + |s|][i] == s[i];
    if hi <= at || at + |s| <= lo {
      assert |r[lo..hi]| == hi - lo && forall i :: 0 <= i < hi - lo ==> r[lo..hi][i] == b[lo..hi][i];
    }
  }

  lemma SpliceAt(b: seq<byte>, at: nat, s: seq<byte>)
    requires at + |s| <= |b|
    ensures forall i :: 0 <= i < |b| ==>
              Splice(b, at, s)[i] == if at <= i < at + |s| then s[i - at] else b[i]
  {}

  lemma SliceSlice<T>(s: seq<T>, a: nat, b: nat, c: nat, d: nat)
    requires a <= b <= |s| && c <= d <= b - a
    ensures s[a..b][c..d] == s[a + c..a + d]
  {
    var inner, outer := s[a..b][c..d], s[a + c..a + d];
    assert forall i :: 0 <= i < |inner| ==> inner[i] == outer[i];
  }

  /** A stored counter is what a load of it returns, and no other word changes. */
  lemma StoreLoad(b: seq<byte>, at: nat, v: u64, other: nat)
    requires at + 8 <= |b| && other + 8 <= |b|
    ensures Get64(Splice(b, at, LE(8, v)), at) == v
    ensures other + 8 <= at || at + 8 <= other ==> Get64(Splice(b, at, LE(8, v)), other) == Get64(b, other)
  {
    Widths();
    UnLEofLE(8, v);
    var s := Splice(b, at, LE(8, v));
    SpliceRead(b, at, LE(8, v), other, other + 8);
    assert s[at..at + 8] == LE(8, v);
    assert UnLE(s[at..at + 8]) == v;
    assert other + 8 <= at || at + 8 <= other ==> s[other..other + 8] == b[other..other + 8];
  }

  /** `binary.LittleEndian.PutUintN(mem[at:], v)`: exactly `n` bytes change. */
  method Put(mem: array<byte>, at: nat, n: nat, v: nat)
    requires at + n <= mem.Length
    modifies mem
    ensures mem[..] == Splice(old(mem[..]), at, LE(n, v))
  {
    hide LE, Splice;
    var i, rest := 0, v;
    ghost var before, word := mem[..], LE(n, v);
    Unwritten(before, at, word);
    while i < n
      invariant 0 <= i <= n
      invariant word[i..] == LE(n - i, rest)
      invariant mem[..] == Splice(before, at, word[..i])
    {
      NextByte(word, i, n - i, rest);
      WriteNext(before, at, word, i);
      mem[at + i] := rest % 256;
      rest := rest / 256;
      i := i + 1;
    }
    assert word[..n] == word;
  }

  lemma Unwritten(b: seq<byte>, at: nat, s: seq<byte>)
    requires at <= |b|
    ensures Splice(b, at, s[..0]) == b && s[0..] == s
  {}

  lemma NextByte(word: seq<byte>, i: nat, left: nat, rest: nat)
    requires i < |word| && left > 0 && word[i..] == LE(left, rest)
    ensures word[i] == rest % 256 && word[i + 1..] == LE(left - 1, rest / 256)
  {
    assert LE(left, rest) == [rest % 256] + LE(left - 1, rest / 256);
    assert word[i] == word[i..][0] && word[i + 1..] == word[i..][1..];
  }

  lemma WriteNext(b: seq<byte>, at: nat, s: seq<byte>, i: nat)
    requires at + |s| <= |b| && i < |s|
    ensures Splice(b, at, s[..i])[at + i := s[i]] == Splice(b, at, s[..i + 1])
  {
    assert s[..i + 1] == s[..i] + [s[i]];
  }

  /** Go's `copy(mem[at:], src)` when `src` fits. */
  method Copy(mem: array<byte>, at: nat, src: seq<byte>)
    requires at + |src| <= mem.Length
    modifies mem
    ensures mem[..] == Splice(old(mem[..]), at, src)
  {
    hide Splice;
    ghost var before := mem[..];
    var i := 0;
    Unwritten(before, at, src);
    while i < |src|
      invariant 0 <= i <= |src|
      invariant mem[..] == Splice(before, at, src[..i])
    {
      WriteNext(before, at, src, i);
      mem[at + i] := src[i];
      i := i + 1;
    }
    assert src[..|src|] == src;
  }

  /** Four consecutive little-endian stores. */
  method Put4(mem: array<byte>, at: nat, n0: nat, v0: nat, n1: nat, v1: nat, n2: nat, v2: nat, n3: nat, v3: nat)
    requires at + n0 + n1 + n2 + n3 <= mem.Length
    modifies mem
    ensures mem[..] == Splice(old(mem[..]), at, LE(n0, v0) + LE(n1, v1) + LE(n2, v2) + LE(n3, v3))
  {
    hide LE, Splice;
    ghost var b := mem[..];
    Put(mem, at, n0, v0);
    Put(mem, at + n0, n1, v1);
    SpliceAppend(b, at, LE(n0, v0), LE(n1, v1));
    Put(mem, at + n0 + n1, n2, v2);
    SpliceAppend(b, at, LE(n0, v0) + LE(n1, v1), LE(n2, v2));
    Put(mem, at + n0 + n1 + n2, n3, v3);
    SpliceAppend(b, at, LE(n0, v0) + LE(n1, v1) + LE(n2, v2), LE(n3, v3));
  }
}
