/** Base-128 varints as the generated codec reads and writes them: `encodeVarintList`, `sovList` and
    the decoding loop that the generator inlines into every `Unmarshal`. */
module Varint {
  import opened Wrappers

  const TWO31: int := 0x8000_0000
  const TWO32: int := 0x1_0000_0000
  const TWO63: int := 0x8000_0000_0000_0000
  const TWO64: int := 0x1_0000_0000_0000_0000

  type byte = x: int | 0 <= x < 256
  type int32 = x: int | -0x8000_0000 <= x < 0x8000_0000
  type uint64 = x: int | 0 <= x < 0x1_0000_0000_0000_0000

  /** The Go conversion int32(u) of an unsigned value: keep 32 bits, read them as signed. */
  function ToInt32(u: nat): int32 {
    var low := u % TWO32;
    if low < TWO31 then low else low - TWO32
  }

  /** The Go conversion uint64(v) of an int32: sign extension. */
  function SignExtend(v: int32): uint64 {
    if v < 0 then v + TWO64 else v
  }

  /** int64 addition of two non-negative ints, wrapping around as Go's does. */
  function WrapInt64(sum: nat): int
    requires sum < TWO64
  {
    if sum < TWO63 then sum else sum - TWO64
  }

  function Pow2(n: nat): nat
    ensures Pow2(n) > 0
  {
    if n == 0 then 1 else 2 * Pow2(n - 1)
  }

  // ---- The format ----

  /** Base 128, least significant group first; the top bit of each byte is a continuation mark. */
  function EncVarint(v: nat): (s: seq<byte>)
    ensures |s| >= 1
  {
    if v < 128 then [v] else [v % 128 + 128] + EncVarint(v / 128)
  }

  function VarVal(s: seq<byte>): nat {
    if s == [] then 0 else s[0] % 128 + 128 * VarVal(s[1..])
  }

  /** A complete varint: one to ten bytes, exactly the last one without continuation mark. */
  predicate IsVarint(s: seq<byte>) {
    && 1 <= |s| <= 10
    && (forall i :: 0 <= i < |s| - 1 ==> s[i] >= 128)
    && s[|s| - 1] < 128
  }

  // ---- Reading ----

  /** Where the varint at the front of `b` ends, given that its first `k` bytes all continue. */
  function ScanVarint(b: seq<byte>, k: nat): (r: Result<nat>)
    requires k <= |b| && k <= 10
    ensures r.Ok? ==> k < r.value <= |b| && r.value <= 10
    decreases |b| - k
  {
    if k >= 10 then Err(IntOverflow)
    else if k >= |b| then Err(UnexpectedEOF)
    else if b[k] < 128 then Ok(k + 1)
    else ScanVarint(b, k + 1)
  }

  datatype VarintRead = VarintRead(value: uint64, len: nat)

  function ReadVarint(b: seq<byte>): (r: Result<VarintRead>)
    ensures r.Ok? ==> 1 <= r.value.len <= |b| && r.value.len <= 10
  {
    var n :- ScanVarint(b, 0);
    Ok(VarintRead(VarVal(b[..n]) % TWO64, n))
  }

  lemma {:induction false} ScanVarintFinds(b: seq<byte>, k: nat, n: nat)
    requires k < n <= |b| && IsVarint(b[..n])
    ensures ScanVarint(b, k) == Ok(n)
    decreases n - k
  {
    assert forall i :: 0 <= i < n ==> b[i] == b[..n][i];
    if k < n - 1 {
      ScanVarintFinds(b, k + 1, n);
    }
  }

  lemma {:induction false} ScanVarintSound(b: seq<byte>, k: nat)
    requires k <= |b| && k <= 10
    requires forall i :: 0 <= i < k ==> b[i] >= 128
    ensures ScanVarint(b, k).Ok? ==> IsVarint(b[..ScanVarint(b, k).value])
    decreases |b| - k
  {
    if k < 10 && k < |b| && b[k] >= 128 {
      ScanVarintSound(b, k + 1);
    }
  }

  /** The reader accepts exactly the byte strings that start with a complete varint. */
  lemma ReadVarintIff(b: seq<byte>, n: nat)
    ensures (ReadVarint(b).Ok? && ReadVarint(b).value.len == n) <==> (n <= |b| && IsVarint(b[..n]))
  {
    ScanVarintSound(b, 0);
    if n <= |b| && IsVarint(b[..n]) {
      ScanVarintFinds(b, 0, n);
    }
  }

  /** A successful read looks only at the bytes it consumes. */
  lemma ReadVarintPrefix(a: seq<byte>, c: seq<byte>)
    requires ReadVarint(a).Ok?
    ensures ReadVarint(a + c) == ReadVarint(a)
  {
    var n := ReadVarint(a).value.len;
    ReadVarintIff(a, n);
    assert (a + c)[..n] == a[..n];
    ReadVarintIff(a + c, n);
  }

  /** A varint followed by anything is read as its value, reduced to 64 bits. */
  lemma ReadVarintOf(v: seq<byte>, rest: seq<byte>)
    requires IsVarint(v)
    ensures ReadVarint(v + rest) == Ok(VarintRead(VarVal(v) % TWO64, |v|))
    ensures ScanVarint(v + rest, 0) == Ok(|v|)
  {
    assert (v + rest)[..|v|] == v;
    ScanVarintFinds(v + rest, 0, |v|);
  }

  // ---- Round trip of one varint ----

  lemma {:induction false} EncVarintShape(v: nat, n: nat)
    requires 1 <= n <= 10 && v < Pow2(7 * n)
    ensures |EncVarint(v)| <= n && IsVarint(EncVarint(v)) && VarVal(EncVarint(v)) == v
    decreases n
  {
    if v >= 128 {
      assert n > 1 by {
        if n == 1 { Pow2Seven(0); }
      }
      Pow2Seven(7 * (n - 1));
      EncVarintShape(v / 128, n - 1);
      var s := EncVarint(v);
      assert s[1..] == EncVarint(v / 128);
      assert s[0] % 128 == v % 128;
    } else {
      assert EncVarint(v)[1..] == [];
    }
  }

  lemma Pow2Seven(m: nat)
    ensures Pow2(m + 7) == 128 * Pow2(m)
  {
    assert Pow2(m + 7) == 2 * Pow2(m + 6) == 4 * Pow2(m + 5) == 8 * Pow2(m + 4) == 16 * Pow2(m + 3);
    assert Pow2(m + 3) == 2 * Pow2(m + 2) == 4 * Pow2(m + 1) == 8 * Pow2(m);
  }

  lemma Pow2Values()
    ensures Pow2(32) == TWO32 && Pow2(64) == TWO64 && Pow2(70) == 64 * TWO64
  {
    assert Pow2(4) == 16;
    assert Pow2(8) == 256;
    Pow2Add(8, 8);
    Pow2Add(16, 16);
    Pow2Add(32, 32);
    Pow2Add(6, 64);
    hide Pow2;
  }

  /** Every 64-bit value is written in at most ten bytes and read back as itself, whatever follows. */
  lemma VarintRoundTrip(v: uint64, rest: seq<byte>)
    ensures |EncVarint(v)| <= 10 && IsVarint(EncVarint(v))
    ensures ReadVarint(EncVarint(v) + rest) == Ok(VarintRead(v, |EncVarint(v)|))
  {
    hide EncVarint, VarVal, ReadVarint, ScanVarint, Pow2;
    Pow2Values();
    EncVarintShape(v, 10);
    ReadVarintOf(EncVarint(v), rest);
  }

  /** An int32 travels sign-extended to 64 bits and comes back through the 32-bit loop. */
  lemma Int32RoundTrip(v: int32)
    ensures ToInt32(SignExtend(v)) == v
    ensures v < 0 ==> |EncVarint(SignExtend(v))| == 10
  {
    if v < 0 {
      assert (v + TWO64) % TWO32 == v + TWO32;
      Pow2Values();
      Pow2Seven(56);
      SovIsLength(v + TWO64);
      SovIsLeast(v + TWO64, 9);
      EncVarintShape(v + TWO64, 10);
    }
  }

  // ---- The size function ----

  /** math/bits.Len64: the number of bits needed for x. */
  function Len64(x: nat): nat {
    if x == 0 then 0 else 1 + Len64(x / 2)
  }

  /** The bit-or with 1 that `sovList` applies first. */
  function OrOne(x: nat): nat {
    if x % 2 == 0 then x + 1 else x
  }

  function Sov(x: nat): nat {
    (Len64(OrOne(x)) + 6) / 7
  }

  lemma Len64Shift7(x: nat)
    requires x >= 128
    ensures Len64(x) == 7 + Len64(x / 128)
  {
    var a := x / 2; var b := a / 2; var c := b / 2; var d := c / 2; var e := d / 2; var f := e / 2;
    assert f / 2 == x / 128;
    assert Len64(x) == 1 + Len64(a) == 2 + Len64(b) == 3 + Len64(c);
    assert Len64(c) == 1 + Len64(d) == 2 + Len64(e) == 3 + Len64(f) == 4 + Len64(f / 2);
  }

  /** `sovList` is the number of bytes `encodeVarintList` writes. */
  lemma {:induction false} SovIsLength(v: nat)
    ensures Sov(v) == |EncVarint(v)|
    decreases v
  {
    hide Len64, OrOne;
    EncStep(v);
    if v >= 128 {
      SovIsLength(v / 128);
      Len64Shift7(v);
      OrOneKeepsLength(v);
      OrOneKeepsLength(v / 128);
    } else {
      SovSmall(v);
    }
  }

  lemma EncStep(v: nat)
    ensures EncVarint(v) == if v < 128 then [v] else [v % 128 + 128] + EncVarint(v / 128)
    ensures |EncVarint(v)| == if v < 128 then 1 else 1 + |EncVarint(v / 128)|
  {
  }

  lemma OrOneKeepsLength(x: nat)
    requires x > 0
    ensures Len64(OrOne(x)) == Len64(x)
  {
    assert OrOne(x) / 2 == x / 2;
  }

  lemma SovSmall(v: nat)
    requires v < 128
    ensures 1 <= Len64(OrOne(v)) <= 7
  {
    Len64Below(OrOne(v), 7);
  }

  lemma {:induction false} Len64Below(x: nat, n: nat)
    requires x < Pow2(n)
    ensures Len64(x) <= n
    decreases n
  {
    if x != 0 {
      Len64Below(x / 2, n - 1);
    }
  }

  /** The size is the least n >= 1 with v < 2^(7n). */
  lemma {:induction false} SovIsLeast(v: nat, n: nat)
    requires n >= 1
    ensures Sov(v) <= n <==> v < Pow2(7 * n)
    decreases n
  {
    SovIsLength(v);
    Pow2Seven(7 * (n - 1));
    if v >= 128 {
      if n == 1 {
        Pow2Seven(0);
      } else {
        SovIsLength(v / 128);
        SovIsLeast(v / 128, n - 1);
      }
    } else {
      assert Pow2(7 * (n - 1)) >= 1;
    }
  }

  // ---- The loops over buffers ----

  /** Writes v so that it ends just before `offset`; returns where it starts. */
  method EncodeVarint(dAtA: array<byte>, offset: nat, v: uint64) returns (base: nat)
    requires |EncVarint(v)| <= offset <= dAtA.Length
    modifies dAtA
    ensures base == offset - |EncVarint(v)|
    ensures dAtA[base..offset] == EncVarint(v)
    ensures dAtA[..base] == old(dAtA[..base]) && dAtA[offset..] == old(dAtA[offset..])
  {
    hide EncVarint, Sov;
    SovIsLength(v);
    var at := offset - Sov(v);
    base := at;
    var rest: nat := v;
    while rest >= 128
      invariant base <= at < offset <= dAtA.Length
      invariant offset - at == |EncVarint(rest)|
      invariant dAtA[base..at] + EncVarint(rest) == EncVarint(v)
      invariant dAtA[..base] == old(dAtA[..base]) && dAtA[offset..] == old(dAtA[offset..])
      decreases rest
    {
      ghost var before, front := dAtA[base..at], [rest % 128 + 128];
      EncStep(rest);
      dAtA[at] := rest % 128 + 128;
      assert dAtA[base..at + 1] == before + front;
      assert (before + front) + EncVarint(rest / 128) == before + (front + EncVarint(rest / 128));
      rest := rest / 128;
      at := at + 1;
    }
    ghost var before := dAtA[base..at];
    EncStep(rest);
    dAtA[at] := rest;
    assert dAtA[base..offset] == before + [rest];
  }

  /** The bitwise or of two numbers, bit by bit. */
  function BitOr(x: nat, y: nat): nat {
    if x == 0 && y == 0 then 0
    else (if x % 2 == 1 || y % 2 == 1 then 1 else 0) + 2 * BitOr(x / 2, y / 2)
  }

  /** A left shift in a word of size `modulus`: what leaves the word is dropped. */
  function ShiftLeft(bits: nat, shift: nat, modulus: nat): nat
    requires modulus > 0
  {
    (bits * Pow2(shift)) % modulus
  }

  /** What one step of the decoding loop adds up to, in a word of size `modulus`. */
  function Accumulate(acc: nat, b: byte, shift: nat, modulus: nat): nat
    requires modulus > 0
  {
    (acc + (b % 128) * Pow2(shift)) % modulus
  }

  lemma {:induction false} OrAbove(acc: nat, y: nat, shift: nat)
    requires acc < Pow2(shift)
    ensures BitOr(acc, y * Pow2(shift)) == acc + y * Pow2(shift)
  {
    if shift == 0 {
      OrZero(y);
    } else {
      var z := y * Pow2(shift - 1);
      assert y * Pow2(shift) == 2 * z;
      OrAbove(acc / 2, y, shift - 1);
      assert BitOr(acc, 2 * z) == acc % 2 + 2 * BitOr(acc / 2, z);
    }
  }

  lemma {:induction false} OrZero(y: nat)
    ensures BitOr(0, y) == y && BitOr(y, 0) == y
  {
    if y > 0 {
      OrZero(y / 2);
    }
  }

  lemma {:induction false} Pow2Add(m: nat, n: nat)
    ensures Pow2(m + n) == Pow2(m) * Pow2(n)
  {
    if m > 0 {
      Pow2Add(m - 1, n);
      assert Pow2(m) * Pow2(n) == 2 * (Pow2(m - 1) * Pow2(n));
    }
  }

  /** Quotient and remainder are unique. */
  lemma DivideUnique(m: nat, q: int, r: nat, q': int, r': nat)
    requires r < m && r' < m && q * m + r == q' * m + r'
    ensures q == q' && r == r'
  {
    assert (q - q') * m == r' - r && (q' - q) * m == r - r';
    assert q <= q' by { if q > q' { MulMono(1, q - q', m); } }
    assert q' <= q by { if q' > q { MulMono(1, q' - q, m); } }
  }

  lemma ModOf(r: nat, t: nat, m: nat)
    requires r < m
    ensures (r + t * m) % m == r
  {
    var whole := r + t * m;
    DivideUnique(m, t, r, whole / m, whole % m);
  }

  /** Dropping what is shifted out of a word of p * q keeps the low part and the bits below p. */
  lemma ShiftedSum(acc: nat, b: nat, p: nat, q: nat)
    requires 0 < q && acc < p
    ensures p * q > 0 && (acc + b * p) % (p * q) == acc + (b % q) * p
  {
    var y, t := b % q, b / q;
    var m := p * q;
    assert b == t * q + y;
    assert b * p == t * m + y * p by { Distribute(t, q, y, p); }
    assert y * p <= (q - 1) * p by { MulMono(y, q - 1, p); }
    assert (q - 1) * p + p == m;
    ModOf(acc + y * p, t, m);
  }

  lemma Distribute(t: nat, q: nat, y: nat, p: nat)
    ensures (t * q + y) * p == t * (p * q) + y * p
  {
    assert (t * q + y) * p == (t * q) * p + y * p;
    assert (t * q) * p == t * (q * p);
  }

  lemma MulMono(a: nat, b: nat, p: nat)
    requires a <= b
    ensures a * p <= b * p
  {
  }

  /** The bit-or of the decoding loop adds: the shifted bits never meet the bits already there. In words of
      64 and of 32 bits, for every shift the loop reaches, also where part of the octet or all of it is
      shifted out. */
  lemma OrIsAddition(acc: nat, octet: byte, shift: nat, modulus: nat)
    requires modulus == TWO64 || modulus == TWO32
    requires acc < modulus && acc < Pow2(shift)
    ensures BitOr(acc, ShiftLeft(octet % 128, shift, modulus)) == Accumulate(acc, octet, shift, modulus)
  {
    hide BitOr, Pow2;
    Pow2Values();
    var width := if modulus == TWO64 then 64 else 32;
    if shift >= width {
      Pow2Add(shift - width, width);
      ShiftedOut(acc, octet % 128, Pow2(shift - width), modulus);
      OrZero(acc);
    } else {
      Pow2Add(shift, width - shift);
      ShiftedSum(acc, octet % 128, Pow2(shift), Pow2(width - shift));
      ShiftedSum(0, octet % 128, Pow2(shift), Pow2(width - shift));
      OrAbove(acc, (octet % 128) % Pow2(width - shift), shift);
    }
  }

  lemma ShiftedOut(acc: nat, b: nat, p: nat, m: nat)
    requires acc < m
    ensures (b * (p * m)) % m == 0 && (acc + b * (p * m)) % m == acc
  {
    MulThree(b, p, m);
    ModOf(0, b * p, m);
    ModOf(acc, b * p, m);
  }

  lemma MulThree(x: nat, y: nat, z: nat)
    ensures x * (y * z) == (x * y) * z
  {
  }

  lemma {:induction false} VarValBound(s: seq<byte>)
    ensures VarVal(s) < Pow2(7 * |s|)
  {
    if s != [] {
      VarValBound(s[1..]);
      Pow2Seven(7 * |s[1..]|);
    }
  }

  lemma {:induction false} VarValSnoc(s: seq<byte>, b: byte)
    ensures VarVal(s + [b]) == VarVal(s) + (b % 128) * Pow2(7 * |s|)
  {
    if s == [] {
      assert [b][1..] == [];
    } else {
      assert (s + [b])[1..] == s[1..] + [b];
      VarValSnoc(s[1..], b);
      Pow2Seven(7 * |s[1..]|);
      MulAssoc(b % 128, Pow2(7 * |s[1..]|));
    }
  }

  lemma MulAssoc(x: nat, y: nat)
    ensures 128 * (x * y) == x * (128 * y)
  {
  }

  lemma Split(x: nat, m: nat)
    requires m > 0
    ensures x == x % m + (x / m) * m && 0 <= x % m < m && x / m >= 0
  {
  }

  lemma SumTimes(q: nat, t: nat, m: nat)
    ensures (q + t) * m == q * m + t * m
  {
  }

  /** If z and w differ by a multiple of m, they have one remainder. */
  lemma SameRemainder(z: nat, w: nat, q: nat, m: nat)
    requires m > 0 && w == z + q * m
    ensures w % m == z % m
  {
    Split(z, m);
    var r, t := z % m, z / m;
    SumTimes(t, q, m);
    ModOf(r, t + q, m);
  }

  lemma ModAdd(x: nat, y: nat, m: nat)
    requires m > 0
    ensures (x % m + y) % m == (x + y) % m
  {
    Split(x, m);
    SameRemainder(x % m + y, x + y, x / m, m);
  }

  lemma AccumulateVarVal(b: seq<byte>, k: nat, modulus: nat)
    requires k < |b| && (modulus == TWO64 || modulus == TWO32)
    ensures Accumulate(VarVal(b[..k]) % modulus, b[k], 7 * k, modulus) == VarVal(b[..k + 1]) % modulus
  {
    VarValSnoc(b[..k], b[k]);
    assert b[..k + 1] == b[..k] + [b[k]];
    ModAdd(VarVal(b[..k]), (b[k] % 128) * Pow2(7 * k), modulus);
  }

  lemma PrefixBound(b: seq<byte>, k: nat, modulus: nat)
    requires k <= |b| && modulus > 0
    ensures VarVal(b[..k]) % modulus < modulus && VarVal(b[..k]) % modulus < Pow2(7 * k)
  {
    hide Pow2, VarVal;
    VarValBound(b[..k]);
    ModSmaller(VarVal(b[..k]), modulus);
  }

  lemma ModSmaller(x: nat, m: nat)
    requires m > 0
    ensures x % m <= x
  {
  }

  /** The low bits of the first k groups. */
  function LowBits(b: seq<byte>, k: nat, modulus: nat): nat
    requires k <= |b| && modulus > 0
  {
    VarVal(b[..k]) % modulus
  }

  /** One turn of the loop: with the low bits of the first k groups in the word, `acc |= (b & 0x7F) << shift`
      leaves the low bits of the first k + 1. */
  lemma DecodeStep(b: seq<byte>, k: nat, modulus: nat)
    requires k < |b| && (modulus == TWO64 || modulus == TWO32)
    ensures BitOr(LowBits(b, k, modulus), ShiftLeft(b[k] % 128, 7 * k, modulus)) == LowBits(b, k + 1, modulus)
    ensures LowBits(b, k + 1, modulus) < modulus
  {
    hide VarVal, BitOr, ShiftLeft, Pow2, Accumulate;
    AccumulateVarVal(b, k, modulus);
    PrefixBound(b, k, modulus);
    PrefixBound(b, k + 1, modulus);
    OrIsAddition(VarVal(b[..k]) % modulus, b[k], 7 * k, modulus);
  }

  /** What the scan says about the read. */
  lemma ReadByScan(b: seq<byte>, modulus: nat)
    requires modulus == TWO64 || modulus == TWO32
    ensures LowBits(b, 0, modulus) == 0
    ensures var scan := ScanVarint(b, 0);
      if scan.Err? then ReadVarint(b) == Err(scan.error)
      else ReadVarint(b).Ok? && ReadVarint(b).value.len == scan.value
           && ReadVarint(b).value.value % modulus == LowBits(b, scan.value, modulus)
  {
    hide VarVal;
    assert b[..0] == [] && VarVal([]) == 0 by { EmptyVarVal(); }
    if ScanVarint(b, 0).Ok? { ModOfMod(VarVal(b[..ScanVarint(b, 0).value])); }
  }

  lemma EmptyVarVal()
    ensures VarVal([]) == 0
  {
  }

  lemma ScanStep(b: seq<byte>, k: nat)
    requires k <= |b| && k <= 10
    ensures ScanVarint(b, k)
         == if k >= 10 then Err(IntOverflow) else if k >= |b| then Err(UnexpectedEOF)
            else if b[k] < 128 then Ok(k + 1) else ScanVarint(b, k + 1)
  {
  }

  /** The decoding loop of width `modulus` (2^64, or 2^32 for an int32 field). It reads the same bytes
      as `ReadVarint`, fails on the same inputs with the same error, and keeps the low bits. */
  method DecodeVarint(dAtA: seq<byte>, start: nat, modulus: nat) returns (r: Result<VarintRead>)
    requires start <= |dAtA|
    requires modulus == TWO64 || modulus == TWO32
    ensures r.Ok? <==> ReadVarint(dAtA[start..]).Ok?
    ensures r.Err? ==> r == ReadVarint(dAtA[start..])
    ensures r.Ok? ==> r.value.len == ReadVarint(dAtA[start..]).value.len
    ensures r.Ok? ==> r.value.value == ReadVarint(dAtA[start..]).value.value % modulus
  {
    hide LowBits, BitOr, ShiftLeft, ScanVarint, ReadVarint;
    ghost var b := dAtA[start..];
    ReadByScan(b, modulus);
    var iNdEx := start;
    var acc: uint64 := 0;
    var shift := 0;
    while true
      invariant start <= iNdEx <= |dAtA| && shift == 7 * (iNdEx - start) <= 70
      invariant ScanVarint(b, 0) == ScanVarint(b, iNdEx - start)
      invariant acc == LowBits(b, iNdEx - start, modulus)
      decreases |dAtA| - iNdEx
    {
      ghost var k := iNdEx - start;
      ScanStep(b, k);
      if shift >= 64 {
        return Err(IntOverflow);
      }
      if iNdEx >= |dAtA| {
        return Err(UnexpectedEOF);
      }
      var octet := dAtA[iNdEx];
      iNdEx := iNdEx + 1;
      DecodeStep(b, k, modulus);
      acc := BitOr(acc, ShiftLeft(octet % 128, shift, modulus));
      if octet < 128 {
        return Ok(VarintRead(acc, iNdEx - start));
      }
      shift := shift + 7;
    }
  }

  lemma ModOfMod(x: nat)
    ensures (x % TWO64) % TWO32 == x % TWO32
  {
  }
}
