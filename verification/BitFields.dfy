/**
  Bit-field access (ldc/gen/dvalue.cpp, DBitFieldLValue) on a little-endian target.  A field
  is read and written through the smallest whole number of bytes that covers it, at its own
  address; covering integers of neighbouring fields overlap and differ in size.

  Integers of any width are their bits, least significant first.
 */
module BitFields {

  type Bits = seq<bool>

  type Byte = b: Bits | |b| == 8 witness [false, false, false, false, false, false, false, false]

  // -------------------------------------------------------------- instructions on integers

  function LowBitsSet(size: nat, n: nat): (r: Bits)
    ensures |r| == size
  {
    seq(size, i => i < n)
  }

  function And(a: Bits, b: Bits): (r: Bits)
    requires |a| == |b|
    ensures |r| == |a|
  {
    seq(|a|, i requires 0 <= i < |a| => a[i] && b[i])
  }

  function Or(a: Bits, b: Bits): (r: Bits)
    requires |a| == |b|
    ensures |r| == |a|
  {
    seq(|a|, i requires 0 <= i < |a| => a[i] || b[i])
  }

  function Not(a: Bits): (r: Bits)
    ensures |r| == |a|
  {
    seq(|a|, i requires 0 <= i < |a| => !a[i])
  }

  function Shl(a: Bits, n: nat): (r: Bits)
    ensures |r| == |a|
  {
    seq(|a|, i requires 0 <= i < |a| => i >= n && a[i - n])
  }

  function LShr(a: Bits, n: nat): (r: Bits)
    ensures |r| == |a|
  {
    seq(|a|, i requires 0 <= i < |a| => i + n < |a| && a[i + n])
  }

  function AShr(a: Bits, n: nat): (r: Bits)
    requires |a| > 0
    ensures |r| == |a|
  {
    seq(|a|, i requires 0 <= i < |a| => if i + n < |a| then a[i + n] else a[|a| - 1])
  }

  function ZExtOrTrunc(a: Bits, size: nat): (r: Bits)
    ensures |r| == size
  {
    seq(size, i => 0 <= i < |a| && a[i])
  }

  function SExtOrTrunc(a: Bits, size: nat): (r: Bits)
    requires |a| > 0
    ensures |r| == size
  {
    seq(size, i => if 0 <= i < |a| then a[i] else a[|a| - 1])
  }

  // ------------------------------------------------------------------------------ numbers

  function Pow2(n: nat): (r: nat)
    ensures r > 0
  {
    if n == 0 then 1 else 2 * Pow2(n - 1)
  }

  function ToNat(a: Bits): nat {
    if a == [] then 0 else (if a[0] then 1 else 0) + 2 * ToNat(a[1..])
  }

  /** Two's complement. */
  function ToInt(a: Bits): int
    requires |a| > 0
  {
    if a[|a| - 1] then ToNat(a) - Pow2(|a|) else ToNat(a)
  }

  lemma {:induction false} ToNatBound(a: Bits)
    ensures ToNat(a) < Pow2(|a|)
  {
    if a != [] { ToNatBound(a[1..]); }
  }

  lemma DoubleFirst(a: nat, b: nat)
    ensures (2 * a) * b == 2 * (a * b)
  {
  }

  lemma {:induction false} ToNatSplit(a: Bits, b: Bits)
    ensures ToNat(a + b) == ToNat(a) + Pow2(|a|) * ToNat(b)
  {
    if a == [] {
      assert a + b == b;
    } else {
      assert (a + b)[1..] == a[1..] + b;
      ToNatSplit(a[1..], b);
      DoubleFirst(Pow2(|a| - 1), ToNat(b));
    }
  }

  lemma {:induction false} ToNatConstant(n: nat, x: bool)
    ensures ToNat(seq(n, i => x)) == if x then Pow2(n) - 1 else 0
  {
    var s := seq(n, i => x);
    if n > 0 {
      assert s[1..] == seq(n - 1, i => x);
      ToNatConstant(n - 1, x);
    }
  }

  /** The low bits are the remainder. */
  lemma LowBitsAreRemainder(a: Bits, w: nat)
    requires w <= |a|
    ensures ToNat(a[..w]) == ToNat(a) % Pow2(w)
  {
    assert a == a[..w] + a[w..];
    ToNatSplit(a[..w], a[w..]);
    ToNatBound(a[..w]);
    RemainderIs(ToNat(a[..w]), ToNat(a[w..]), Pow2(w));
  }

  lemma RemainderIs(r: nat, q: nat, m: nat)
    requires r < m
    ensures (r + m * q) % m == r
  {
    var x := r + m * q;
    var q', r' := x / m, x % m;
    assert x == m * q' + r';
    assert m * (q - q') == r' - r;
    if q > q' {
      ProductAtLeast(m, q - q');
    } else if q < q' {
      ProductAtLeast(m, q' - q);
    }
  }

  lemma ProductAtLeast(m: nat, k: nat)
    requires k > 0
    ensures m * k >= m
  {
  }

  // --------------------------------------------------------------------------- extensions

  /** The field's bits as a value of the field's declared type. */
  function Extend(f: Bits, unsigned: bool, size: nat): (r: Bits)
    requires |f| > 0
    ensures |r| == size
  {
    seq(size, i => if 0 <= i < |f| then f[i] else !unsigned && f[|f| - 1])
  }

  lemma ExtendNumber(f: Bits, unsigned: bool, size: nat)
    requires 0 < |f| <= size
    ensures unsigned ==> ToNat(Extend(f, unsigned, size)) == ToNat(f)
    ensures !unsigned ==> ToInt(Extend(f, unsigned, size)) == ToInt(f)
  {
    if unsigned { ExtendUnsigned(f, size); } else { ExtendSigned(f, size); }
  }

  lemma ExtendUnsigned(f: Bits, size: nat)
    requires 0 < |f| <= size
    ensures ToNat(Extend(f, true, size)) == ToNat(f)
  {
    hide ToNat, Pow2;
    assert Extend(f, true, size) == f + seq(size - |f|, i => false);
    HighBits(f, size - |f|, false);
  }

  lemma ExtendSigned(f: Bits, size: nat)
    requires 0 < |f| <= size
    ensures ToInt(Extend(f, false, size)) == ToInt(f)
  {
    hide ToNat, Pow2;
    var x, r := f[|f| - 1], Extend(f, false, size);
    assert r == f + seq(size - |f|, i => x) && r[size - 1] == x;
    hide Extend;
    HighBits(f, size - |f|, x);
  }

  lemma HighBits(f: Bits, n: nat, x: bool)
    ensures ToNat(f + seq(n, i => x)) == ToNat(f) + if x then Pow2(|f| + n) - Pow2(|f|) else 0
  {
    ToNatSplit(f, seq(n, i => x));
    ToNatConstant(n, x);
    Pow2Sum(|f|, n);
    Distribute(Pow2(|f|), Pow2(n));
  }

  lemma Distribute(a: nat, b: nat)
    ensures a * (b - 1) == a * b - a
  {
  }

  lemma {:induction false} Pow2Sum(a: nat, b: nat)
    ensures Pow2(a) * Pow2(b) == Pow2(a + b)
  {
    if a > 0 {
      Pow2Sum(a - 1, b);
      DoubleFirst(Pow2(a - 1), Pow2(b));
    }
  }

  // ------------------------------------------------------------------------------- memory

  predicate MemBit(mem: seq<Byte>, i: nat)
    requires i < 8 * |mem|
  {
    mem[i / 8][i % 8]
  }

  function LoadInt(mem: seq<Byte>, ptr: nat, bytes: nat): (r: Bits)
    requires ptr + bytes <= |mem|
    ensures |r| == 8 * bytes
    ensures forall i :: 0 <= i < 8 * bytes ==> r[i] == MemBit(mem, 8 * ptr + i)
  {
    seq(8 * bytes, i requires 0 <= i < 8 * bytes => MemBit(mem, 8 * ptr + i))
  }

  /** The w bits of memory from bit position start on. */
  function FieldBits(mem: seq<Byte>, start: nat, w: nat): (r: Bits)
    requires start + w <= 8 * |mem|
    ensures |r| == w
  {
    seq(w, i requires 0 <= i < w => MemBit(mem, start + i))
  }

  /** Memory after the bytes of v were put at ptr. */
  ghost predicate Written(mem: seq<Byte>, mem': seq<Byte>, ptr: nat, bytes: nat, v: Bits)
    requires |v| == 8 * bytes
  {
    |mem'| == |mem|
    && forall i :: 0 <= i < 8 * |mem| ==>
      MemBit(mem', i) == if 8 * ptr <= i < 8 * (ptr + bytes) then v[i - 8 * ptr] else MemBit(mem, i)
  }

  /** No bit outside the w bits from start on is different. */
  ghost predicate ChangedOnly(mem: seq<Byte>, mem': seq<Byte>, start: nat, w: nat) {
    |mem'| == |mem|
    && forall i :: 0 <= i < 8 * |mem| && !(start <= i < start + w) ==> MemBit(mem', i) == MemBit(mem, i)
  }

  method StoreInt(mem: array<Byte>, ptr: nat, v: Bits, bytes: nat)
    requires |v| == 8 * bytes && ptr + bytes <= mem.Length
    modifies mem
    ensures Written(old(mem[..]), mem[..], ptr, bytes, v)
  {
    var k := 0;
    while k < bytes
      invariant 0 <= k <= bytes
      invariant forall j :: 0 <= j < mem.Length ==>
        mem[j] == if ptr <= j < ptr + k then v[8 * (j - ptr)..8 * (j - ptr) + 8] else old(mem[j])
    {
      mem[ptr + k] := v[8 * k..8 * k + 8];
      k := k + 1;
    }
  }

  // ---- the two ways to cut the field out of its covering integer, and the way back

  /** f is v from bit off on. */
  ghost predicate Inside(f: Bits, v: Bits, off: nat) {
    off + |f| <= |v| && forall i :: 0 <= i < |f| ==> f[i] == v[off + i]
  }

  lemma CutUnsigned(v: Bits, off: nat, f: Bits, size: nat)
    requires 0 < |f| && Inside(f, v, off)
    ensures ZExtOrTrunc(And(LShr(v, off), LowBitsSet(|v|, |f|)), size) == Extend(f, true, size)
    ensures off == 0 ==> LShr(v, off) == v
  {
    var x := And(LShr(v, off), LowBitsSet(|v|, |f|));
    assert forall i :: 0 <= i < |v| ==> x[i] == (i < |f| && f[i]);
  }

  lemma CutSigned(v: Bits, off: nat, f: Bits, size: nat)
    requires 0 < |f| && Inside(f, v, off)
    ensures SExtOrTrunc(AShr(Shl(v, |v| - (off + |f|)), |v| - |f|), size) == Extend(f, false, size)
  {
    var x := AShr(Shl(v, |v| - (off + |f|)), |v| - |f|);
    var r := SExtOrTrunc(x, size);
    forall i | 0 <= i < size ensures r[i] == Extend(f, false, size)[i] {
      CutBit(v, off, |f|, if i < |v| then i else |v| - 1);
    }
  }

  lemma CutBit(v: Bits, off: nat, w: nat, i: nat)
    requires 0 < w && off + w <= |v| && i < |v|
    ensures AShr(Shl(v, |v| - (off + w)), |v| - w)[i] == v[off + if i < w then i else w - 1]
  {
    var y := Shl(v, |v| - (off + w));
    var j := if i < w then i else w - 1;
    assert y[|v| - w + j] == v[off + j];
  }

  lemma ShiftByZero(v: Bits)
    ensures Shl(v, 0) == v
    ensures |v| > 0 ==> AShr(v, 0) == v
  {
  }

  lemma Merged(oldVal: Bits, value: Bits, off: nat, w: nat)
    requires off + w <= |oldVal|
    ensures var mask := LowBitsSet(|oldVal|, w);
      Merges(oldVal, Or(And(oldVal, Not(Shl(mask, off))), Shl(And(ZExtOrTrunc(value, |oldVal|), mask), off)),
        off, ZExtOrTrunc(value, w))
  {
  }

  /** v is oldVal with field put at bit off. */
  ghost predicate Merges(oldVal: Bits, v: Bits, off: nat, field: Bits) {
    |v| == |oldVal|
    && forall i :: 0 <= i < |v| ==> v[i] == if off <= i < off + |field| then field[i - off] else oldVal[i]
  }

  lemma StoredBits(mem: seq<Byte>, mem': seq<Byte>, ptr: nat, bytes: nat, off: nat, v: Bits, oldVal: Bits, field: Bits)
    requires ptr + bytes <= |mem| && |v| == |oldVal| == 8 * bytes && off + |field| <= 8 * bytes
    requires Written(mem, mem', ptr, bytes, v) && oldVal == LoadInt(mem, ptr, bytes)
    requires Merges(oldVal, v, off, field)
    ensures |mem'| == |mem| && FieldBits(mem', 8 * ptr + off, |field|) == field
    ensures ChangedOnly(mem, mem', 8 * ptr + off, |field|)
  {
    hide MemBit;
    forall k | 0 <= k < |field| ensures FieldBits(mem', 8 * ptr + off, |field|)[k] == field[k] {
      assert MemBit(mem', 8 * ptr + off + k) == v[off + k];
    }
    forall i | 0 <= i < 8 * |mem| && !(8 * ptr + off <= i < 8 * ptr + off + |field|)
      ensures MemBit(mem', i) == MemBit(mem, i)
    {
      if 8 * ptr <= i < 8 * (ptr + bytes) {
        assert v[i - 8 * ptr] == oldVal[i - 8 * ptr] == MemBit(mem, 8 * ptr + (i - 8 * ptr));
      }
    }
  }

  lemma FieldInCover(mem: seq<Byte>, ptr: nat, bytes: nat, off: nat, w: nat)
    requires ptr + bytes <= |mem| && bytes == (off + w + 7) / 8
    ensures off + w <= 8 * bytes
    ensures Inside(FieldBits(mem, 8 * ptr + off, w), LoadInt(mem, ptr, bytes), off)
  {
    hide MemBit;
    var f, v := FieldBits(mem, 8 * ptr + off, w), LoadInt(mem, ptr, bytes);
    forall i | 0 <= i < w ensures f[i] == v[off + i] {
      assert v[off + i] == MemBit(mem, 8 * ptr + (off + i));
    }
  }

  class BitFieldLValue {
    const mem: array<Byte>
    const ptr: nat
    const bitOffset: nat
    const fieldWidth: nat
    const unsigned: bool
    const typeBits: nat
    const bytes: nat

    /** The covering integer lies in memory. */
    ghost predicate Valid()
      reads this
    {
      fieldWidth > 0 && bytes == (bitOffset + fieldWidth + 7) / 8 && ptr + bytes <= mem.Length
    }

    constructor (mem: array<Byte>, ptr: nat, bitOffset: nat, fieldWidth: nat, unsigned: bool, typeBits: nat)
      requires fieldWidth > 0 && ptr + (bitOffset + fieldWidth + 7) / 8 <= mem.Length
      ensures Valid() && this.mem == mem && Start() == 8 * ptr + bitOffset && this.fieldWidth == fieldWidth
      ensures this.unsigned == unsigned && this.typeBits == typeBits
    {
      this.mem, this.ptr, this.bitOffset, this.fieldWidth := mem, ptr, bitOffset, fieldWidth;
      this.unsigned, this.typeBits, this.bytes := unsigned, typeBits, (bitOffset + fieldWidth + 7) / 8;
    }

    /** The field's first bit in memory. */
    function Start(): nat { 8 * ptr + bitOffset }

    method GetRVal() returns (r: Bits)
      requires Valid()
      ensures r == Extend(FieldBits(mem[..], Start(), fieldWidth), unsigned, typeBits)
    {
      var sizeInBits := 8 * bytes;
      hide LoadInt, FieldBits, MemBit, LShr, And, LowBitsSet, ZExtOrTrunc, Shl, AShr, SExtOrTrunc, Extend;
      FieldInCover(mem[..], ptr, bytes, bitOffset, fieldWidth);
      ghost var f := FieldBits(mem[..], Start(), fieldWidth);
      var v := LoadInt(mem[..], ptr, bytes);
      if unsigned {
        CutUnsigned(v, bitOffset, f, typeBits);
        if bitOffset != 0 { v := LShr(v, bitOffset); }
        v := And(v, LowBitsSet(sizeInBits, fieldWidth));
        r := ZExtOrTrunc(v, typeBits);
      } else {
        CutSigned(v, bitOffset, f, typeBits);
        var n := sizeInBits - (bitOffset + fieldWidth);
        ShiftByZero(v);
        ShiftByZero(Shl(v, n));
        if n != 0 { v := Shl(v, n); }
        if sizeInBits - fieldWidth != 0 { v := AShr(v, sizeInBits - fieldWidth); }
        r := SExtOrTrunc(v, typeBits);
      }
    }

    /** Where the covering integer lies. */
    lemma Cover()
      requires Valid()
      ensures ptr + bytes <= mem.Length && bitOffset + fieldWidth <= 8 * bytes && Start() == 8 * ptr + bitOffset
    {
    }

    /** The covering integer with the field replaced. */
    method NewValue(oldVal: Bits, value: Bits) returns (newVal: Bits)
      requires |oldVal| == 8 * bytes && bitOffset + fieldWidth <= 8 * bytes
      ensures Merges(oldVal, newVal, bitOffset, ZExtOrTrunc(value, fieldWidth))
    {
      hide Shl, And, Or, Not, LowBitsSet, ZExtOrTrunc, Merges;
      var sizeInBits := 8 * bytes;
      var mask := LowBitsSet(sizeInBits, fieldWidth);
      var maskedOldVal := And(oldVal, Not(Shl(mask, bitOffset)));
      var bfVal := ZExtOrTrunc(value, sizeInBits);
      bfVal := And(bfVal, mask);
      ShiftByZero(bfVal);
      if bitOffset != 0 { bfVal := Shl(bfVal, bitOffset); }
      newVal := Or(maskedOldVal, bfVal);
      Merged(oldVal, value, bitOffset, fieldWidth);
    }

    /** Only the field's bits change; they become the low bits of the value (zeros beyond its width). */
    method Store(value: Bits)
      requires Valid()
      modifies mem
      ensures ChangedOnly(old(mem[..]), mem[..], Start(), fieldWidth)
      ensures FieldBits(mem[..], Start(), fieldWidth) == ZExtOrTrunc(value, fieldWidth)
    {
      Cover();
      hide *;
      ghost var before, field := mem[..], ZExtOrTrunc(value, fieldWidth);
      var oldVal := LoadInt(mem[..], ptr, bytes);
      var newVal := NewValue(oldVal, value);
      MergedSize(oldVal, newVal, bitOffset, field);
      StoreInt(mem, ptr, newVal, bytes);
      StoredBits(before, mem[..], ptr, bytes, bitOffset, newVal, oldVal, field);
    }
  }

  lemma MergedSize(oldVal: Bits, v: Bits, off: nat, field: Bits)
    requires Merges(oldVal, v, off, field)
    ensures |v| == |oldVal|
  {
  }

  /** Memory that agrees on a field's bits gives the field the same value. */
  lemma UntouchedField(mem: seq<Byte>, mem': seq<Byte>, start: nat, w: nat, start2: nat, w2: nat)
    requires |mem| == |mem'| && start + w <= 8 * |mem|
    requires start + w <= start2 || start2 + w2 <= start
    requires ChangedOnly(mem, mem', start2, w2)
    ensures FieldBits(mem', start, w) == FieldBits(mem, start, w)
  {
  }

  /** What a store leaves for the next load, as numbers: the value modulo 2^w, in the field type's range. */
  lemma StoredNumber(value: Bits, w: nat, unsigned: bool, size: nat)
    requires 0 < w <= |value| && w <= size
    ensures var r := Extend(ZExtOrTrunc(value, w), unsigned, size);
      if unsigned then ToNat(r) == ToNat(value) % Pow2(w)
      else 0 - Pow2(w - 1) <= ToInt(r) < Pow2(w - 1)
           && (ToInt(r) == ToNat(value) % Pow2(w) || ToInt(r) == ToNat(value) % Pow2(w) - Pow2(w))
  {
    var f := ZExtOrTrunc(value, w);
    assert f == value[..w];
    LowBitsAreRemainder(value, w);
    ExtendNumber(f, unsigned, size);
    SignRange(f);
  }

  lemma SignRange(f: Bits)
    requires |f| > 0
    ensures 0 - Pow2(|f| - 1) <= ToInt(f) < Pow2(|f| - 1)
  {
    var n := |f| - 1;
    assert f == f[..n] + [f[n]];
    ToNatSplit(f[..n], [f[n]]);
    ToNatBound(f[..n]);
    assert ToNat([f[n]]) == if f[n] then 1 else 0;
  }

  /**
    A store followed by loads: the stored field gives the value reduced to its width, and a
    disjoint field gives what it gave before, however the covering integers lie.
   */
  method StoreThenLoad(a: BitFieldLValue, b: BitFieldLValue, value: Bits) returns (ra: Bits, was: Bits, rb: Bits)
    requires a.Valid() && b.Valid() && a.mem == b.mem
    requires a.Start() + a.fieldWidth <= b.Start() || b.Start() + b.fieldWidth <= a.Start()
    modifies a.mem
    ensures was == rb
    ensures ra == Extend(ZExtOrTrunc(value, a.fieldWidth), a.unsigned, a.typeBits)
    ensures was == Extend(FieldBits(old(b.mem[..]), b.Start(), b.fieldWidth), b.unsigned, b.typeBits)
  {
    was := b.GetRVal();
    a.Store(value);
    UntouchedField(old(b.mem[..]), b.mem[..], b.Start(), b.fieldWidth, a.Start(), a.fieldWidth);
    ra := a.GetRVal();
    rb := b.GetRVal();
  }
}
