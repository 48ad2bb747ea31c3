/** Unsigned machine words as natural numbers, with the shifts, masks and field
    updates the register code is written in.

    Every operation is defined by halving, so proofs about it are inductions over
    linear arithmetic.  `Bit` is the observer: two words with the same bits are equal.
    A shift by the word width or more yields 0, because the words here are below
    2^64 and `Shr` keeps halving. */
module BitField {

  import opened Words

  function Pow2(n: nat): (p: nat)
    ensures p > 0
  {
    if n == 0 then 1 else 2 * Pow2(n - 1)
  }

  predicate Bit(n: nat, i: nat)
    decreases i
  {
    if i == 0 then n % 2 == 1 else Bit(n / 2, i - 1)
  }

  /** `n << k` */
  function Shl(n: nat, k: nat): nat {
    if k == 0 then n else 2 * Shl(n, k - 1)
  }

  /** `n >> k` */
  function Shr(n: nat, k: nat): nat
    decreases k
  {
    if k == 0 then n else Shr(n / 2, k - 1)
  }

  /** The low `width` bits of `n`. */
  function Low(n: nat, width: nat): nat
    decreases width
  {
    if width == 0 then 0 else n % 2 + 2 * Low(n / 2, width - 1)
  }

  function GetField(reg: nat, offset: nat, width: nat): nat {
    Low(Shr(reg, offset), width)
  }

  /** Replaces `width` bits of `reg` from `offset` on by the low `width` bits of `v`. */
  function SetField(reg: nat, offset: nat, width: nat, v: nat): nat
    decreases offset, width
  {
    if offset > 0 then reg % 2 + 2 * SetField(reg / 2, offset - 1, width, v)
    else if width > 0 then v % 2 + 2 * SetField(reg / 2, 0, width - 1, v / 2)
    else reg
  }

  /** `a | b` */
  function Or(a: nat, b: nat): nat
    decreases a + b
  {
    if a == 0 && b == 0 then 0
    else (if a % 2 == 1 || b % 2 == 1 then 1 else 0) + 2 * Or(a / 2, b / 2)
  }

  /** `a ^ b` */
  function Xor(a: nat, b: nat): nat
    decreases a + b
  {
    if a == 0 && b == 0 then 0
    else (if a % 2 != b % 2 then 1 else 0) + 2 * Xor(a / 2, b / 2)
  }

  // ---------- powers of two ----------

  lemma Pow2Of64()
    ensures Pow2(64) == TWO_TO_THE_64
  {
    assert Pow2(8) == 256;
    Pow2Sum(8, 8);
    Pow2Sum(16, 16);
    Pow2Sum(32, 32);
  }

  lemma {:induction false} Pow2Sum(a: nat, b: nat)
    ensures Pow2(a + b) == Pow2(a) * Pow2(b)
    decreases a
  {
    if a > 0 { Pow2Sum(a - 1, b); }
  }

  lemma {:induction false} Pow2Monotone(a: nat, b: nat)
    requires a <= b
    ensures Pow2(a) <= Pow2(b)
  {
    if a < b { Pow2Monotone(a, b - 1); }
  }

  // ---------- what each operation does to the bits ----------

  lemma {:induction false} BitExtensional(a: nat, b: nat)
    requires forall i: nat :: Bit(a, i) == Bit(b, i)
    ensures a == b
    decreases a + b
  {
    if a != 0 || b != 0 {
      assert Bit(a, 0) == Bit(b, 0);
      forall i: nat ensures Bit(a / 2, i) == Bit(b / 2, i) {
        assert Bit(a, i + 1) == Bit(b, i + 1);
      }
      BitExtensional(a / 2, b / 2);
    }
  }

  lemma {:induction false} BitOfZero(i: nat)
    ensures !Bit(0, i)
  {
    if i > 0 { BitOfZero(i - 1); }
  }

  lemma {:induction false} BitOfShr(n: nat, k: nat, i: nat)
    ensures Bit(Shr(n, k), i) == Bit(n, i + k)
    decreases k
  {
    if k > 0 { BitOfShr(n / 2, k - 1, i); }
  }

  lemma {:induction false} ShrStep(n: nat, i: nat)
    ensures Shr(n, i + 1) == Shr(n, i) / 2
    decreases i
  {
    if i > 0 { ShrStep(n / 2, i - 1); }
  }

  lemma {:induction false} ShlOne(k: nat)
    ensures Shl(1, k) == Pow2(k)
  {
    if k > 0 { ShlOne(k - 1); }
  }

  lemma BitOfDoubled(x: nat, low: nat, rest: nat, i: nat)
    requires low < 2 && x == low + 2 * rest
    ensures Bit(x, i) == if i == 0 then low == 1 else Bit(rest, i - 1)
  {
    assert x % 2 == low && x / 2 == rest;
  }

  lemma {:induction false} BitOfShl(n: nat, k: nat, i: nat)
    ensures Bit(Shl(n, k), i) == (i >= k && Bit(n, i - k))
    decreases k
  {
    if k > 0 {
      BitOfDoubled(Shl(n, k), 0, Shl(n, k - 1), i);
      if i > 0 { BitOfShl(n, k - 1, i - 1); }
    }
  }

  lemma {:induction false} BitOfLow(n: nat, width: nat, i: nat)
    ensures Bit(Low(n, width), i) == (i < width && Bit(n, i))
    decreases width
  {
    if width == 0 {
      BitOfZero(i);
    } else {
      BitOfDoubled(Low(n, width), n % 2, Low(n / 2, width - 1), i);
      if i > 0 { BitOfLow(n / 2, width - 1, i - 1); }
    }
  }

  lemma {:induction false} BitOfSetField(reg: nat, offset: nat, width: nat, v: nat, i: nat)
    ensures Bit(SetField(reg, offset, width, v), i)
         == if offset <= i < offset + width then Bit(v, i - offset) else Bit(reg, i)
    decreases offset, width
  {
    var r := SetField(reg, offset, width, v);
    if offset > 0 {
      BitOfDoubled(r, reg % 2, SetField(reg / 2, offset - 1, width, v), i);
      if i > 0 { BitOfSetField(reg / 2, offset - 1, width, v, i - 1); }
    } else if width > 0 {
      BitOfDoubled(r, v % 2, SetField(reg / 2, 0, width - 1, v / 2), i);
      if i > 0 { BitOfSetField(reg / 2, 0, width - 1, v / 2, i - 1); }
    }
  }

  lemma {:induction false} BitOfOr(a: nat, b: nat, i: nat)
    ensures Bit(Or(a, b), i) == (Bit(a, i) || Bit(b, i))
    decreases i
  {
    if a == 0 && b == 0 {
      BitOfZero(i);
    } else {
      BitOfDoubled(Or(a, b), if a % 2 == 1 || b % 2 == 1 then 1 else 0, Or(a / 2, b / 2), i);
      if i > 0 { BitOfOr(a / 2, b / 2, i - 1); }
    }
  }

  lemma {:induction false} BitOfXor(a: nat, b: nat, i: nat)
    ensures Bit(Xor(a, b), i) == (Bit(a, i) != Bit(b, i))
    decreases i
  {
    if a == 0 && b == 0 {
      BitOfZero(i);
    } else {
      BitOfDoubled(Xor(a, b), if a % 2 != b % 2 then 1 else 0, Xor(a / 2, b / 2), i);
      if i > 0 { BitOfXor(a / 2, b / 2, i - 1); }
    }
  }

  // ---------- fields ----------

  lemma {:induction false} BitOfGetField(reg: nat, offset: nat, width: nat, i: nat)
    ensures Bit(GetField(reg, offset, width), i) == (i < width && Bit(reg, offset + i))
  {
    BitOfLow(Shr(reg, offset), width, i);
    BitOfShr(reg, offset, i);
  }

  lemma GetSetSame(reg: nat, offset: nat, width: nat, v: nat)
    ensures GetField(SetField(reg, offset, width, v), offset, width) == Low(v, width)
  {
  }

  lemma GetSetOther(reg: nat, offset: nat, width: nat, v: nat, o: nat, w: nat)
    requires o + w <= offset || offset + width <= o
    ensures GetField(SetField(reg, offset, width, v), o, w) == GetField(reg, o, w)
  {
    var r := SetField(reg, offset, width, v);
    forall i: nat ensures Bit(GetField(r, o, w), i) == Bit(GetField(reg, o, w), i) {
      BitOfGetField(r, o, w, i);
      BitOfGetField(reg, o, w, i);
      BitOfSetField(reg, offset, width, v, o + i);
    }
    BitExtensional(GetField(r, o, w), GetField(reg, o, w));
  }

  /** Only the low bits of the value matter. */
  lemma SetFieldLow(reg: nat, offset: nat, width: nat, v: nat)
    ensures SetField(reg, offset, width, v) == SetField(reg, offset, width, Low(v, width))
  {
  }

  lemma {:induction false} SetFieldBound(reg: nat, offset: nat, width: nat, v: nat, m: nat)
    requires reg < Pow2(m) && offset + width <= m
    ensures SetField(reg, offset, width, v) < Pow2(m)
    decreases offset, width
  {
    if offset > 0 {
      SetFieldBound(reg / 2, offset - 1, width, v, m - 1);
    } else if width > 0 {
      SetFieldBound(reg / 2, 0, width - 1, v / 2, m - 1);
    }
  }

  lemma {:induction false} OrBound(a: nat, b: nat, m: nat)
    requires a < Pow2(m) && b < Pow2(m)
    ensures Or(a, b) < Pow2(m)
    decreases m
  {
    if m > 0 && (a != 0 || b != 0) { OrBound(a / 2, b / 2, m - 1); }
  }

  lemma {:induction false} LowBound(n: nat, width: nat)
    ensures Low(n, width) < Pow2(width)
    ensures n < Pow2(width) ==> Low(n, width) == n
    decreases width
  {
    if width > 0 { LowBound(n / 2, width - 1); }
  }

  /** Adding a shifted value above everything already in the word is the same as
      setting the field: nothing carries. */
  lemma {:induction false} AddIsSetField(reg: nat, offset: nat, width: nat, v: nat)
    requires reg < Pow2(offset) && v < Pow2(width)
    ensures reg + Shl(v, offset) == SetField(reg, offset, width, v)
    decreases offset, width
  {
    if offset > 0 {
      AddIsSetField(reg / 2, offset - 1, width, v);
    } else if width > 0 {
      AddIsSetField(0, 0, width - 1, v / 2);
    }
  }

  /** A bit at or above the size of the word is clear. */
  lemma {:induction false} HighBitClear(n: nat, m: nat, i: nat)
    requires n < Pow2(m) && i >= m
    ensures !Bit(n, i)
    decreases i
  {
    if i == 0 {
      assert n == 0;
    } else if m == 0 {
      BitOfZero(i);
    } else {
      HighBitClear(n / 2, m - 1, i - 1);
    }
  }

  ghost predicate DifferOnlyAt(a: nat, b: nat, k: nat) {
    forall i: nat :: Bit(a, i) == Bit(b, i) <==> i != k
  }

  /** Only one bit differs between two words exactly when their exclusive or is that bit. */
  lemma XorIsOneBit(a: nat, b: nat, k: nat)
    ensures Xor(a, b) == Shl(1, k) <==> DifferOnlyAt(a, b, k)
  {
    forall i: nat
      ensures Bit(Shl(1, k), i) == (i == k)
      ensures Bit(Xor(a, b), i) == (Bit(a, i) != Bit(b, i))
    {
      BitOfShl(1, k, i);
      if i > k { BitOfZero(i - k - 1); }
      BitOfXor(a, b, i);
    }
    if Xor(a, b) == Shl(1, k) {
      forall i: nat ensures Bit(a, i) == Bit(b, i) <==> i != k {
        assert Bit(Xor(a, b), i) == Bit(Shl(1, k), i);
      }
    } else if DifferOnlyAt(a, b, k) {
      forall i: nat ensures Bit(Xor(a, b), i) == Bit(Shl(1, k), i) {
        assert Bit(a, i) == Bit(b, i) <==> i != k;
      }
      BitExtensional(Xor(a, b), Shl(1, k));
    }
  }

  // ---------- lists of fields ----------

  /** `code` written into `width` bits from `offset` on. */
  datatype Field = Field(offset: nat, width: nat, code: nat)

  ghost predicate Disjoint(f: Field, g: Field) {
    f.offset + f.width <= g.offset || g.offset + g.width <= f.offset
  }

  ghost predicate PairwiseDisjoint(fs: seq<Field>) {
    forall i, j :: 0 <= i < j < |fs| ==> Disjoint(fs[i], fs[j])
  }

  /** Each field starts where the one before it ended, or later. */
  ghost predicate Ascending(fs: seq<Field>) {
    forall i :: 0 < i < |fs| ==> fs[i - 1].offset + fs[i - 1].width <= fs[i].offset
  }

  lemma {:induction false} AscendingOrder(fs: seq<Field>, i: nat, j: nat)
    requires Ascending(fs) && i < j < |fs|
    ensures fs[i].offset + fs[i].width <= fs[j].offset
    decreases j
  {
    if i < j - 1 { AscendingOrder(fs, i, j - 1); }
  }

  lemma AscendingDisjoint(fs: seq<Field>)
    requires Ascending(fs)
    ensures PairwiseDisjoint(fs)
  {
    forall i, j | 0 <= i < j < |fs| ensures Disjoint(fs[i], fs[j]) { AscendingOrder(fs, i, j); }
  }

  /** The word left after writing the fields one after the other into 0. */
  ghost function Pack(fs: seq<Field>): nat {
    if fs == [] then 0
    else
      var f := fs[|fs| - 1];
      SetField(Pack(fs[..|fs| - 1]), f.offset, f.width, f.code)
  }

  lemma PackSnoc(fs: seq<Field>, f: Field)
    ensures Pack(fs + [f]) == SetField(Pack(fs), f.offset, f.width, f.code)
  {
  }

  /** No field disturbs another: each one reads back what was put in. */
  lemma {:induction false} PackReadsBack(fs: seq<Field>, k: nat)
    requires PairwiseDisjoint(fs) && k < |fs|
    ensures GetField(Pack(fs), fs[k].offset, fs[k].width) == Low(fs[k].code, fs[k].width)
    decreases |fs|
  {
    var n := |fs| - 1;
    var f := fs[n];
    if k == n {
      GetSetSame(Pack(fs[..n]), f.offset, f.width, f.code);
    } else {
      PackReadsBack(fs[..n], k);
      assert fs[..n][k] == fs[k] && Disjoint(fs[k], f);
      GetSetOther(Pack(fs[..n]), f.offset, f.width, f.code, fs[k].offset, fs[k].width);
    }
  }

  function Set(reg: nat, f: Field): nat { SetField(reg, f.offset, f.width, f.code) }

  /** Writes the fields in order. */
  ghost function WriteAll(reg: nat, fs: seq<Field>): nat
    decreases |fs|
  {
    if fs == [] then reg else WriteAll(Set(reg, fs[0]), fs[1..])
  }

  lemma {:induction false} PackAppend(fs: seq<Field>, gs: seq<Field>)
    ensures Pack(fs + gs) == WriteAll(Pack(fs), gs)
    decreases |gs|
  {
    if gs == [] {
      assert fs + gs == fs;
    } else {
      PackSnoc(fs, gs[0]);
      PackAppend(fs + [gs[0]], gs[1..]);
      assert fs + [gs[0]] + gs[1..] == fs + gs;
    }
  }

  lemma WriteFirst(reg: nat, f: Field, rest: seq<Field>, fs: seq<Field>)
    requires fs == [f] + rest
    ensures WriteAll(reg, fs) == WriteAll(Set(reg, f), rest)
  {
  }

  lemma WriteThree(reg: nat, a: Field, b: Field, c: Field, rest: seq<Field>)
    ensures WriteAll(reg, [a, b, c] + rest) == WriteAll(Set(Set(Set(reg, a), b), c), rest)
  {
    WriteFirst(reg, a, [b, c] + rest, [a, b, c] + rest);
    WriteFirst(Set(reg, a), b, [c] + rest, [b, c] + rest);
    WriteFirst(Set(Set(reg, a), b), c, rest, [c] + rest);
  }

  /** Six fields written one after the other. */
  lemma PackSix(fs: seq<Field>, a: Field, b: Field, c: Field, d: Field, e: Field, f: Field)
    ensures Pack(fs + [a, b, c, d, e, f])
         == Set(Set(Set(Set(Set(Set(Pack(fs), a), b), c), d), e), f)
  {
    PackAppend(fs, [a, b, c, d, e, f]);
    WriteThree(Pack(fs), a, b, c, [d, e, f]);
    assert [a, b, c] + [d, e, f] == [a, b, c, d, e, f];
    PackThreeMore(Set(Set(Set(Pack(fs), a), b), c), d, e, f);
  }

  lemma PackThreeMore(reg: nat, a: Field, b: Field, c: Field)
    ensures WriteAll(reg, [a, b, c]) == Set(Set(Set(reg, a), b), c)
  {
    WriteThree(reg, a, b, c, []);
    assert [a, b, c] + [] == [a, b, c];
  }

  lemma PackThree(fs: seq<Field>, a: Field, b: Field, c: Field)
    ensures Pack(fs + [a, b, c]) == Set(Set(Set(Pack(fs), a), b), c)
  {
    PackAppend(fs, [a, b, c]);
    PackThreeMore(Pack(fs), a, b, c);
  }

  lemma {:induction false} PackBound(fs: seq<Field>, m: nat)
    requires forall f :: f in fs ==> f.offset + f.width <= m
    ensures Pack(fs) < Pow2(m)
    decreases |fs|
  {
    if fs != [] {
      var n := |fs| - 1;
      PackBound(fs[..n], m);
      SetFieldBound(Pack(fs[..n]), fs[n].offset, fs[n].width, fs[n].code, m);
    }
  }

  /** A bit that belongs to no field stays clear. */
  lemma {:induction false} PackClearElsewhere(fs: seq<Field>, i: nat)
    requires forall f :: f in fs ==> !(f.offset <= i < f.offset + f.width)
    ensures !Bit(Pack(fs), i)
    decreases |fs|
  {
    if fs == [] {
      BitOfZero(i);
    } else {
      var n := |fs| - 1;
      var f := fs[n];
      PackClearElsewhere(fs[..n], i);
      BitOfSetField(Pack(fs[..n]), f.offset, f.width, f.code, i);
    }
  }
}
