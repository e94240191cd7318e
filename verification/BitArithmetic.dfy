/** Unsigned machine arithmetic on natural numbers, bit by bit: a shift is that
    many doublings or halvings, a truncation keeps that many low bits. */
module BitArithmetic {

  type Byte = n: nat | n < 256

  function Pow2(n: nat): (p: nat)
    ensures 0 < p
  {
    if n == 0 then 1 else 2 * Pow2(n - 1)
  }

  /** x << n, without loss. */
  function Shl(x: nat, n: nat): nat {
    if n == 0 then x else 2 * Shl(x, n - 1)
  }

  /** x >> n. */
  function High(x: nat, n: nat): nat {
    if n == 0 then x else High(x / 2, n - 1)
  }

  /** The n low bits of x. */
  function Low(x: nat, n: nat): (r: nat)
    ensures r < Pow2(n)
  {
    if n == 0 then 0 else x % 2 + 2 * Low(x / 2, n - 1)
  }

  /** The field of the given width that starts at bit pos. */
  function Field(x: nat, pos: nat, width: nat): nat {
    Low(High(x, pos), width)
  }

  /** Bitwise or. */
  function Or(a: nat, b: nat): nat {
    if a == 0 && b == 0 then 0
    else 2 * Or(a / 2, b / 2) + (if a % 2 == 1 || b % 2 == 1 then 1 else 0)
  }

  /** Bitwise and. */
  function And(a: nat, b: nat): nat {
    if a == 0 || b == 0 then 0
    else 2 * And(a / 2, b / 2) + (if a % 2 == 1 && b % 2 == 1 then 1 else 0)
  }

  // ---------------------------------------------------------------------
  // Their meaning as arithmetic

  lemma {:induction false} ShlIsProduct(x: nat, n: nat)
    ensures Shl(x, n) == x * Pow2(n)
  {
    if n > 0 {
      ShlIsProduct(x, n - 1);
    }
  }

  /** The low bits are the remainder, the high bits the quotient, of the
      division by 2^n. */
  lemma RemainderAndQuotient(x: nat, n: nat)
    ensures Low(x, n) == x % Pow2(n) && High(x, n) == x / Pow2(n)
  {
    Split(x, n);
    ShlIsProduct(High(x, n), n);
    DivModUnique(x, Pow2(n), High(x, n), Low(x, n));
  }

  lemma DivModUnique(x: nat, m: nat, q: nat, r: nat)
    requires 0 < m && x == q * m + r && r < m
    ensures x / m == q && x % m == r
  {
    var d := x / m;
    assert x == d * m + x % m;
    if d < q {
      Monotone(d + 1, q, m);
      Distribute(d, 1, m);
      assert false;
    }
    if q < d {
      Monotone(q + 1, d, m);
      Distribute(q, 1, m);
      assert false;
    }
  }

  lemma Distribute(a: int, b: int, m: int)
    ensures (a + b) * m == a * m + b * m
  {
  }

  lemma Monotone(a: int, b: int, m: nat)
    requires a <= b
    ensures a * m <= b * m
  {
    Distribute(a, b - a, m);
    ProductNonNegative(b - a, m);
  }

  lemma ProductNonNegative(a: int, m: nat)
    requires 0 <= a
    ensures 0 <= a * m
  {
  }

  // ---------------------------------------------------------------------
  // Laws

  lemma {:induction false} Split(x: nat, n: nat)
    ensures x == Low(x, n) + Shl(High(x, n), n)
  {
    if n > 0 {
      Split(x / 2, n - 1);
    }
  }

  /** Low and high part of a number written as r below q. */
  lemma {:induction false} Digits(r: nat, q: nat, n: nat)
    requires r < Pow2(n)
    ensures Low(r + Shl(q, n), n) == r && High(r + Shl(q, n), n) == q
  {
    if n > 0 {
      Digits(r / 2, q, n - 1);
      assert (r + Shl(q, n)) / 2 == r / 2 + Shl(q, n - 1);
    }
  }

  lemma {:induction false} ZeroShl(n: nat)
    ensures Shl(0, n) == 0
  {
    if n > 0 {
      ZeroShl(n - 1);
    }
  }

  lemma LowOfSmall(x: nat, n: nat)
    requires x < Pow2(n)
    ensures Low(x, n) == x && High(x, n) == 0
  {
    ZeroShl(n);
    Digits(x, 0, n);
  }

  lemma {:induction false} ShlAdd(a: nat, b: nat, n: nat)
    ensures Shl(a + b, n) == Shl(a, n) + Shl(b, n)
  {
    if n > 0 {
      ShlAdd(a, b, n - 1);
    }
  }

  lemma {:induction false} ShlShl(a: nat, m: nat, n: nat)
    ensures Shl(Shl(a, m), n) == Shl(a, m + n)
  {
    if n > 0 {
      ShlShl(a, m, n - 1);
    }
  }

  lemma {:induction false} Pow2Add(a: nat, b: nat)
    ensures Pow2(a + b) == Shl(Pow2(a), b)
  {
    if b > 0 {
      Pow2Add(a, b - 1);
    }
  }

  lemma {:induction false} HighHigh(x: nat, m: nat, n: nat)
    ensures High(High(x, m), n) == High(x, m + n)
  {
    if m > 0 {
      HighHigh(x / 2, m - 1, n);
    }
  }

  lemma {:induction false} LowLow(x: nat, m: nat, n: nat)
    requires n <= m
    ensures Low(Low(x, m), n) == Low(x, n)
  {
    if n > 0 {
      LowLow(x / 2, m - 1, n - 1);
    }
  }

  lemma {:induction false} HighOfLow(x: nat, m: nat, n: nat)
    ensures High(Low(x, m + n), m) == Low(High(x, m), n)
  {
    if m > 0 {
      HighOfLow(x / 2, m - 1, n);
    }
  }

  /** The low m + n bits are the low m and the n above them. */
  lemma LowSum(x: nat, m: nat, n: nat)
    ensures Low(x, m + n) == Low(x, m) + Shl(Low(High(x, m), n), m)
  {
    Split(Low(x, m + n), m);
    LowLow(x, m + n, m);
    HighOfLow(x, m, n);
  }

  lemma LowTwice(x: nat, n: nat)
    requires n > 0
    ensures Low(2 * x, n) == 2 * Low(x, n - 1)
  {
    assert 2 * x % 2 == 0 && 2 * x / 2 == x;
  }

  lemma {:induction false} LowShl(x: nat, m: nat, n: nat)
    requires m <= n
    ensures Low(Shl(x, m), n) == Shl(Low(x, n - m), m)
  {
    if m > 0 {
      LowShl(x, m - 1, n - 1);
      LowTwice(Shl(x, m - 1), n);
    }
  }

  lemma {:induction false} ShlMonotone(a: nat, b: nat, n: nat)
    requires a <= b
    ensures Shl(a, n) <= Shl(b, n)
  {
    if n > 0 {
      ShlMonotone(a, b, n - 1);
    }
  }

  /** A number below 2^n and one below 2^m put above it stay below 2^(n+m). */
  lemma JoinBound(r: nat, q: nat, n: nat, m: nat)
    requires r < Pow2(n) && q < Pow2(m)
    ensures r + Shl(q, n) < Pow2(n + m)
  {
    ShlMonotone(q + 1, Pow2(m), n);
    ShlAdd(q, 1, n);
    Pow2Add(0, n);
    Pow2Add(m, n);
  }

  lemma {:induction false} HighBound(x: nat, m: nat, n: nat)
    requires x < Pow2(m + n)
    ensures High(x, m) < Pow2(n)
  {
    if m > 0 {
      HighBound(x / 2, m - 1, n);
    }
  }

  lemma {:induction false} Pow2Monotone(a: nat, b: nat)
    requires a <= b
    ensures Pow2(a) <= Pow2(b)
    decreases b
  {
    if a < b {
      Pow2Monotone(a, b - 1);
    }
  }

  lemma BytePower()
    ensures Pow2(8) == 256
  {
    assert Pow2(4) == 16;
  }

  lemma WordPower()
    ensures Pow2(32) == 0x1_0000_0000
  {
    BytePower();
    assert Pow2(12) == 4096;
    assert Pow2(16) == 65536;
    assert Pow2(20) == 1048576;
    assert Pow2(24) == 16777216;
    assert Pow2(28) == 268435456;
  }

  lemma ShlByte(x: nat)
    ensures Shl(x, 8) == 256 * x
  {
    ShlIsProduct(x, 8);
    BytePower();
  }

  // ---------------------------------------------------------------------
  // Bits

  lemma {:induction false} OrZero(b: nat)
    ensures Or(0, b) == b
  {
    if b > 0 {
      OrZero(b / 2);
    }
  }

  /** Bits put above the highest bit in use are simply added. */
  lemma {:induction false} OrDisjoint(a: nat, c: nat, k: nat)
    requires a < Pow2(k)
    ensures Or(a, Shl(c, k)) == a + Shl(c, k)
  {
    if k == 0 {
      OrZero(c);
    } else {
      OrDisjoint(a / 2, c, k - 1);
    }
  }

  lemma {:induction false} OrBound(a: nat, b: nat, k: nat)
    requires a < Pow2(k) && b < Pow2(k)
    ensures Or(a, b) < Pow2(k)
  {
    if k > 0 {
      OrBound(a / 2, b / 2, k - 1);
    }
  }

  lemma {:induction false} LowOfZero(k: nat)
    ensures Low(0, k) == 0
  {
    if k > 0 {
      LowOfZero(k - 1);
    }
  }

  /** Masking with k ones keeps the k low bits. */
  lemma {:induction false} AndMask(a: nat, k: nat)
    ensures And(a, Pow2(k) - 1) == Low(a, k)
  {
    if a == 0 {
      LowOfZero(k);
    } else if k > 0 {
      AndMask(a / 2, k - 1);
      var mask := Pow2(k) - 1;
      assert mask % 2 == 1 && mask / 2 == Pow2(k - 1) - 1;
    }
  }

  /** A field of a window of the number is a field of the number. */
  lemma WindowField(x: nat, start: nat, size: nat, offset: nat, width: nat)
    requires offset + width <= size
    ensures Field(Field(x, start, size), offset, width) == Field(x, start + offset, width)
  {
    var y := High(x, start);
    HighOfLow(y, offset, size - offset);
    LowLow(High(y, offset), size - offset, width);
    HighHigh(x, start, offset);
  }

  // ---------------------------------------------------------------------
  // Buffers as little-endian numbers

  function LittleEndian(b: seq<Byte>): nat {
    if b == [] then 0 else b[0] + 256 * LittleEndian(b[1..])
  }

  lemma {:induction false} LittleEndianConcat(a: seq<Byte>, b: seq<Byte>)
    ensures LittleEndian(a + b) == LittleEndian(a) + Shl(LittleEndian(b), 8 * |a|)
  {
    if a == [] {
      assert a + b == b;
    } else {
      assert (a + b)[1..] == a[1..] + b;
      LittleEndianConcat(a[1..], b);
      ShlByte(Shl(LittleEndian(b), 8 * |a[1..]|));
      ShlShl(LittleEndian(b), 8 * |a[1..]|, 8);
    }
  }

  lemma {:induction false} LittleEndianBound(b: seq<Byte>)
    ensures LittleEndian(b) < Pow2(8 * |b|)
  {
    if b != [] {
      var rest := b[1..];
      LittleEndianBound(rest);
      BytePower();
      JoinBound(b[0], LittleEndian(rest), 8, 8 * |rest|);
      ShlByte(LittleEndian(rest));
    }
  }

  lemma {:induction false} LittleEndianZeros(b: seq<Byte>)
    requires forall i | 0 <= i < |b| :: b[i] == 0
    ensures LittleEndian(b) == 0
  {
    if b != [] {
      LittleEndianZeros(b[1..]);
    }
  }

  /** Raising one byte raises the number by that much at the byte's weight. */
  lemma {:induction false} LittleEndianUpdate(b: seq<Byte>, i: nat, x: Byte)
    requires i < |b| && b[i] <= x
    ensures LittleEndian(b[i := x]) == LittleEndian(b) + Shl(x - b[i], 8 * i)
  {
    var b' := b[i := x];
    if i == 0 {
      assert b'[1..] == b[1..];
    } else {
      assert b'[1..] == b[1..][i - 1 := x];
      LittleEndianUpdate(b[1..], i - 1, x);
      ShlByte(Shl(x - b[i], 8 * (i - 1)));
      ShlShl(x - b[i], 8 * (i - 1), 8);
    }
  }

  lemma LittleEndianSplit(low: seq<Byte>, high: seq<Byte>)
    ensures Low(LittleEndian(low + high), 8 * |low|) == LittleEndian(low)
    ensures High(LittleEndian(low + high), 8 * |low|) == LittleEndian(high)
  {
    LittleEndianConcat(low, high);
    LittleEndianBound(low);
    Digits(LittleEndian(low), LittleEndian(high), 8 * |low|);
  }

  /** A window of the buffer is a field of the number. */
  lemma LittleEndianWindow(b: seq<Byte>, i: nat, n: nat)
    requires i + n <= |b|
    ensures LittleEndian(b[i..i + n]) == Field(LittleEndian(b), 8 * i, 8 * n)
  {
    var low, mid, high := b[..i], b[i..i + n], b[i + n..];
    assert b == low + (mid + high);
    LittleEndianSplit(low, mid + high);
    LittleEndianSplit(mid, high);
  }
}
