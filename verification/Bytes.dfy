/** Bytes, optional values, powers of two and little-endian numbers. */
module Bytes {

  type Byte = x: int | 0 <= x < 256

  type Word = x: int | 0 <= x < 0x1_0000

  datatype Option<+T> = None | Some(value: T)

  /** The largest value of a 64-bit signed integer (a Go `int` or `time.Duration`). */
  const MAX_INT64: int := 0x7FFF_FFFF_FFFF_FFFF

  type Int64 = x: int | -MAX_INT64 - 1 <= x <= MAX_INT64

  /** What 64-bit signed arithmetic keeps of a mathematical sum or product. */
  function Wrap64(x: int): (r: Int64)
    ensures -MAX_INT64 - 1 <= x <= MAX_INT64 ==> r == x
    ensures MAX_INT64 < x <= 2 * MAX_INT64 ==> r == x - 0x1_0000_0000_0000_0000
  {
    (x + 0x8000_0000_0000_0000) % 0x1_0000_0000_0000_0000 - 0x8000_0000_0000_0000
  }

  function Pow2(n: nat): (p: nat)
    ensures p > 0
  {
    if n == 0 then 1 else 2 * Pow2(n - 1)
  }

  /** The number a byte string denotes, least significant byte first. */
  function LittleEndian(bytes: seq<Byte>): (n: nat)
    ensures bytes == [] ==> n == 0
  {
    if bytes == [] then 0 else bytes[0] + 256 * LittleEndian(bytes[1..])
  }

  /** The `length` low-order bytes of `n`, least significant first. */
  function ToBytes(n: nat, length: nat): (bytes: seq<Byte>)
    ensures |bytes| == length
  {
    if length == 0 then [] else [n % 256] + ToBytes(n / 256, length - 1)
  }

  function Zeros(n: nat): (zeros: seq<Byte>)
    ensures |zeros| == n
  {
    seq(n, _ => 0)
  }

  predicate Odd(n: int) { n % 2 == 1 }

  function Min(a: int, b: int): int {
    if a <= b then a else b
  }

  // ---------------------------------------------------------------------
  // Arithmetic
  // ---------------------------------------------------------------------

  lemma {:induction false} Pow2Add(a: nat, b: nat)
    ensures Pow2(a + b) == Pow2(a) * Pow2(b)
  {
    if b > 0 {
      Pow2Add(a, b - 1);
      assert Pow2(a + b) == 2 * Pow2(a + b - 1);
      assert Pow2(b) == 2 * Pow2(b - 1);
      TwiceProduct(Pow2(a), Pow2(b - 1));
    }
  }

  lemma TwiceProduct(x: int, y: int)
    ensures x * (2 * y) == 2 * (x * y)
  {
  }

  lemma {:induction false} Pow2Monotone(a: nat, b: nat)
    requires a <= b
    ensures Pow2(a) <= Pow2(b)
  {
    if a < b {
      Pow2Monotone(a, b - 1);
    }
  }

  /** Quotient and remainder are unique. */
  lemma DivModUnique(n: int, d: int, q: int, r: int)
    requires d > 0 && 0 <= r < d && n == q * d + r
    ensures n / d == q && n % d == r
  {
    var e := n / d - q;
    assert n == (n / d) * d + n % d;
    assert e * d == r - n % d by {
      assert (n / d) * d - q * d == e * d;
    }
    NonzeroMultiple(e, d);
  }

  lemma NonzeroMultiple(e: int, d: int)
    requires d > 0
    ensures e == 0 || e * d >= d || e * d <= -d
  {
    if e > 0 {
      assert (e - 1) * d >= 0;
    } else if e < 0 {
      assert (-e - 1) * d >= 0;
    }
  }

  lemma DivDiv(n: nat, a: nat, b: nat)
    requires a > 0 && b > 0
    ensures a * b > 0 && n / (a * b) == (n / a) / b
  {
    var q := (n / a) / b;
    var r := (n / a) % b;
    assert n / a == q * b + r;
    assert n == (n / a) * a + n % a;
    var s := r * a + n % a;
    assert n == q * (a * b) + s by {
      assert (q * b + r) * a == q * (a * b) + r * a;
    }
    assert 0 <= s < a * b by {
      assert r * a <= (b - 1) * a;
      assert (b - 1) * a == a * b - a;
    }
    DivModUnique(n, a * b, q, s);
  }

  /** Reducing modulo a multiple first changes nothing. */
  lemma ModMod(n: nat, a: nat, b: nat)
    requires a > 0 && b > 0
    ensures a * b > 0 && (n % (a * b)) % a == n % a
  {
    assert a * b > 0;
    var q := n / (a * b);
    var m := n % (a * b);
    assert n == (q * b) * a + m by {
      assert q * (a * b) == (q * b) * a;
    }
    var q' := m / a;
    assert n == (q * b + q') * a + m % a by {
      assert (q * b + q') * a == (q * b) * a + q' * a;
    }
    DivModUnique(n, a, q * b + q', m % a);
  }

  lemma {:induction false} LittleEndianBound(bytes: seq<Byte>)
    ensures LittleEndian(bytes) < Pow2(8 * |bytes|)
  {
    if bytes != [] {
      LittleEndianBound(bytes[1..]);
      Pow2Add(8, 8 * |bytes[1..]|);
      assert Pow2(8) == 256 by {
        Pow2Of8();
      }
    }
  }

  lemma Pow2Of8()
    ensures Pow2(8) == 256
  {
    assert Pow2(4) == 16;
    Pow2Add(4, 4);
  }

  lemma {:induction false} LittleEndianConcat(a: seq<Byte>, b: seq<Byte>)
    ensures LittleEndian(a + b) == LittleEndian(a) + Pow2(8 * |a|) * LittleEndian(b)
  {
    if a == [] {
      assert a + b == b;
    } else {
      LittleEndianConcat(a[1..], b);
      assert (a + b)[1..] == a[1..] + b;
      var p, m := Pow2(8 * |a[1..]|), LittleEndian(b);
      assert Pow2(8 * |a|) == 256 * p by {
        Pow2Of8();
        Pow2Add(8, 8 * |a[1..]|);
      }
      ScaledSum(LittleEndian(a[1..]), p, m);
    }
  }

  lemma ScaledSum(x: int, p: int, m: int)
    ensures 256 * (x + p * m) == 256 * x + (256 * p) * m
  {
  }

  lemma {:induction false} ToBytesValue(n: nat, length: nat)
    requires n < Pow2(8 * length)
    ensures LittleEndian(ToBytes(n, length)) == n
  {
    if length > 0 {
      Pow2Of8();
      Pow2Add(8, 8 * (length - 1));
      assert n / 256 < Pow2(8 * (length - 1));
      ToBytesValue(n / 256, length - 1);
      assert ToBytes(n, length)[1..] == ToBytes(n / 256, length - 1);
    }
  }

  lemma Associative<T>(a: seq<T>, b: seq<T>, c: seq<T>)
    ensures (a + b) + c == a + (b + c)
  {
  }
}
