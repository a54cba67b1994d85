/** Numbers written with the most significant byte first. */
module BigEndian {
  import opened Prelude

  function Pow256(n: nat): (r: nat)
    ensures r >= 1
  {
    if n == 0 then 1 else 0x100 * Pow256(n - 1)
  }

  function ToBytes(x: nat, n: nat): (s: Bytes)
    ensures |s| == n
  {
    if n == 0 then [] else ToBytes(x / 0x100, n - 1) + [x % 0x100]
  }

  function FromBytes(s: Bytes): (x: nat)
    ensures x < Pow256(|s|)
  {
    if s == [] then 0 else FromBytes(s[..|s| - 1]) * 0x100 + s[|s| - 1]
  }

  lemma {:induction false} NumberRoundTrip(x: nat, n: nat)
    requires x < Pow256(n)
    ensures FromBytes(ToBytes(x, n)) == x
  {
    if n > 0 {
      NumberRoundTrip(x / 0x100, n - 1);
      assert ToBytes(x, n)[..n - 1] == ToBytes(x / 0x100, n - 1);
    }
  }

  /** Byte i is the digit of weight 256^(n - 1 - i). */
  lemma {:induction false} DigitAt(x: nat, n: nat, i: nat)
    requires i < n
    ensures ToBytes(x, n)[i] == x / Pow256(n - 1 - i) % 0x100
  {
    if i < n - 1 {
      DigitAt(x / 0x100, n - 1, i);
      DivideTwice(x, Pow256(n - 2 - i));
    }
  }

  lemma DivideTwice(x: nat, b: nat)
    requires b >= 1
    ensures x / 0x100 / b == x / (0x100 * b)
  {
    var q, r := x / (0x100 * b), x % (0x100 * b);
    assert x == 0x100 * (b * q) + r && 0 <= r < 0x100 * b;
    var y := x / 0x100;
    assert y - b * q == r / 0x100;
    Quotient(y, b, q);
  }

  lemma Quotient(y: nat, b: nat, q: nat)
    requires b >= 1 && 0 <= y - b * q < b
    ensures y / b == q
  {
    var k := y / b - q;
    assert y == b * (y / b) + y % b;
    assert b * k == (y - b * q) - y % b;
    assert k >= 1 ==> b * k >= b;
    assert k <= -1 ==> b * k + b <= 0;
  }

  lemma {:induction false} BytesRoundTrip(s: Bytes)
    ensures ToBytes(FromBytes(s), |s|) == s
  {
    if s != [] {
      BytesRoundTrip(s[..|s| - 1]);
      assert FromBytes(s) / 0x100 == FromBytes(s[..|s| - 1]);
    }
  }

  lemma Widths()
    ensures Pow256(2) == 0x1_0000 && Pow256(4) == 0x1_0000_0000 && Pow256(8) == 0x1_0000_0000_0000_0000
  {
    assert Pow256(1) == 0x100 && Pow256(2) == 0x1_0000;
    assert Pow256(3) == 0x100_0000 && Pow256(4) == 0x1_0000_0000;
    assert Pow256(5) == 0x100_0000_0000 && Pow256(6) == 0x1_0000_0000_0000 && Pow256(7) == 0x100_0000_0000_0000;
  }
}
