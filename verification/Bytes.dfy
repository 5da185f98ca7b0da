/** Bytes and little-endian numbers. */
module Bytes {
  type Byte = x: int | 0 <= x < 256

  function Le32(a: Byte, b: Byte, c: Byte, d: Byte): nat
  {
    a + 0x100 * b + 0x1_0000 * c + 0x100_0000 * d
  }

  /** The number a little-endian byte string stands for. */
  function FromLe(s: seq<Byte>): nat
  {
    if s == [] then 0 else s[0] + 256 * FromLe(s[1..])
  }

  /** The low `n` bytes of a number. */
  function ToLe(x: nat, n: nat): (s: seq<Byte>)
    ensures |s| == n
    decreases n, x
  {
    if n == 0 then [] else [x % 256] + ToLe(x / 256, n - 1)
  }

  /** The number is representable in `n` bytes. */
  predicate Fits(x: nat, n: nat)
    decreases n, x
  {
    if n == 0 then x == 0 else Fits(x / 256, n - 1)
  }

  lemma {:induction false} LeRoundTrip(x: nat, n: nat)
    requires Fits(x, n)
    ensures FromLe(ToLe(x, n)) == x
    decreases n
  {
    if n > 0 {
      LeRoundTrip(x / 256, n - 1);
      assert ToLe(x, n)[1..] == ToLe(x / 256, n - 1);
    }
  }

  lemma WordFits(x: nat)
    requires x < 0x1_0000_0000
    ensures Fits(x, 4)
  {
    var a := x / 256;
    var b := a / 256;
    var c := b / 256;
    assert a < 0x100_0000 && b < 0x1_0000 && c < 0x100;
    assert Fits(c / 256, 0);
    assert Fits(c, 1) && Fits(b, 2) && Fits(a, 3);
  }

  lemma LongFits(x: nat)
    requires x < 0x1_0000_0000_0000_0000
    ensures Fits(x, 8)
  {
    var a := x / 256;
    var b := a / 256;
    var c := b / 256;
    var d := c / 256;
    assert a < 0x100_0000_0000_0000 && b < 0x1_0000_0000_0000 && c < 0x100_0000_0000 && d < 0x1_0000_0000;
    WordFits(d);
    assert Fits(c, 5) && Fits(b, 6) && Fits(a, 7);
  }

  lemma {:induction false} FromLeInjective(s: seq<Byte>, t: seq<Byte>)
    requires |s| == |t| && FromLe(s) == FromLe(t)
    ensures s == t
  {
    if s != [] {
      FromLeInjective(s[1..], t[1..]);
      assert s == [s[0]] + s[1..] && t == [t[0]] + t[1..];
    }
  }
}
