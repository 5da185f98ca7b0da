/** UTF-16 as the directory names use it: strings of Unicode scalar values to code units and back. */
module Utf16 {
  import opened Prelude

  type Unit = x: int | 0 <= x < 0x1_0000
  type Scalar = x: int | 0 <= x < 0x11_0000 && !(0xD800 <= x < 0xE000)
  type String = seq<Scalar>

  predicate High(u: Unit)
  {
    0xD800 <= u < 0xDC00
  }

  predicate Low(u: Unit)
  {
    0xDC00 <= u < 0xE000
  }

  function EncodeScalar(c: Scalar): seq<Unit>
  {
    if c < 0x1_0000 then [c] else [0xD800 + (c - 0x1_0000) / 0x400, 0xDC00 + (c - 0x1_0000) % 0x400]
  }

  function Encode(s: String): seq<Unit>
  {
    if s == [] then [] else EncodeScalar(s[0]) + Encode(s[1..])
  }

  /** Decoding fails on an unpaired surrogate. */
  function Decode(units: seq<Unit>): Option<String>
  {
    if units == [] then Some([])
    else if !High(units[0]) && !Low(units[0]) then Push(units[0], Decode(units[1..]))
    else if High(units[0]) && |units| > 1 && Low(units[1]) then
      var hi: int, lo: int := units[0], units[1];
      Push(0x1_0000 + 0x400 * (hi - 0xD800) + (lo - 0xDC00), Decode(units[2..]))
    else None
  }

  function Push(c: Scalar, rest: Option<String>): Option<String>
  {
    if rest.None? then None else Some([c] + rest.value)
  }

  lemma {:induction false} DecodeEncode(s: String)
    ensures Decode(Encode(s)) == Some(s)
  {
    if s != [] {
      DecodeEncode(s[1..]);
      var head, rest := EncodeScalar(s[0]), Encode(s[1..]);
      assert (head + rest)[|head|..] == rest;
      assert s == [s[0]] + s[1..];
    }
  }

  lemma {:induction false} EncodeLength(s: String)
    ensures |s| <= |Encode(s)|
  {
    if s != [] {
      EncodeLength(s[1..]);
    }
  }
}
