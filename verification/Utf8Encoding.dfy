/**
  UTF-8 as RFC 3629 defines it, by encoding: the check that received text has to pass
  accepts exactly the encodings of Unicode scalar values.
 */
module Utf8Encoding {
  import opened Prelude
  import opened WebSocket

  predicate Scalar(c: nat) { c < 0xD800 || 0xE000 <= c < 0x11_0000 }

  function Trail(c: nat): byte { (0x80 + c % 64) as byte }

  /** Section 3 of RFC 3629. */
  function Encode(c: nat): Bytes
    requires Scalar(c)
  {
    if c < 0x80 then [c as byte]
    else if c < 0x800 then [(0xC0 + c / 64) as byte, Trail(c)]
    else if c < 0x1_0000 then [(0xE0 + c / 4096) as byte, Trail(c / 64), Trail(c)]
    else [(0xF0 + c / 262144) as byte, Trail(c / 4096), Trail(c / 64), Trail(c)]
  }

  function EncodeAll(cs: seq<nat>): Bytes
    requires forall i :: 0 <= i < |cs| ==> Scalar(cs[i])
  {
    if cs == [] then [] else Encode(cs[0]) + EncodeAll(cs[1..])
  }

  lemma EncodedPasses(c: nat, rest: Bytes)
    requires Scalar(c)
    ensures Utf8(Encode(c) + rest) == Utf8(rest)
  {
    var b, n := Encode(c) + rest, |Encode(c)|;
    assert b[n..] == rest;
    if n == 3 {
      assert b[0] == (0xE0 + c / 4096) as byte && b[1] == Trail(c / 64) && b[2] == Trail(c);
    } else if n == 4 {
      assert b[0] == (0xF0 + c / 262144) as byte && b[1] == Trail(c / 4096) && b[2] == Trail(c / 64) && b[3] == Trail(c);
    }
  }

  /** Digits in base 64. */
  lemma Digits(high: nat, low: nat)
    requires low < 64
    ensures (high * 64 + low) / 64 == high && (high * 64 + low) % 64 == low
  {
  }

  function Digit(b: byte): nat
    requires 0x80 <= b < 0xC0
  {
    b as nat - 0x80
  }

  lemma FromTwo(x: byte, y: byte)
    requires 0xC2 <= x <= 0xDF && 0x80 <= y <= 0xBF
    ensures var c := (x as nat - 0xC0) * 64 + Digit(y); Scalar(c) && Encode(c) == [x, y]
  {
    Digits(x as nat - 0xC0, Digit(y));
  }

  lemma FromThree(x: byte, y: byte, z: byte)
    requires 0xE0 <= x <= 0xEF && 0x80 <= y <= 0xBF && 0x80 <= z <= 0xBF
    requires (x == 0xE0 ==> y >= 0xA0) && (x == 0xED ==> y <= 0x9F)
    ensures var c := ((x as nat - 0xE0) * 64 + Digit(y)) * 64 + Digit(z); Scalar(c) && Encode(c) == [x, y, z]
  {
    var high := (x as nat - 0xE0) * 64 + Digit(y);
    Digits(high, Digit(z));
    Digits(x as nat - 0xE0, Digit(y));
    var c := high * 64 + Digit(z);
    assert c / 4096 == c / 64 / 64;
  }

  lemma FromFour(w: byte, x: byte, y: byte, z: byte)
    requires 0xF0 <= w <= 0xF4 && 0x80 <= x <= 0xBF && 0x80 <= y <= 0xBF && 0x80 <= z <= 0xBF
    requires (w == 0xF0 ==> x >= 0x90) && (w == 0xF4 ==> x <= 0x8F)
    ensures var c := (((w as nat - 0xF0) * 64 + Digit(x)) * 64 + Digit(y)) * 64 + Digit(z);
            Scalar(c) && Encode(c) == [w, x, y, z]
  {
    var top := (w as nat - 0xF0) * 64 + Digit(x);
    var high := top * 64 + Digit(y);
    Digits(high, Digit(z));
    Digits(top, Digit(y));
    Digits(w as nat - 0xF0, Digit(x));
    var c := high * 64 + Digit(z);
    assert c / 4096 == c / 64 / 64 && c / 262144 == c / 64 / 64 / 64;
  }

  /** The first character of a text that passes. */
  lemma FirstScalar(b: Bytes) returns (c: nat, rest: Bytes)
    requires Utf8(b) && b != []
    ensures Scalar(c) && b == Encode(c) + rest && Utf8(rest)
  {
    if b[0] <= 0x7F {
      c, rest := b[0] as nat, b[1..];
    } else if b[0] <= 0xDF {
      FromTwo(b[0], b[1]);
      c, rest := (b[0] as nat - 0xC0) * 64 + Digit(b[1]), b[2..];
      assert b == [b[0], b[1]] + rest;
    } else if b[0] <= 0xEF {
      FromThree(b[0], b[1], b[2]);
      c, rest := ((b[0] as nat - 0xE0) * 64 + Digit(b[1])) * 64 + Digit(b[2]), b[3..];
      assert b == [b[0], b[1], b[2]] + rest;
    } else {
      FromFour(b[0], b[1], b[2], b[3]);
      c := (((b[0] as nat - 0xF0) * 64 + Digit(b[1])) * 64 + Digit(b[2])) * 64 + Digit(b[3]);
      rest := b[4..];
      assert b == [b[0], b[1], b[2], b[3]] + rest;
    }
  }

  ghost predicate AllScalar(cs: seq<nat>) { forall i :: 0 <= i < |cs| ==> Scalar(cs[i]) }

  /** Every encoding passes. */
  lemma {:induction false} EncodingsPass(cs: seq<nat>)
    requires AllScalar(cs)
    ensures Utf8(EncodeAll(cs))
    decreases |cs|
  {
    if cs != [] {
      EncodingsPass(cs[1..]);
      EncodedPasses(cs[0], EncodeAll(cs[1..]));
    }
  }

  /** And what passes is an encoding. */
  lemma {:induction false} PassingIsEncoding(b: Bytes) returns (cs: seq<nat>)
    requires Utf8(b)
    ensures AllScalar(cs) && EncodeAll(cs) == b
    decreases |b|
  {
    if b == [] {
      cs := [];
    } else {
      var c, rest := FirstScalar(b);
      var more := PassingIsEncoding(rest);
      cs := [c] + more;
      assert cs[1..] == more;
    }
  }
}
