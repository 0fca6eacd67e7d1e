/** The byte strings that count as UTF-8 are exactly the encodings of sequences of Unicode scalar values (section 3 of
    RFC 3629). */
module Unicode {
  import opened Prelude
  import opened UserMemory

  /** A code point that is no surrogate. */
  predicate Scalar(c: nat) {
    c < 0xd800 || 0xe000 <= c < 0x11_0000
  }

  function Encode(c: nat): (s: seq<Byte>)
    requires Scalar(c)
    ensures s != []
  {
    if c < 0x80 then [c]
    else if c < 0x800 then [0xc0 + c / 64, 0x80 + c % 64]
    else if c < 0x1_0000 then [0xe0 + c / 4096, 0x80 + c / 64 % 64, 0x80 + c % 64]
    else [0xf0 + c / 0x4_0000, 0x80 + c / 4096 % 64, 0x80 + c / 64 % 64, 0x80 + c % 64]
  }

  predicate Scalars(cs: seq<nat>) {
    forall i | 0 <= i < |cs| :: Scalar(cs[i])
  }

  function EncodeAll(cs: seq<nat>): seq<Byte>
    requires Scalars(cs)
  {
    if cs == [] then [] else Encode(cs[0]) + EncodeAll(cs[1..])
  }

  /** The first character of a string that starts with the encoding of `c` is `c`. */
  lemma EncodedFirst(c: nat, rest: seq<Byte>)
    requires Scalar(c)
    ensures CharLen(Encode(c) + rest) == |Encode(c)|
  {
    var s := Encode(c) + rest;
    if c < 0x80 {
      assert s[0] == c;
    } else if c < 0x800 {
      assert s[0] == 0xc0 + c / 64 && s[1] == 0x80 + c % 64;
    } else if c < 0x1_0000 {
      assert s[0] == 0xe0 + c / 4096 && s[1] == 0x80 + c / 64 % 64 && s[2] == 0x80 + c % 64;
      ThreeBytes(c);
    } else {
      assert s[0] == 0xf0 + c / 0x4_0000 && s[1] == 0x80 + c / 4096 % 64 && s[2] == 0x80 + c / 64 % 64;
      assert s[3] == 0x80 + c % 64;
      FourBytes(c);
    }
  }

  /** No longer than needed, and no surrogate. */
  lemma ThreeBytes(c: nat)
    requires 0x800 <= c < 0x1_0000 && Scalar(c)
    ensures c / 4096 <= 15 && (c / 4096 == 0 ==> c / 64 % 64 >= 0x20) && (c / 4096 == 13 ==> c / 64 % 64 < 0x20)
  {
    assert c / 64 == c / 4096 * 64 + c / 64 % 64;
  }

  lemma FourBytes(c: nat)
    requires 0x1_0000 <= c < 0x11_0000
    ensures c / 0x4_0000 <= 4 && (c / 0x4_0000 == 0 ==> c / 4096 % 64 >= 0x10)
    ensures c / 0x4_0000 == 4 ==> c / 4096 % 64 < 0x10
  {
    assert c / 4096 == c / 0x4_0000 * 64 + c / 4096 % 64;
  }

  /** A well-formed first character is the encoding of some scalar value. */
  lemma FirstDecodes(s: seq<Byte>) returns (c: nat)
    requires s != [] && CharLen(s) > 0
    ensures Scalar(c) && Encode(c) == s[..CharLen(s)]
  {
    var d: seq<nat> := s;
    var n := CharLen(s);
    if n == 1 {
      c := d[0];
      assert Encode(c) == s[..1];
    } else if n == 2 {
      c := (d[0] - 0xc0) * 64 + (d[1] - 0x80);
      assert Encode(c) == s[..2];
    } else if n == 3 {
      c := Join3(d[0] - 0xe0, d[1] - 0x80, d[2] - 0x80);
      assert Encode(c) == s[..3];
    } else {
      c := Join4(d[0] - 0xf0, d[1] - 0x80, d[2] - 0x80, d[3] - 0x80);
      assert Encode(c) == s[..4];
    }
  }

  lemma Join3(x: nat, y: nat, z: nat) returns (c: nat)
    requires x < 16 && y < 64 && z < 64 && (x == 0 ==> y >= 0x20) && (x == 13 ==> y < 0x20)
    ensures 0x800 <= c < 0x1_0000 && Scalar(c) && c / 4096 == x && c / 64 % 64 == y && c % 64 == z
  {
    c := (x * 64 + y) * 64 + z;
    assert c / 64 == x * 64 + y;
  }

  lemma Join4(w: nat, x: nat, y: nat, z: nat) returns (c: nat)
    requires w <= 4 && x < 64 && y < 64 && z < 64 && (w == 0 ==> x >= 0x10) && (w == 4 ==> x < 0x10)
    ensures 0x1_0000 <= c < 0x11_0000 && c / 0x4_0000 == w && c / 4096 % 64 == x && c / 64 % 64 == y && c % 64 == z
  {
    c := ((w * 64 + x) * 64 + y) * 64 + z;
    assert c / 64 == (w * 64 + x) * 64 + y && c / 4096 == w * 64 + x;
  }

  /** `s` is the encoding of `cs`. */
  ghost predicate Spells(cs: seq<nat>, s: seq<Byte>) {
    Scalars(cs) && EncodeAll(cs) == s
  }

  lemma {:induction false} SpelledIsUtf8(cs: seq<nat>)
    requires Scalars(cs)
    ensures Utf8(EncodeAll(cs))
  {
    hide Encode, CharLen;
    if cs != [] {
      var rest := EncodeAll(cs[1..]);
      SpelledIsUtf8(cs[1..]);
      EncodedFirst(cs[0], rest);
      var s := Encode(cs[0]) + rest;
      assert s[|Encode(cs[0])|..] == rest;
    }
  }

  lemma {:induction false} Utf8IsSpelled(s: seq<Byte>) returns (cs: seq<nat>)
    requires Utf8(s)
    ensures Spells(cs, s)
    decreases |s|
  {
    hide Encode, CharLen;
    if s == [] {
      cs := [];
    } else {
      var c := FirstDecodes(s);
      var rest := Utf8IsSpelled(s[CharLen(s)..]);
      cs := [c] + rest;
      assert cs[1..] == rest && s == s[..CharLen(s)] + s[CharLen(s)..];
    }
  }

  /** A byte string is UTF-8 if and only if it spells a sequence of scalar values. */
  lemma Utf8Exact(s: seq<Byte>)
    ensures Utf8(s) <==> exists cs :: Spells(cs, s)
  {
    hide Utf8, EncodeAll;
    if Utf8(s) { var cs := Utf8IsSpelled(s); }
    if cs :| Spells(cs, s) { SpelledIsUtf8(cs); }
  }
}
