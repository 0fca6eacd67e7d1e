/** Integers as sequences of bytes, least significant first. */
module LittleEndian {
  import opened Prelude
  import opened Dyadic

  function FromLe(s: seq<Byte>): nat {
    if s == [] then 0 else s[0] + 256 * FromLe(s[1..])
  }

  function ToLe(n: nat, len: nat): (s: seq<Byte>)
    ensures |s| == len
  {
    if len == 0 then [] else [n % 256] + ToLe(n / 256, len - 1)
  }

  function Pow256(n: nat): (r: nat)
    ensures r > 0
  {
    if n == 0 then 1 else 256 * Pow256(n - 1)
  }

  lemma {:induction false} FromLeBound(s: seq<Byte>)
    ensures FromLe(s) < Pow256(|s|)
  {
    if s != [] { FromLeBound(s[1..]); }
  }

  /** Reading back a number written in little-endian order. */
  lemma {:induction false} LeRoundTrip(n: nat, len: nat)
    requires n < Pow256(len)
    ensures FromLe(ToLe(n, len)) == n
  {
    if len > 0 {
      LeRoundTrip(n / 256, len - 1);
      assert ToLe(n, len)[1..] == ToLe(n / 256, len - 1);
    }
  }

  /** Byte `i` is the digit of weight `256^i` of the number read. */
  lemma {:induction false} FromLeDigit(s: seq<Byte>, i: nat)
    requires i < |s|
    ensures FromLe(s) / Pow256(i) % 256 == s[i]
  {
    if i > 0 {
      FromLeDigit(s[1..], i - 1);
      Shifted(FromLe(s), Pow256(i - 1));
      assert FromLe(s) / 256 == FromLe(s[1..]);
    }
  }

  /** Byte `i` written is the digit of weight `256^i`. */
  lemma {:induction false} ToLeDigit(n: nat, len: nat, i: nat)
    requires i < len
    ensures ToLe(n, len)[i] == n / Pow256(i) % 256
  {
    if i > 0 {
      ToLeDigit(n / 256, len - 1, i - 1);
      Shifted(n, Pow256(i - 1));
    }
  }

  lemma Shifted(n: nat, p: nat)
    requires p > 0
    ensures n / (256 * p) == n / 256 / p
  {
    var m := n / 256;
    var q, r, w := m / p, m % p, 256 * p;
    assert n == q * w + (256 * r + n % 256) by {
      assert m == q * p + r;
      assert q * w == 256 * (q * p);
    }
    DivisionUnique(n, w, q, 256 * r + n % 256);
  }

  lemma Widths()
    ensures Pow256(2) == 0x1_0000 && Pow256(4) == 0x1_0000_0000 && Pow256(8) == 0x1_0000_0000_0000_0000
  {
    assert Pow256(1) == 256;
    assert Pow256(3) == 0x100_0000;
    assert Pow256(5) == 0x100_0000_0000;
    assert Pow256(6) == 0x1_0000_0000_0000;
    assert Pow256(7) == 0x100_0000_0000_0000;
  }

  /** The widths that the formats use, with every byte at its place. */
  lemma LittleEndianWords(s: seq<Byte>)
    ensures var d: seq<nat> := s;
            && (|s| == 2 ==> FromLe(s) == d[0] + 0x100 * d[1])
            && (|s| == 4 ==> FromLe(s) == d[0] + 0x100 * d[1] + 0x1_0000 * d[2] + 0x100_0000 * d[3])
            && (|s| == 8 ==>
                FromLe(s) == d[0] + 0x100 * d[1] + 0x1_0000 * d[2] + 0x100_0000 * d[3] + 0x1_0000_0000 * d[4]
                             + 0x100_0000_0000 * d[5] + 0x1_0000_0000_0000 * d[6] + 0x100_0000_0000_0000 * d[7])
  {
    hide FromLe;
    if |s| == 2 {
      TwoMore(s);
      Nothing(s[2..]);
    } else if |s| == 4 {
      FourMore(s);
      Nothing(s[4..]);
    } else if |s| == 8 {
      FourMore(s);
      FourMore(s[4..]);
      Nothing(s[4..][4..]);
    }
  }

  lemma Nothing(s: seq<Byte>)
    requires s == []
    ensures FromLe(s) == 0
  {
  }

  lemma TwoMore(s: seq<Byte>)
    requires |s| >= 2
    ensures var d: seq<nat> := s; FromLe(s) == d[0] + 0x100 * d[1] + 0x1_0000 * FromLe(s[2..])
  {
    assert s[1..][1..] == s[2..];
    assert FromLe(s[1..]) == s[1..][0] + 256 * FromLe(s[2..]);
  }

  lemma FourMore(s: seq<Byte>)
    requires |s| >= 4
    ensures var d: seq<nat> := s;
            FromLe(s) == d[0] + 0x100 * d[1] + 0x1_0000 * d[2] + 0x100_0000 * d[3] + 0x1_0000_0000 * FromLe(s[4..])
  {
    hide FromLe;
    TwoMore(s);
    TwoMore(s[2..]);
    assert s[2..][2..] == s[4..];
  }
}
