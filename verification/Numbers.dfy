/** Numbers in octets, most significant first: the reference that fields on the wire are read against. */
module Numbers {
  import opened Net

  /** A number in the given count of octets, most significant first. */
  function Octets(n: nat, count: nat): (s: seq<Byte>)
    ensures |s| == count
  {
    if count == 0 then [] else Octets(n / 256, count - 1) + [n % 256]
  }

  /** The number that octets denote, most significant first. */
  function Number(s: seq<Byte>): nat {
    if s == [] then 0 else Number(s[..|s| - 1]) * 256 + s[|s| - 1]
  }

  /** 256 to the given power. */
  function Limit(count: nat): (r: nat)
    ensures r > 0
  {
    if count == 0 then 1 else 256 * Limit(count - 1)
  }

  lemma {:induction false} OctetsOfNumber(s: seq<Byte>)
    ensures Octets(Number(s), |s|) == s && Number(s) < Limit(|s|)
  {
    if s != [] {
      OctetsOfNumber(s[..|s| - 1]);
    }
  }

  lemma {:induction false} NumberOfOctets(n: nat, count: nat)
    requires n < Limit(count)
    ensures Number(Octets(n, count)) == n
  {
    if count > 0 {
      NumberOfOctets(n / 256, count - 1);
      assert Octets(n, count)[..count - 1] == Octets(n / 256, count - 1);
    }
  }

  lemma Limits()
    ensures Limit(2) == 0x1_0000 && Limit(4) == 0x1_0000_0000
  {
    assert Limit(1) == 256 && Limit(3) == 0x100_0000;
  }

  lemma NumberTwo(s: seq<Byte>)
    requires |s| == 2
    ensures Number(s) == (s[0] as int) * 256 + s[1] as int
    ensures Number(s) == BigEndian(s[0], s[1])
  {
    assert s[..1][..0] == [] && Number(s[..1]) == s[0];
  }

  lemma NumberFour(s: seq<Byte>)
    requires |s| == 4
    ensures Number(s) == BigEndian(s[0], s[1]) * 0x1_0000 + BigEndian(s[2], s[3])
  {
    assert s[..3][..2] == s[..2];
    NumberTwo(s[..2]);
  }

  lemma {:induction false} NumberConcat(a: seq<Byte>, b: seq<Byte>)
    ensures Number(a + b) == Number(a) * Limit(|b|) + Number(b)
  {
    if b == [] {
      assert a + b == a;
    } else {
      var init, last := b[..|b| - 1], b[|b| - 1];
      NumberConcat(a, init);
      assert (a + b)[..|a + b| - 1] == a + init;
      Regroup(Number(a), Limit(|init|), Number(init));
    }
  }

  lemma Regroup(x: nat, y: nat, z: nat)
    ensures (x * y + z) * 256 == x * (256 * y) + z * 256
  {
  }
}
