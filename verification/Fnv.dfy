/**
  The 64-bit FNV-1a hash of the program, and its values for some addresses and keys. The rest of the model does not
  depend on these values; they make its failing examples ones of the program itself.
 */
module Fnv {
  import opened Net

  const BASIS: bv64 := 0xcbf29ce484222325

  function Mix(h: bv64, b: Byte): bv64 {
    (h ^ (b as bv64)) * 0x100000001b3
  }

  function Mixed(bytes: seq<Byte>): bv64 {
    if bytes == [] then BASIS else Mix(Mixed(bytes[..|bytes| - 1]), bytes[|bytes| - 1])
  }

  function Fnv1a(bytes: seq<Byte>): nat {
    Mixed(bytes) as nat
  }

  lemma MixedOne(bytes: seq<Byte>, k: nat, b: Byte)
    requires k < |bytes| && bytes[k] == b
    ensures Mixed(bytes[..k + 1]) == Mix(Mixed(bytes[..k]), b)
  {
    assert bytes[..k + 1][..k] == bytes[..k];
  }

  /** Four more bytes, given the states that the hash goes through. */
  lemma MixedFour(bytes: seq<Byte>, k: nat, b: (Byte, Byte, Byte, Byte), h: (bv64, bv64, bv64, bv64, bv64))
    requires k + 4 <= |bytes| && bytes[k..k + 4] == [b.0, b.1, b.2, b.3] && Mixed(bytes[..k]) == h.0
    requires Mix(h.0, b.0) == h.1 && Mix(h.1, b.1) == h.2 && Mix(h.2, b.2) == h.3 && Mix(h.3, b.3) == h.4
    ensures Mixed(bytes[..k + 4]) == h.4
  {
    hide Mix, Mixed;
    assert bytes[k] == bytes[k..k + 4][0] && bytes[k + 1] == bytes[k..k + 4][1];
    assert bytes[k + 2] == bytes[k..k + 4][2] && bytes[k + 3] == bytes[k..k + 4][3];
    MixedOne(bytes, k, b.0);
    MixedOne(bytes, k + 1, b.1);
    MixedOne(bytes, k + 2, b.2);
    MixedOne(bytes, k + 3, b.3);
  }

  lemma MixedStep(bytes: seq<Byte>, k: nat, b: Byte, h: bv64, h': bv64)
    requires k < |bytes| && bytes[k] == b && Mixed(bytes[..k]) == h && Mix(h, b) == h'
    ensures Mixed(bytes[..k + 1]) == h'
  {
    hide Mix, Mixed;
    MixedOne(bytes, k, b);
  }

  lemma MixedAll(bytes: seq<Byte>)
    ensures bytes[..|bytes|] == bytes && Mixed(bytes[..0]) == BASIS
  {
    assert bytes[..0] == [];
  }

  lemma Behind(a: seq<Byte>, b: seq<Byte>)
    ensures (a + b)[|a|..] == b
  {
  }

  /** The text of an address, as the bytes that are hashed. */
  function Text(s: string): (r: seq<Byte>)
    ensures |r| == |s|
  {
    seq(|s|, i requires 0 <= i < |s| => s[i] as int % 0x100)
  }

  function First(): seq<Byte> {
    Text("10.0.14.132:53")
  }

  lemma FirstHash()
    ensures Mixed(First()) == 0xf46e3bfe1ad31c19
    ensures Fnv1a(First()) == 0xf46e3bfe1ad31c19
  {
    hide Mixed;
    var s := First();
    MixedAll(s);
    FirstPart1(s);
    FirstPart2(s);
    FirstPart3(s);
    FirstPart4(s);
  }

  lemma FirstPart1(s: seq<Byte>)
    requires s == First() && Mixed(s[..0]) == 0xcbf29ce484222325
    ensures Mixed(s[..4]) == 0x0d606df0f8716a8a
  {
    hide Mixed;
    assert s[0..4] == [49, 48, 46, 48];
    MixedFour(s, 0, (49, 48, 46, 48),
              (0xcbf29ce484222325, 0xaf63ac4c86019afc, 0x07f89207b4ba08a4,
               0x4568ad18181c827e, 0x0d606df0f8716a8a));
  }

  lemma FirstPart2(s: seq<Byte>)
    requires s == First() && Mixed(s[..4]) == 0x0d606df0f8716a8a
    ensures Mixed(s[..8]) == 0x90b57b5de568bc25
  {
    hide Mixed;
    assert s[4..8] == [46, 49, 52, 46];
    MixedFour(s, 4, (46, 49, 52, 46),
              (0x0d606df0f8716a8a, 0x2c45747628b834ac, 0xf23981c7310166c7,
               0x991e78784561eee9, 0x90b57b5de568bc25));
  }

  lemma FirstPart3(s: seq<Byte>)
    requires s == First() && Mixed(s[..8]) == 0x90b57b5de568bc25
    ensures Mixed(s[..12]) == 0x6da9aa24a5484625
  {
    hide Mixed;
    assert s[8..12] == [49, 51, 50, 58];
    MixedFour(s, 8, (49, 51, 50, 58),
              (0x90b57b5de568bc25, 0x4d1cb48cd0f795fc, 0xff5c9a4714b38ebd,
               0x9de8b5c82d1b3cfd, 0x6da9aa24a5484625));
  }

  lemma FirstPart4(s: seq<Byte>)
    requires s == First() && Mixed(s[..12]) == 0x6da9aa24a5484625
    ensures Mixed(s[..14]) == 0xf46e3bfe1ad31c19
  {
    hide Mixed;
    MixedStep(s, 12, 53, 0x6da9aa24a5484625, 0x9f922c44d9cf0d30);
    MixedStep(s, 13, 51, 0x9f922c44d9cf0d30, 0xf46e3bfe1ad31c19);
  }

  function Second(): seq<Byte> {
    Text("10.0.0.5:53")
  }

  lemma SecondHash()
    ensures Mixed(Second()) == 0x5e819f2a5aef631d
    ensures Fnv1a(Second()) == 0x5e819f2a5aef631d
  {
    hide Mixed;
    var s := Second();
    MixedAll(s);
    SecondPart1(s);
    SecondPart2(s);
    SecondPart3(s);
  }

  lemma SecondPart1(s: seq<Byte>)
    requires s == Second() && Mixed(s[..0]) == 0xcbf29ce484222325
    ensures Mixed(s[..4]) == 0x0d606df0f8716a8a
  {
    hide Mixed;
    assert s[0..4] == [49, 48, 46, 48];
    MixedFour(s, 0, (49, 48, 46, 48),
              (0xcbf29ce484222325, 0xaf63ac4c86019afc, 0x07f89207b4ba08a4,
               0x4568ad18181c827e, 0x0d606df0f8716a8a));
  }

  lemma SecondPart2(s: seq<Byte>)
    requires s == Second() && Mixed(s[..4]) == 0x0d606df0f8716a8a
    ensures Mixed(s[..8]) == 0x87f7eb5de06ff0c1
  {
    hide Mixed;
    assert s[4..8] == [46, 48, 46, 53];
    MixedFour(s, 4, (46, 48, 46, 53),
              (0x0d606df0f8716a8a, 0x2c45747628b834ac, 0xf23980c731016514,
               0x991b0c78455f018e, 0x87f7eb5de06ff0c1));
  }

  lemma SecondPart3(s: seq<Byte>)
    requires s == Second() && Mixed(s[..8]) == 0x87f7eb5de06ff0c1
    ensures Mixed(s[..11]) == 0x5e819f2a5aef631d
  {
    hide Mixed;
    MixedStep(s, 8, 58, 0x87f7eb5de06ff0c1, 0x7a35eb845e367a81);
    MixedStep(s, 9, 53, 0x7a35eb845e367a81, 0xe019e5ec16927fdc);
    MixedStep(s, 10, 51, 0xe019e5ec16927fdc, 0x5e819f2a5aef631d);
  }

  lemma MarkedMix()
    ensures Mix(0x5e819f2a5aef631d, 0xFF) == 0x85a556f884c6b906
  {
    assert 0x5e819f2a5aef631d ^ (0xFF as bv64) == 0x5e819f2a5aef63e2;
  }

  lemma SecondMarkedHash()
    ensures Fnv1a(Second() + [0xFF]) == 0x85a556f884c6b906
  {
    hide Mix, Mixed;
    var s := Second() + [0xFF];
    SecondHash();
    MarkedMix();
    assert s[..11] == Second() && s[..12] == s;
    MixedStep(s, 11, 0xFF, 0x5e819f2a5aef631d, 0x85a556f884c6b906);
  }

  function Third(): seq<Byte> {
    Text("10.0.4.137:53")
  }

  lemma ThirdHash()
    ensures Mixed(Third()) == 0x88ccf470cd0a6343
    ensures Fnv1a(Third()) == 0x88ccf470cd0a6343
  {
    hide Mixed;
    var s := Third();
    MixedAll(s);
    ThirdPart1(s);
    ThirdPart2(s);
    ThirdPart3(s);
    ThirdPart4(s);
  }

  lemma ThirdPart1(s: seq<Byte>)
    requires s == Third() && Mixed(s[..0]) == 0xcbf29ce484222325
    ensures Mixed(s[..4]) == 0x0d606df0f8716a8a
  {
    hide Mixed;
    assert s[0..4] == [49, 48, 46, 48];
    MixedFour(s, 0, (49, 48, 46, 48),
              (0xcbf29ce484222325, 0xaf63ac4c86019afc, 0x07f89207b4ba08a4,
               0x4568ad18181c827e, 0x0d606df0f8716a8a));
  }

  lemma ThirdPart2(s: seq<Byte>)
    requires s == Third() && Mixed(s[..4]) == 0x0d606df0f8716a8a
    ensures Mixed(s[..8]) == 0x6536b35dccb8ad39
  {
    hide Mixed;
    assert s[4..8] == [46, 52, 46, 49];
    MixedFour(s, 4, (46, 52, 46, 49),
              (0x0d606df0f8716a8a, 0x2c45747628b834ac, 0xf2397cc731015e48,
               0x990d6c7845536752, 0x6536b35dccb8ad39));
  }

  lemma ThirdPart3(s: seq<Byte>)
    requires s == Third() && Mixed(s[..8]) == 0x6536b35dccb8ad39
    ensures Mixed(s[..12]) == 0x061ce724bf25b002
  {
    hide Mixed;
    assert s[8..12] == [51, 55, 58, 53];
    MixedFour(s, 8, (51, 55, 58, 53),
              (0x6536b35dccb8ad39, 0xb49fd262ddce07fe, 0xb99a46fee5173a8b,
               0x7861541f4678bac3, 0x061ce724bf25b002));
  }

  lemma ThirdPart4(s: seq<Byte>)
    requires s == Third() && Mixed(s[..12]) == 0x061ce724bf25b002
    ensures Mixed(s[..13]) == 0x88ccf470cd0a6343
  {
    hide Mixed;
    MixedStep(s, 12, 51, 0x061ce724bf25b002, 0x88ccf470cd0a6343);
  }

  // Clients that are hashed by their address alone.

  function ClientOfFirst(): Octets4 {
    [10, 1, 19, 134]
  }

  lemma ClientOfFirstHash()
    ensures Mixed(ClientOfFirst()) == 0x841b03d2f6dabff9
    ensures Fnv1a(ClientOfFirst()) == 0x841b03d2f6dabff9
  {
    hide Mixed;
    var s := ClientOfFirst();
    MixedAll(s);
    ClientOfFirstPart1(s);
  }

  lemma ClientOfFirstPart1(s: seq<Byte>)
    requires s == ClientOfFirst() && Mixed(s[..0]) == 0xcbf29ce484222325
    ensures Mixed(s[..4]) == 0x841b03d2f6dabff9
  {
    hide Mixed;
    assert s[0..4] == [10, 1, 19, 134];
    MixedFour(s, 0, (10, 1, 19, 134),
              (0xcbf29ce484222325, 0xaf63c74c8601c8dd, 0x08548307b5084dd4,
               0x2fe86d189d1c2925, 0x841b03d2f6dabff9));
  }

  function ClientOfThird(): Octets4 {
    [10, 2, 48, 226]
  }

  lemma ClientOfThirdHash()
    ensures Mixed(ClientOfThird()) == 0x9e0ca2d30589029f
    ensures Fnv1a(ClientOfThird()) == 0x9e0ca2d30589029f
  {
    hide Mixed;
    var s := ClientOfThird();
    MixedAll(s);
    ClientOfThirdPart1(s);
  }

  lemma ClientOfThirdPart1(s: seq<Byte>)
    requires s == ClientOfThird() && Mixed(s[..0]) == 0xcbf29ce484222325
    ensures Mixed(s[..4]) == 0x9e0ca2d30589029f
  {
    hide Mixed;
    assert s[0..4] == [10, 2, 48, 226];
    MixedFour(s, 0, (10, 2, 48, 226),
              (0xcbf29ce484222325, 0xaf63c74c8601c8dd, 0x08548607b50852ed,
               0x2ff29c189d24cd87, 0x9e0ca2d30589029f));
  }

  /** The address 2001:db8:1321:252d:357c:7102:2dd:1226. */
  function UnservedClient(): Octets16 {
    [0x20, 0x01, 0x0d, 0xb8, 0x13, 0x21, 0x25, 0x2d, 0x35, 0x7c, 0x71, 0x02, 0x02, 0xdd, 0x12, 0x26]
  }

  function Unserved(): seq<Byte> {
    UnservedClient() + Second()
  }

  lemma UnservedHash()
    ensures Mixed(Unserved()) == 0x0000000000000000
    ensures Fnv1a(Unserved()) == 0x0000000000000000
  {
    hide Mixed;
    var s := Unserved();
    MixedAll(s);
    UnservedPart1(s);
    UnservedPart2(s);
    UnservedPart3(s);
    UnservedPart4(s);
    UnservedPart5(s);
    UnservedPart6(s);
    UnservedPart7(s);
  }

  lemma UnservedPart1(s: seq<Byte>)
    requires s == Unserved() && Mixed(s[..0]) == 0xcbf29ce484222325
    ensures Mixed(s[..4]) == 0x451ce074d226dbf7
  {
    hide Mixed;
    assert s[0..4] == [32, 1, 13, 184];
    MixedFour(s, 0, (32, 1, 13, 184),
              (0xcbf29ce484222325, 0xaf639d4c8601817f, 0x07c5c707b48f091a,
               0xc41a4917cf0c7215, 0x451ce074d226dbf7));
  }

  lemma UnservedPart2(s: seq<Byte>)
    requires s == Unserved() && Mixed(s[..4]) == 0x451ce074d226dbf7
    ensures Mixed(s[..8]) == 0x0a6b4d8917e7ece1
  {
    hide Mixed;
    assert s[4..8] == [19, 33, 37, 45];
    MixedFour(s, 4, (19, 33, 37, 45),
              (0x451ce074d226dbf7, 0x96ed4a811807a46c, 0x7cd9e65bd4fc2ed7,
               0x2271600ae883c536, 0x0a6b4d8917e7ece1));
  }

  lemma UnservedPart3(s: seq<Byte>)
    requires s == Unserved() && Mixed(s[..8]) == 0x0a6b4d8917e7ece1
    ensures Mixed(s[..12]) == 0x76fa3b682fa17bf3
  {
    hide Mixed;
    assert s[8..12] == [53, 124, 113, 2];
    MixedFour(s, 8, (53, 124, 113, 2),
              (0x0a6b4d8917e7ece1, 0x9c4193f39f176c3c, 0x9adaa6f754ccf0c0,
               0xee7a6745183cfcc3, 0x76fa3b682fa17bf3));
  }

  lemma UnservedPart4(s: seq<Byte>)
    requires s == Unserved() && Mixed(s[..12]) == 0x76fa3b682fa17bf3
    ensures Mixed(s[..16]) == 0xe7de03967aa53bba
  {
    hide Mixed;
    assert s[12..16] == [2, 221, 18, 38];
    MixedFour(s, 12, (2, 221, 18, 38),
              (0x76fa3b682fa17bf3, 0xccaee308ef659a83, 0x32c6262ec9a54dba,
               0xec008980a3e2f478, 0xe7de03967aa53bba));
  }

  lemma UnservedPart5(s: seq<Byte>)
    requires s == Unserved() && Mixed(s[..16]) == 0xe7de03967aa53bba
    ensures Mixed(s[..20]) == 0x5e950cd9e958d9b5
  {
    hide Mixed;
    Behind(UnservedClient(), Second());
    assert s[16..20] == Second()[..4] && Second()[..4] == [49, 48, 46, 48];
    assert s[16..20] == [49, 48, 46, 48];
    MixedFour(s, 16, (49, 48, 46, 48),
              (0xe7de03967aa53bba, 0xa37ba3b266c42d31, 0x8f4429249f5878b3,
               0xc94a863ac354f2c7, 0x5e950cd9e958d9b5));
  }

  lemma UnservedPart6(s: seq<Byte>)
    requires s == Unserved() && Mixed(s[..20]) == 0x5e950cd9e958d9b5
    ensures Mixed(s[..24]) == 0x1dd3ff213b78b746
  {
    hide Mixed;
    assert s[20..24] == [46, 48, 46, 53];
    MixedFour(s, 20, (46, 48, 46, 53),
              (0x5e950cd9e958d9b5, 0x101e714781f9c261, 0x5d7ccd81db652fa3,
               0x4040c0a7ccefcc97, 0x1dd3ff213b78b746));
  }

  lemma UnservedPart7(s: seq<Byte>)
    requires s == Unserved() && Mixed(s[..24]) == 0x1dd3ff213b78b746
    ensures Mixed(s[..27]) == 0x0000000000000000
  {
    hide Mixed;
    MixedStep(s, 24, 58, 0x1dd3ff213b78b746, 0x27f201780e1fc7b4);
    MixedStep(s, 25, 53, 0x27f201780e1fc7b4, 0x0000000000000033);
    MixedStep(s, 26, 51, 0x0000000000000033, 0x0000000000000000);
  }
}
