/**
 * `AddressToIPString`: the text of an address, chosen by its family tag.
 * An IPv4 address is written as the dotted quad of word 3; an IPv6 address
 * as the RFC 5952 text of all sixteen bytes. Other families have no text.
 */
module AddressText {

  import opened Optional
  import opened Bits
  import opened Addresses
  import opened IPv4Text
  import opened IPv6Text
  import opened Fields

  /** The text of an address; none when the family is neither IPv4 nor IPv6. */
  function AddressToIPString(a: Address): (s: Option<string>)
    ensures s.Some? <==> a.family == DomainIPv4 || a.family == DomainIPv6
  {
    match a.family
    case DomainIPv4 => Some(FormatIPv4(a.bytes[12..16]))
    case DomainIPv6 => Some(FormatIPv6(Groups(a.bytes)))
    case _ => None
  }

  /** The IPv4 text reads back as the network-order bytes of word 3, the `IPv4(&a)` view. */
  lemma IPv4TextIsWordThree(a: Address)
    requires a.family == DomainIPv4
    ensures ParseIPv4(AddressToIPString(a).value) == Some(WordToBytes(IPv4(a)))
  {
    IPv4RoundTrip(a.bytes[12..16]);
  }

  /** Words 0 to 2 play no part in the IPv4 text. */
  lemma IPv4TextIgnoresOtherWords(a: Address, i: nat, w: Word)
    requires a.family == DomainIPv4 && i < 3
    ensures AddressToIPString(SetWord(a, i, w)) == AddressToIPString(a)
  {
    assert SetWord(a, i, w).bytes[12..16] == a.bytes[12..16];
  }

  /** The IPv6 text reads back as the groups of all sixteen bytes, which give the bytes back. */
  lemma IPv6TextIsAllBytes(a: Address)
    requires a.family == DomainIPv6
    ensures ParseIPv6(AddressToIPString(a).value) == Some(Groups(a.bytes))
    ensures GroupBytes(Groups(a.bytes)) == a.bytes
  {
    IPv6RoundTrip(Groups(a.bytes));
  }

  /** Two addresses of the same family with the same text hold the same bytes of that family's value. */
  lemma AddressTextDeterminesValue(a: Address, b: Address)
    requires a.family == b.family
    requires AddressToIPString(a).Some? && AddressToIPString(a) == AddressToIPString(b)
    ensures a.family == DomainIPv4 ==> IPv4(a) == IPv4(b)
    ensures a.family == DomainIPv6 ==> a.bytes == b.bytes
  {
    if a.family == DomainIPv4 {
      IPv4TextIsWordThree(a);
      IPv4TextIsWordThree(b);
      WordRoundTrip(IPv4(a));
      WordRoundTrip(IPv4(b));
    } else {
      IPv6TextIsAllBytes(a);
      IPv6TextIsAllBytes(b);
    }
  }

  // ---------------------------------------------------------------------------
  // Test vectors
  // ---------------------------------------------------------------------------

  lemma LoopbackQuad()
    ensures FormatIPv4([127, 0, 0, 1]) == "127.0.0.1"
  {
    assert Numerals.Numeral(1, 10) == "1";
    assert Numerals.Numeral(12, 10) == "12";
    assert Numerals.Numeral(127, 10) == "127";
    assert Numerals.Numeral(0, 10) == "0";
    JoinFour("127", "0", "0", "1", '.');
    DottedText();
  }

  lemma DottedText()
    ensures "127" + ['.'] + "0" + ['.'] + "0" + ['.'] + "1" == "127.0.0.1"
  {
    assert "127" + ['.'] + "0" == "127.0";
    assert "127.0" + ['.'] + "0" == "127.0.0";
  }

  /** Word 3 holding 0x0100007f, 127.0.0.1 in network order, is written as the nine characters "127.0.0.1". */
  lemma IPv4LoopbackText()
    ensures AddressToIPString(SetWord(DefaultAddress.(family := DomainIPv4), 3, 0x0100007f)) == Some("127.0.0.1")
  {
    var a := SetWord(DefaultAddress.(family := DomainIPv4), 3, 0x0100007f);
    assert WordToBytes(0x0100007f) == [127, 0, 0, 1];
    assert a.bytes[12..16] == [127, 0, 0, 1];
    LoopbackQuad();
  }

  /** An IPv6 address built from four words that spell the bytes of groups `g` has those groups. */
  lemma WordsSpellGroups(ws: seq<Word>, b0: seq<Byte>, b1: seq<Byte>, b2: seq<Byte>, b3: seq<Byte>, g: seq<Group>)
    requires |ws| == 4 && |b0| == 4 && |b1| == 4 && |b2| == 4 && |b3| == 4 && |g| == 8
    requires BytesToWord(b0) == ws[0] && BytesToWord(b1) == ws[1]
    requires BytesToWord(b2) == ws[2] && BytesToWord(b3) == ws[3]
    requires GroupBytes(g) == b0 + b1 + b2 + b3
    ensures Groups(FromWords(DomainIPv6, ws).bytes) == g
  {
    FromWordsBytes(DomainIPv6, ws);
    GroupsRoundTrip(g);
  }

  /** An IPv6 address whose groups `g` have the chosen zero run `r` is written as the groups around "::". */
  lemma TextFromRun(a: Address, g: seq<Group>, r: Run, t: string)
    requires a.family == DomainIPv6 && Groups(a.bytes) == g && LongestZeroRun(g) == Some(r)
    requires Join(HexFields(g[..r.start]), ':') + "::" + Join(HexFields(g[r.start + r.length..]), ':') == t
    ensures AddressToIPString(a) == Some(t)
  {
  }

  /** The all-zero IPv6 address: eight zero groups, all of them one run. */
  lemma AnyAddressGroups(ws: seq<Word>, b: seq<Byte>)
    requires ws == [0, 0, 0, 0] && b == [0, 0, 0, 0]
    ensures Groups(FromWords(DomainIPv6, ws).bytes) == [0, 0, 0, 0, 0, 0, 0, 0]
  {
    assert GroupBytes([0, 0, 0, 0, 0, 0, 0, 0]) == b + b + b + b;
    WordsSpellGroups(ws, b, b, b, b, [0, 0, 0, 0, 0, 0, 0, 0]);
  }

  lemma AnyAddressRun(g: seq<Group>)
    requires g == [0, 0, 0, 0, 0, 0, 0, 0]
    ensures LongestZeroRun(g) == Some(Run(0, 8))
  {
    assert ZeroRunAt(g, 7) == 1;
    assert ZeroRunAt(g, 5) == 3;
    assert ZeroRunAt(g, 3) == 5;
    assert ZeroRunAt(g, 1) == 7;
    assert ZeroRunAt(g, 0) == 8;
  }

  lemma AnyAddressJoin(g: seq<Group>)
    requires g == [0, 0, 0, 0, 0, 0, 0, 0]
    ensures Join(HexFields(g[..0]), ':') + "::" + Join(HexFields(g[8..]), ':') == "::"
  {
    assert g[..0] == [] && g[8..] == [];
  }

  /** Eight zero groups are written "::". */
  lemma AnyAddressFormat(g: seq<Group>)
    requires g == [0, 0, 0, 0, 0, 0, 0, 0]
    ensures FormatIPv6(g) == "::"
  {
    AnyAddressRun(g);
    AnyAddressJoin(g);
  }

  /** The all-zero IPv6 address is written as the two characters "::". */
  lemma IPv6AnyAddressText(ws: seq<Word>)
    requires ws == [0, 0, 0, 0]
    ensures AddressToIPString(FromWords(DomainIPv6, ws)) == Some("::")
  {
    var g: seq<Group> := [0, 0, 0, 0, 0, 0, 0, 0];
    AnyAddressGroups(ws, [0, 0, 0, 0]);
    AnyAddressRun(g);
    AnyAddressJoin(g);
    TextFromRun(FromWords(DomainIPv6, ws), g, Run(0, 8), "::");
  }

  /** The IPv6 loopback address: the last byte 1, all others 0, so the last group is 1. */
  lemma LoopbackGroups(ws: seq<Word>, z: seq<Byte>, b: seq<Byte>)
    requires ws == [0, 0, 0, 0x01000000] && z == [0, 0, 0, 0] && b == [0, 0, 0, 1]
    ensures Groups(FromWords(DomainIPv6, ws).bytes) == [0, 0, 0, 0, 0, 0, 0, 1]
  {
    assert BytesToWord(b) == 0x01000000;
    assert GroupBytes([0, 0, 0, 0, 0, 0, 0, 1]) == z + z + z + b;
    WordsSpellGroups(ws, z, z, z, b, [0, 0, 0, 0, 0, 0, 0, 1]);
  }

  lemma LoopbackRun(g: seq<Group>)
    requires g == [0, 0, 0, 0, 0, 0, 0, 1]
    ensures LongestZeroRun(g) == Some(Run(0, 7))
  {
    assert ZeroRunAt(g, 7) == 0;
    assert ZeroRunAt(g, 5) == 2;
    assert ZeroRunAt(g, 3) == 4;
    assert ZeroRunAt(g, 1) == 6;
    assert ZeroRunAt(g, 0) == 7;
  }

  lemma LoopbackJoin(g: seq<Group>)
    requires g == [0, 0, 0, 0, 0, 0, 0, 1]
    ensures Join(HexFields(g[..0]), ':') + "::" + Join(HexFields(g[7..]), ':') == "::1"
  {
    assert g[..0] == [];
    HexOne(g[7..]);
  }

  /** Seven zero groups and a last group 1 are written "::1". */
  lemma LoopbackFormat(g: seq<Group>)
    requires g == [0, 0, 0, 0, 0, 0, 0, 1]
    ensures FormatIPv6(g) == "::1"
  {
    LoopbackRun(g);
    LoopbackJoin(g);
  }

  /** The IPv6 loopback address is written as the three characters "::1". */
  lemma IPv6LoopbackText(ws: seq<Word>)
    requires ws == [0, 0, 0, 0x01000000]
    ensures AddressToIPString(FromWords(DomainIPv6, ws)) == Some("::1")
  {
    var g: seq<Group> := [0, 0, 0, 0, 0, 0, 0, 1];
    LoopbackGroups(ws, [0, 0, 0, 0], [0, 0, 0, 1]);
    LoopbackRun(g);
    LoopbackJoin(g);
    TextFromRun(FromWords(DomainIPv6, ws), g, Run(0, 7), "::1");
  }

  /** The words 0xd0410120, 0xade80800, 0, 0x01000000 hold the groups 2001 41d0 8 e8ad 0 0 0 1. */
  lemma FullAddressGroups(ws: seq<Word>, b0: seq<Byte>, b1: seq<Byte>, b2: seq<Byte>, b3: seq<Byte>)
    requires ws == [0xd0410120, 0xade80800, 0, 0x01000000]
    requires b0 == [0x20, 0x01, 0x41, 0xd0] && b1 == [0, 0x08, 0xe8, 0xad]
    requires b2 == [0, 0, 0, 0] && b3 == [0, 0, 0, 1]
    ensures Groups(FromWords(DomainIPv6, ws).bytes) == [0x2001, 0x41d0, 0x8, 0xe8ad, 0, 0, 0, 1]
  {
    assert BytesToWord(b0) == 0xd0410120;
    assert BytesToWord(b1) == 0xade80800;
    assert BytesToWord(b3) == 0x01000000;
    assert GroupBytes([0x2001, 0x41d0, 0x8, 0xe8ad, 0, 0, 0, 1]) == b0 + b1 + b2 + b3;
    WordsSpellGroups(ws, b0, b1, b2, b3, [0x2001, 0x41d0, 0x8, 0xe8ad, 0, 0, 0, 1]);
  }

  lemma FullAddressRun(g: seq<Group>)
    requires g == [0x2001, 0x41d0, 0x8, 0xe8ad, 0, 0, 0, 1]
    ensures LongestZeroRun(g) == Some(Run(4, 3))
  {
    assert ZeroRunAt(g, 7) == 0;
    assert ZeroRunAt(g, 6) == 1;
    assert ZeroRunAt(g, 5) == 2;
    assert ZeroRunAt(g, 4) == 3;
    var r := LongestZeroRun(g).value;
    assert g[r.start] == 0;
  }

  /** The test's full address is written as the nineteen characters "2001:41d0:8:e8ad::1". */
  lemma IPv6FullAddressText(ws: seq<Word>)
    requires ws == [0xd0410120, 0xade80800, 0, 0x01000000]
    ensures AddressToIPString(FromWords(DomainIPv6, ws)) == Some("2001:41d0:8:e8ad::1")
  {
    var g: seq<Group> := [0x2001, 0x41d0, 0x8, 0xe8ad, 0, 0, 0, 1];
    FullAddressGroups(ws, [0x20, 0x01, 0x41, 0xd0], [0, 0x08, 0xe8, 0xad], [0, 0, 0, 0], [0, 0, 0, 1]);
    FullAddressRun(g);
    FullAddressJoin(g);
    TextFromRun(FromWords(DomainIPv6, ws), g, Run(4, 3), "2001:41d0:8:e8ad::1");
  }

  // ---------------------------------------------------------------------------
  // Steps of the test-vector proofs: the hexadecimal fields and text pieces of
  // the full address. They state nothing about the model beyond the vector.
  // ---------------------------------------------------------------------------

  lemma Hex2001()
    ensures Numerals.Hex(0x2001) == "2001"
  {
    assert Numerals.Numeral(0x2, 16) == "2";
    assert Numerals.Numeral(0x20, 16) == "20";
    assert Numerals.Numeral(0x200, 16) == "200";
  }

  lemma Hex41d0()
    ensures Numerals.Hex(0x41d0) == "41d0"
  {
    assert Numerals.Numeral(0x4, 16) == "4";
    assert Numerals.Numeral(0x41, 16) == "41";
    assert Numerals.Numeral(0x41d, 16) == "41d";
  }

  lemma HexE8ad()
    ensures Numerals.Hex(0xe8ad) == "e8ad"
  {
    assert Numerals.Numeral(0xe, 16) == "e";
    assert Numerals.Numeral(0xe8, 16) == "e8";
    assert Numerals.Numeral(0xe8a, 16) == "e8a";
  }

  /** The groups before the run are written "2001:41d0:8:e8ad". */
  lemma FullAddressLeft(p: seq<Group>)
    requires p == [0x2001, 0x41d0, 0x8, 0xe8ad]
    ensures Join(HexFields(p), ':') == "2001:41d0:8:e8ad"
  {
    FullAddressFields(p);
    JoinFour("2001", "41d0", "8", "e8ad", ':');
    ColonText();
  }

  lemma FullAddressFields(p: seq<Group>)
    requires p == [0x2001, 0x41d0, 0x8, 0xe8ad]
    ensures HexFields(p) == ["2001", "41d0", "8", "e8ad"]
  {
    HexFieldsFour(p);
    Hex2001();
    Hex41d0();
    HexE8ad();
    Hex8();
  }

  lemma Hex8()
    ensures Numerals.Hex(8) == "8"
  {
    assert Numerals.Numeral(8, 16) == "8";
  }

  /** Four groups are written as their four hexadecimal fields. */
  lemma HexFieldsFour(p: seq<Group>)
    requires |p| == 4
    ensures HexFields(p) == [Numerals.Hex(p[0]), Numerals.Hex(p[1]), Numerals.Hex(p[2]), Numerals.Hex(p[3])]
  {
  }

  lemma ColonText()
    ensures "2001" + [':'] + "41d0" + [':'] + "8" + [':'] + "e8ad" == "2001:41d0:8:e8ad"
  {
    assert "2001" + [':'] + "41d0" == "2001:41d0";
    assert "2001:41d0" + [':'] + "8" == "2001:41d0:8";
    assert "2001:41d0:8" + [':'] + "e8ad" == "2001:41d0:8:e8ad";
  }

  lemma FullAddressJoin(g: seq<Group>)
    requires g == [0x2001, 0x41d0, 0x8, 0xe8ad, 0, 0, 0, 1]
    ensures Join(HexFields(g[..4]), ':') + "::" + Join(HexFields(g[7..]), ':') == "2001:41d0:8:e8ad::1"
  {
    FullAddressLeft(g[..4]);
    HexOne(g[7..]);
    DoubleColonText();
  }

  lemma DoubleColonText()
    ensures "2001:41d0:8:e8ad" + "::" + "1" == "2001:41d0:8:e8ad::1"
  {
  }

  /** The single group 1 is written "1". */
  lemma HexOne(p: seq<Group>)
    requires p == [1]
    ensures Join(HexFields(p), ':') == "1"
  {
    assert Numerals.Numeral(1, 16) == "1";
  }

}
