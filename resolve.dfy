/**
 * `GetHostByName`: a host name or address literal to an address, filtered
 * by the two family flags. Address literals (the dotted quad, the IPv6 text)
 * are read without the name service; any other name is handed to the name
 * service, a parameter here, and the first candidate of an accepted family
 * is taken.
 */
module Resolution {

  import opened Optional
  import opened Bits
  import opened Addresses
  import opened Fields
  import opened IPv4Text
  import opened IPv6Text
  import opened AddressText
  import opened Results

  /** `DM_LOOPBACK_ADDRESS_IPV4`. */
  const LoopbackIPv4: string := "127.0.0.1"

  /** `DM_LOOPBACK_ADDRESS_IPV6`. */
  const LoopbackIPv6: string := "::1"

  /** `DM_UNIVERSAL_BIND_ADDRESS_IPV4`. */
  const AnyIPv4: string := "0.0.0.0"

  /** `DM_UNIVERSAL_BIND_ADDRESS_IPV6`. */
  const AnyIPv6: string := "::"

  /** The result code of a lookup and the address written on success. */
  datatype Lookup = Lookup(result: Result, address: Option<Address>)

  /** The IPv4 address of four network-order bytes: family IPv4, the bytes in word 3, words 0 to 2 zero. */
  function IPv4Address(b: seq<Byte>): (a: Address)
    requires |b| == 4
    ensures a.family == DomainIPv4
    ensures IPv4(a) == BytesToWord(b)
    ensures a.bytes == Zeros16[..12] + b
  {
    var a0 := DefaultAddress.(family := DomainIPv4);
    WordAtSetWord(a0, 3, 3, BytesToWord(b));
    SetWord(a0, 3, BytesToWord(b))
  }

  /** The IPv6 address of eight groups. */
  function IPv6Address(g: seq<Group>): (a: Address)
    requires |g| == 8
    ensures a.family == DomainIPv6
    ensures Groups(a.bytes) == g
  {
    GroupsRoundTrip(g);
    Address(DomainIPv6, GroupBytes(g))
  }

  /** Whether the flags accept the family of `a`. */
  predicate Accepts(a: Address, ipv4: bool, ipv6: bool)
  {
    (a.family == DomainIPv4 && ipv4) || (a.family == DomainIPv6 && ipv6)
  }

  /** The address an address literal denotes: a dotted quad is tried first, then IPv6 text. */
  function ParseLiteral(name: string): (a: Option<Address>)
    ensures a.Some? ==> a.value.family == DomainIPv4 || a.value.family == DomainIPv6
  {
    match ParseIPv4(name)
    case Some(b) => Some(IPv4Address(b))
    case None =>
      match ParseIPv6(name)
      case Some(g) => Some(IPv6Address(g))
      case None => None
  }

  /** The first candidate whose family the flags accept. */
  function FirstAccepted(candidates: seq<Address>, ipv4: bool, ipv6: bool): (r: Option<Address>)
    ensures r.None? <==> forall i :: 0 <= i < |candidates| ==> !Accepts(candidates[i], ipv4, ipv6)
    ensures r.Some? ==> exists i :: FirstAcceptedAt(candidates, i, ipv4, ipv6) && candidates[i] == r.value
  {
    if |candidates| == 0 then None
    else if Accepts(candidates[0], ipv4, ipv6) then
      assert FirstAcceptedAt(candidates, 0, ipv4, ipv6);
      Some(candidates[0])
    else
      var r := FirstAccepted(candidates[1..], ipv4, ipv6);
      if r.Some? then
        var i :| FirstAcceptedAt(candidates[1..], i, ipv4, ipv6) && candidates[1..][i] == r.value;
        assert FirstAcceptedAt(candidates, i + 1, ipv4, ipv6);
        r
      else r
  }

  /** Candidate `i` is accepted and none before it is. */
  predicate FirstAcceptedAt(candidates: seq<Address>, i: int, ipv4: bool, ipv6: bool)
  {
    && 0 <= i < |candidates|
    && Accepts(candidates[i], ipv4, ipv6)
    && forall j :: 0 <= j < i ==> !Accepts(candidates[j], ipv4, ipv6)
  }

  /**
   * `GetHostByName(name, &address, ipv4, ipv6)`. With neither flag set the
   * lookup fails whatever the name. A literal is read directly and fails when
   * its family is not accepted; any other name goes to `service`.
   */
  function GetHostByName(name: string, ipv4: bool, ipv6: bool, service: string -> seq<Address>): (r: Lookup)
    ensures r.result == ResultOk <==> r.address.Some?
    ensures r.result == ResultOk || r.result == ResultHostNotFound
    ensures !ipv4 && !ipv6 ==> r.result == ResultHostNotFound
    ensures r.address.Some? ==> Accepts(r.address.value, ipv4, ipv6)
  {
    if !ipv4 && !ipv6 then Lookup(ResultHostNotFound, None)
    else
      var found :=
        match ParseLiteral(name)
        case Some(a) => if Accepts(a, ipv4, ipv6) then Some(a) else None
        case None => FirstAccepted(service(name), ipv4, ipv6);
      if found.Some? then Lookup(ResultOk, found) else Lookup(ResultHostNotFound, None)
  }

  // ---------------------------------------------------------------------------
  // Resolution and text
  // ---------------------------------------------------------------------------

  /** IPv6 text holds no '.', so it is never read as a dotted quad. */
  lemma IPv6TextIsNotDottedQuad(g: seq<Group>)
    requires |g| == 8
    ensures ParseIPv4(FormatIPv6(g)) == None
  {
    var s := FormatIPv6(g);
    assert '.' !in s;
    SplitWithoutSeparator(s, '.');
  }

  /**
   * Resolving the text of an IPv4 address whose words 0 to 2 are zero gives
   * the address back, without the name service.
   */
  lemma ResolveIPv4Text(a: Address, ipv6: bool, service: string -> seq<Address>)
    requires a.family == DomainIPv4 && a.bytes[..12] == Zeros16[..12]
    ensures GetHostByName(AddressToIPString(a).value, true, ipv6, service) == Lookup(ResultOk, Some(a))
  {
    var b := a.bytes[12..16];
    IPv4RoundTrip(b);
    assert ParseLiteral(FormatIPv4(b)) == Some(IPv4Address(b));
    IPv4AddressOfWordThree(a);
  }

  /** An IPv4 address whose words 0 to 2 are zero is the address of its word-3 bytes. */
  lemma IPv4AddressOfWordThree(a: Address)
    requires a.family == DomainIPv4 && a.bytes[..12] == Zeros16[..12]
    ensures IPv4Address(a.bytes[12..16]) == a
  {
    assert a.bytes == a.bytes[..12] + a.bytes[12..16];
  }

  /** Resolving the text of an IPv6 address gives the address back, without the name service. */
  lemma ResolveIPv6Text(a: Address, ipv4: bool, service: string -> seq<Address>)
    requires a.family == DomainIPv6
    ensures GetHostByName(AddressToIPString(a).value, ipv4, true, service) == Lookup(ResultOk, Some(a))
  {
    var g := Groups(a.bytes);
    IPv6TextIsNotDottedQuad(g);
    IPv6RoundTrip(g);
  }

  /** An address literal is never looked up: the name service plays no part. */
  lemma LiteralsSkipNameService(name: string, ipv4: bool, ipv6: bool, s1: string -> seq<Address>, s2: string -> seq<Address>)
    requires ParseLiteral(name).Some?
    ensures GetHostByName(name, ipv4, ipv6, s1) == GetHostByName(name, ipv4, ipv6, s2)
  {
  }

  /**
   * A name that is no literal resolves only through the name service: when
   * the service knows no address of an accepted family (an unregistered
   * name), the lookup fails with host-not-found, and otherwise it succeeds.
   */
  lemma UnknownNameNotFound(name: string, ipv4: bool, ipv6: bool, service: string -> seq<Address>)
    requires ParseLiteral(name).None?
    ensures GetHostByName(name, ipv4, ipv6, service).result == ResultHostNotFound
      <==> forall i :: 0 <= i < |service(name)| ==> !Accepts(service(name)[i], ipv4, ipv6)
  {
    if !ipv4 && !ipv6 {
      forall i | 0 <= i < |service(name)|
        ensures !Accepts(service(name)[i], ipv4, ipv6)
      {
      }
    }
  }

  // ---------------------------------------------------------------------------
  // The literals the tests resolve
  // ---------------------------------------------------------------------------

  /** The IPv4 loopback literal is the dotted quad of 127, 0, 0, 1 and is read as those bytes. */
  lemma LoopbackIPv4Parsed(b: seq<Byte>)
    requires b == [127, 0, 0, 1]
    ensures ParseLiteral(LoopbackIPv4) == Some(IPv4Address(b))
    ensures BytesToWord(b) == 0x0100007f
  {
    LoopbackQuad();
    IPv4RoundTrip(b);
  }

  /**
   * `GetHostByName("127.0.0.1", &a, true, false)` succeeds with an IPv4
   * address whose word 3 is 0x0100007f, what `inet_addr` gives on a
   * little-endian host; asking for IPv6 only fails.
   */
  lemma LoopbackIPv4Resolves(ipv6: bool, service: string -> seq<Address>)
    ensures var r := GetHostByName(LoopbackIPv4, true, ipv6, service);
      r.result == ResultOk && r.address.value.family == DomainIPv4 && IPv4(r.address.value) == 0x0100007f
    ensures GetHostByName(LoopbackIPv4, false, true, service).result == ResultHostNotFound
  {
    LoopbackIPv4Parsed([127, 0, 0, 1]);
    LiteralResolves(LoopbackIPv4, true, ipv6, service, IPv4Address([127, 0, 0, 1]));
    LiteralResolves(LoopbackIPv4, false, true, service, IPv4Address([127, 0, 0, 1]));
  }

  /** The IPv4 any-address literal is the dotted quad of four zero bytes. */
  lemma AnyIPv4Parsed(b: seq<Byte>)
    requires b == [0, 0, 0, 0]
    ensures ParseLiteral(AnyIPv4) == Some(IPv4Address(b))
    ensures BytesToWord(b) == 0
  {
    ZeroQuad();
    IPv4RoundTrip(b);
  }

  lemma ZeroQuad()
    ensures FormatIPv4([0, 0, 0, 0]) == "0.0.0.0"
  {
    assert Numerals.Numeral(0, 10) == "0";
    JoinFour("0", "0", "0", "0", '.');
    assert "0" + ['.'] + "0" + ['.'] + "0" + ['.'] + "0" == "0.0.0.0";
  }

  /** `GetHostByName("0.0.0.0", &a, true, false)` succeeds with the IPv4 address whose words are all zero. */
  lemma AnyIPv4Resolves(ipv6: bool, service: string -> seq<Address>)
    ensures GetHostByName(AnyIPv4, true, ipv6, service) == Lookup(ResultOk, Some(IPv4Address([0, 0, 0, 0])))
    ensures IPv6(IPv4Address([0, 0, 0, 0])) == [0, 0, 0, 0]
  {
    AnyIPv4Parsed([0, 0, 0, 0]);
    LiteralResolves(AnyIPv4, true, ipv6, service, IPv4Address([0, 0, 0, 0]));
    OnlySlotThree(0);
  }

  /** An IPv6 address from groups that the words `ws` spell has exactly those words. */
  lemma IPv6AddressWords(g: seq<Group>, ws: seq<Word>)
    requires |g| == 8 && |ws| == 4
    requires Groups(FromWords(DomainIPv6, ws).bytes) == g
    ensures IPv6Address(g) == FromWords(DomainIPv6, ws)
    ensures IPv6(IPv6Address(g)) == ws
  {
    var a := FromWords(DomainIPv6, ws);
    assert GroupBytes(Groups(a.bytes)) == a.bytes;
  }

  /** The IPv6 loopback literal is read as seven zero groups and a 1, not as a dotted quad. */
  lemma LoopbackIPv6Parsed(g: seq<Group>)
    requires g == [0, 0, 0, 0, 0, 0, 0, 1]
    ensures ParseLiteral(LoopbackIPv6) == Some(IPv6Address(g))
  {
    LoopbackFormat(g);
    IPv6TextIsNotDottedQuad(g);
    IPv6RoundTrip(g);
  }

  /**
   * `GetHostByName("::1", &a, false, true)` succeeds with an IPv6 address
   * whose words are 0, 0, 0, 0x01000000; asking for IPv4 only fails.
   */
  lemma LoopbackIPv6Resolves(ipv4: bool, service: string -> seq<Address>)
    ensures var r := GetHostByName(LoopbackIPv6, ipv4, true, service);
      r.result == ResultOk && r.address.value.family == DomainIPv6 && IPv6(r.address.value) == [0, 0, 0, 0x01000000]
    ensures GetHostByName(LoopbackIPv6, true, false, service).result == ResultHostNotFound
  {
    var g: seq<Group> := [0, 0, 0, 0, 0, 0, 0, 1];
    LoopbackIPv6Parsed(g);
    LoopbackIPv6Words(g);
    LiteralResolves(LoopbackIPv6, ipv4, true, service, IPv6Address(g));
    LiteralResolves(LoopbackIPv6, true, false, service, IPv6Address(g));
  }

  lemma LoopbackIPv6Words(g: seq<Group>)
    requires g == [0, 0, 0, 0, 0, 0, 0, 1]
    ensures IPv6(IPv6Address(g)) == [0, 0, 0, 0x01000000]
  {
    LoopbackGroups([0, 0, 0, 0x01000000], [0, 0, 0, 0], [0, 0, 0, 1]);
    IPv6AddressWords(g, [0, 0, 0, 0x01000000]);
  }

  /** A literal of an accepted family resolves to the address it denotes. */
  lemma LiteralResolves(name: string, ipv4: bool, ipv6: bool, service: string -> seq<Address>, a: Address)
    requires ParseLiteral(name) == Some(a)
    ensures GetHostByName(name, ipv4, ipv6, service)
      == if Accepts(a, ipv4, ipv6) then Lookup(ResultOk, Some(a)) else Lookup(ResultHostNotFound, None)
  {
  }

  /** The IPv6 any-address literal is read as eight zero groups. */
  lemma AnyIPv6Parsed(g: seq<Group>)
    requires g == [0, 0, 0, 0, 0, 0, 0, 0]
    ensures ParseLiteral(AnyIPv6) == Some(IPv6Address(g))
  {
    AnyAddressFormat(g);
    IPv6TextIsNotDottedQuad(g);
    IPv6RoundTrip(g);
  }

  /** `GetHostByName("::", &a, false, true)` succeeds with the IPv6 address whose words are all zero. */
  lemma AnyIPv6Resolves(ipv4: bool, service: string -> seq<Address>)
    ensures var r := GetHostByName(AnyIPv6, ipv4, true, service);
      r.result == ResultOk && r.address.value.family == DomainIPv6 && IPv6(r.address.value) == [0, 0, 0, 0]
  {
    var g: seq<Group> := [0, 0, 0, 0, 0, 0, 0, 0];
    AnyIPv6Parsed(g);
    AnyIPv6Words(g);
    LiteralResolves(AnyIPv6, ipv4, true, service, IPv6Address(g));
  }

  lemma AnyIPv6Words(g: seq<Group>)
    requires g == [0, 0, 0, 0, 0, 0, 0, 0]
    ensures IPv6(IPv6Address(g)) == [0, 0, 0, 0]
  {
    AnyAddressGroups([0, 0, 0, 0], [0, 0, 0, 0]);
    IPv6AddressWords(g, [0, 0, 0, 0]);
  }

}
