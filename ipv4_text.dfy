/**
 * The dotted-quad text of an IPv4 address: the four network-order bytes in
 * decimal, separated by '.', and the strict reading of such text back into
 * bytes (one to three digits per field, no leading zeros, at most 255).
 */
module IPv4Text {

  import opened Optional
  import opened Fields
  import opened Numerals
  import opened Addresses

  /** The dotted quad of four network-order bytes, e.g. "127.0.0.1". */
  function FormatIPv4(b: seq<Byte>): (s: string)
    requires |b| == 4
    ensures 7 <= |s| <= 15
    ensures DottedText(s)
  {
    var d0, d1, d2, d3 := Decimal(b[0]), Decimal(b[1]), Decimal(b[2]), Decimal(b[3]);
    DecimalLength(b[0]);
    DecimalLength(b[1]);
    DecimalLength(b[2]);
    DecimalLength(b[3]);
    JoinFour(d0, d1, d2, d3, '.');
    DottedFields(d0, d1, d2, d3);
    Join([d0, d1, d2, d3], '.')
  }

  /** Text made only of '.' and decimal digits. */
  ghost predicate DottedText(s: string)
  {
    forall i :: 0 <= i < |s| ==> s[i] == '.' || s[i] in Digits
  }

  /** Four numerals joined by '.' hold only '.' and digits. */
  lemma DottedFields(d0: string, d1: string, d2: string, d3: string)
    requires DottedText(d0) && DottedText(d1) && DottedText(d2) && DottedText(d3)
    ensures DottedText(d0 + ['.'] + d1 + ['.'] + d2 + ['.'] + d3)
  {
    var dot := ['.'];
    DottedConcat(d0, dot);
    DottedConcat(d0 + dot, d1);
    DottedConcat(d0 + dot + d1, dot);
    DottedConcat(d0 + dot + d1 + dot, d2);
    DottedConcat(d0 + dot + d1 + dot + d2, dot);
    DottedConcat(d0 + dot + d1 + dot + d2 + dot, d3);
  }

  lemma DottedConcat(a: string, b: string)
    requires DottedText(a) && (DottedText(b) || b == ['.'])
    ensures DottedText(a + b)
  {
    forall i | 0 <= i < |a + b|
      ensures (a + b)[i] == '.' || (a + b)[i] in Digits
    {
      if i >= |a| {
        assert (a + b)[i] == b[i - |a|];
      }
    }
  }

  /** One field of a dotted quad: one to three decimal digits, no leading zero, value at most 255. */
  function ParseOctet(f: string): (b: Option<Byte>)
    ensures b.Some? ==> 1 <= |f| <= 3 && (f[0] == '0' ==> f == "0")
  {
    if |f| == 0 || |f| > 3 || (f[0] == '0' && |f| > 1) then None
    else
      match ParseNumeral(f, 10)
      case None => None
      case Some(v) => if v < 0x100 then Some(v) else None
  }

  /** The four bytes a dotted quad denotes; none unless the text is exactly four valid fields. */
  function ParseIPv4(s: string): (b: Option<seq<Byte>>)
    ensures b.Some? ==> |b.value| == 4
  {
    var fields := Split(s, '.');
    if |fields| != 4 then None
    else
      match (ParseOctet(fields[0]), ParseOctet(fields[1]), ParseOctet(fields[2]), ParseOctet(fields[3]))
      case (Some(b0), Some(b1), Some(b2), Some(b3)) => Some([b0, b1, b2, b3])
      case _ => None
  }

  /** Reading the field written for a byte gives the byte back. */
  lemma OctetRoundTrip(b: Byte)
    ensures ParseOctet(Decimal(b)) == Some(b)
  {
    DecimalLength(b);
  }

  /** Text whose four '.'-separated fields each read as a byte is read as those bytes. */
  lemma ParseFourOctets(s: string, b: seq<Byte>)
    requires |b| == 4
    requires var f := Split(s, '.'); |f| == 4 && forall i :: 0 <= i < 4 ==> ParseOctet(f[i]) == Some(b[i])
    ensures ParseIPv4(s) == Some(b)
  {
    assert b == [b[0], b[1], b[2], b[3]];
  }

  /** The dotted quad of four bytes splits at '.' into their decimal fields. */
  lemma FormatIPv4Fields(b: seq<Byte>)
    requires |b| == 4
    ensures Split(FormatIPv4(b), '.') == [Decimal(b[0]), Decimal(b[1]), Decimal(b[2]), Decimal(b[3])]
  {
    NotInNumeral(b[0], 10, '.');
    NotInNumeral(b[1], 10, '.');
    NotInNumeral(b[2], 10, '.');
    NotInNumeral(b[3], 10, '.');
    SplitJoinFour(Decimal(b[0]), Decimal(b[1]), Decimal(b[2]), Decimal(b[3]), '.');
  }

  /** Reading the dotted quad of four bytes gives the bytes back. */
  lemma IPv4RoundTrip(b: seq<Byte>)
    requires |b| == 4
    ensures ParseIPv4(FormatIPv4(b)) == Some(b)
  {
    FormatIPv4Fields(b);
    OctetRoundTrip(b[0]);
    OctetRoundTrip(b[1]);
    OctetRoundTrip(b[2]);
    OctetRoundTrip(b[3]);
    ParseFourOctets(FormatIPv4(b), b);
  }

  /** A field that reads as a byte is the decimal text written for that byte. */
  lemma CanonicalOctet(f: string, b: Byte)
    requires ParseOctet(f) == Some(b)
    ensures Decimal(b) == f
  {
    ParsedDecimalIsNumeral(f, b);
  }

  /**
   * Only canonical dotted quads are read: text that reads as four bytes is
   * exactly the dotted quad written for them.
   */
  lemma IPv4Canonical(s: string)
    requires ParseIPv4(s).Some?
    ensures FormatIPv4(ParseIPv4(s).value) == s
  {
    var f := Split(s, '.');
    var b := ParseIPv4(s).value;
    CanonicalOctet(f[0], b[0]);
    CanonicalOctet(f[1], b[1]);
    CanonicalOctet(f[2], b[2]);
    CanonicalOctet(f[3], b[3]);
    assert f == [f[0], f[1], f[2], f[3]];
    JoinSplit(s, '.');
  }

  /** Different byte quadruples are written differently. */
  lemma FormatIPv4Injective(b: seq<Byte>, c: seq<Byte>)
    requires |b| == 4 && |c| == 4
    requires FormatIPv4(b) == FormatIPv4(c)
    ensures b == c
  {
    IPv4RoundTrip(b);
    IPv4RoundTrip(c);
  }

}
