/**
 * The dual-stack socket address of dmSocket: a family tag and sixteen bytes
 * of storage that the C struct sees as four 32-bit words (`m_address[0..3]`).
 *
 * The bytes are kept in memory order, which for an address is network order.
 * A word is what a little-endian host reads from four consecutive bytes: the
 * tests write `0x0100007f` for 127.0.0.1, so the model fixes that host order.
 */
module Addresses {

  import opened Bits

  /** An octet of address storage. */
  type Byte = b: int | 0 <= b < 0x100

  /** Sixteen bytes of address storage, in memory (network) order. */
  type Bytes16 = s: seq<Byte> | |s| == 16 witness [0, 0, 0, 0, 0, 0, 0, 0, 0, 0, 0, 0, 0, 0, 0, 0]

  /** The address families of the socket layer (`DOMAIN_*`). */
  datatype Domain = DomainMissing | DomainIPv4 | DomainIPv6 | DomainUnknown

  datatype Address = Address(family: Domain, bytes: Bytes16)

  const Zeros16: Bytes16 := [0, 0, 0, 0, 0, 0, 0, 0, 0, 0, 0, 0, 0, 0, 0, 0]

  /** A default-constructed address: no family and every byte zero. */
  const DefaultAddress: Address := Address(DomainMissing, Zeros16)

  // ---------------------------------------------------------------------------
  // Host words
  // ---------------------------------------------------------------------------

  /** The four bytes a little-endian host stores for `w`, lowest byte first. */
  function WordToBytes(w: Word): (b: seq<Byte>)
    ensures |b| == 4
  {
    [w % 0x100, w / 0x100 % 0x100, w / 0x100 / 0x100 % 0x100, w / 0x100 / 0x100 / 0x100]
  }

  /** The word a little-endian host reads from four bytes. */
  function BytesToWord(b: seq<Byte>): (w: Word)
    requires |b| == 4
    ensures WordToBytes(w) == b
  {
    var b2, b3: int := b[2], b[3];
    var high := b2 + 0x100 * b3;
    var middle: int := b[1] + 0x100 * high;
    ByteDigit(b[2], b[3]);
    ByteDigit(b[1], high);
    ByteDigit(b[0], middle);
    b[0] + 0x100 * middle
  }

  /** Base-256 place value: a low byte and the rest are recovered by `%` and `/`. */
  lemma ByteDigit(low: Byte, rest: nat)
    ensures (low + 0x100 * rest) % 0x100 == low
    ensures (low + 0x100 * rest) / 0x100 == rest
  {
  }

  /** Storing a word and reading it back gives the word. */
  lemma WordRoundTrip(w: Word)
    ensures BytesToWord(WordToBytes(w)) == w
  {
    var w1 := w / 0x100;
    var w2 := w1 / 0x100;
    assert w == w % 0x100 + 0x100 * w1;
    assert w1 == w1 % 0x100 + 0x100 * w2;
    assert w2 == w2 % 0x100 + 0x100 * (w2 / 0x100);
  }

  /** Word `i` of `m_address`. */
  function WordAt(a: Address, i: nat): (w: Word)
    requires i < 4
    ensures WordToBytes(w) == a.bytes[4 * i .. 4 * i + 4]
  {
    BytesToWord(a.bytes[4 * i .. 4 * i + 4])
  }

  /** `m_address[i] = w`: the bytes of word `i` are replaced, nothing else. */
  function SetWord(a: Address, i: nat, w: Word): (r: Address)
    requires i < 4
    ensures r.family == a.family
    ensures r.bytes[4 * i .. 4 * i + 4] == WordToBytes(w)
    ensures forall k :: 0 <= k < 16 && !(4 * i <= k < 4 * i + 4) ==> r.bytes[k] == a.bytes[k]
  {
    a.(bytes := a.bytes[.. 4 * i] + WordToBytes(w) + a.bytes[4 * i + 4 ..])
  }

  /** Writing word `i` changes what word `i` reads, and no other word. */
  lemma WordAtSetWord(a: Address, i: nat, j: nat, w: Word)
    requires i < 4 && j < 4
    ensures WordAt(SetWord(a, i, w), j) == if i == j then w else WordAt(a, j)
  {
    var r := SetWord(a, i, w);
    if i == j {
      WordRoundTrip(w);
    } else {
      assert r.bytes[4 * j .. 4 * j + 4] == a.bytes[4 * j .. 4 * j + 4];
    }
  }

  /**
   * An address as the tests build one: a default address given a family and
   * then the four assignments `m_address[i] = ws[i]`.
   */
  function FromWords(family: Domain, ws: seq<Word>): (r: Address)
    requires |ws| == 4
    ensures r.family == family
    ensures forall i :: 0 <= i < 4 ==> WordAt(r, i) == ws[i]
  {
    var a0 := DefaultAddress.(family := family);
    SetFourWords(a0, ws);
    SetWord(SetWord(SetWord(SetWord(a0, 0, ws[0]), 1, ws[1]), 2, ws[2]), 3, ws[3])
  }

  /** The bytes of an address built from four words are the words' bytes in slot order. */
  lemma FromWordsBytes(family: Domain, ws: seq<Word>)
    requires |ws| == 4
    ensures FromWords(family, ws).bytes
         == WordToBytes(ws[0]) + WordToBytes(ws[1]) + WordToBytes(ws[2]) + WordToBytes(ws[3])
  {
    var r := FromWords(family, ws);
    var b: Bytes16 := WordToBytes(ws[0]) + WordToBytes(ws[1]) + WordToBytes(ws[2]) + WordToBytes(ws[3]);
    forall i | 0 <= i < 4
      ensures r.bytes[4 * i .. 4 * i + 4] == b[4 * i .. 4 * i + 4]
    {
      assert WordToBytes(WordAt(r, i)) == r.bytes[4 * i .. 4 * i + 4];
      assert b[4 * i .. 4 * i + 4] == WordToBytes(ws[i]);
    }
    BytesFromQuarters(r.bytes, b);
  }

  lemma SetFourWords(a: Address, ws: seq<Word>)
    requires |ws| == 4
    ensures forall i :: 0 <= i < 4 ==>
      WordAt(SetWord(SetWord(SetWord(SetWord(a, 0, ws[0]), 1, ws[1]), 2, ws[2]), 3, ws[3]), i) == ws[i]
  {
    var a1 := SetWord(a, 0, ws[0]);
    var a2 := SetWord(a1, 1, ws[1]);
    var a3 := SetWord(a2, 2, ws[2]);
    forall i | 0 <= i < 4
      ensures WordAt(SetWord(a3, 3, ws[3]), i) == ws[i]
    {
      WordAtSetWord(a, 0, i, ws[0]);
      WordAtSetWord(a1, 1, i, ws[1]);
      WordAtSetWord(a2, 2, i, ws[2]);
      WordAtSetWord(a3, 3, i, ws[3]);
    }
  }

  // ---------------------------------------------------------------------------
  // The raw views
  // ---------------------------------------------------------------------------

  /** `IPv4(&a)`: the word in slot 3, read whatever the family tag says. */
  function IPv4(a: Address): (w: Word)
    ensures WordToBytes(w) == a.bytes[12..16]
  {
    WordAt(a, 3)
  }

  /** `IPv6(&a)`: the four words from slot 0 on, read whatever the family tag says. */
  function IPv6(a: Address): (ws: seq<Word>)
    ensures |ws| == 4
    ensures forall i :: 0 <= i < 4 ==> WordToBytes(ws[i]) == a.bytes[4 * i .. 4 * i + 4]
  {
    [WordAt(a, 0), WordAt(a, 1), WordAt(a, 2), WordAt(a, 3)]
  }

  /**
   * The views are raw: they ignore the family, the IPv4 view is slot 3 (the
   * last word of the IPv6 view) and the IPv6 view starts at slot 0, so a
   * write to `m_address[3]` or `m_address[0]` is seen through them.
   */
  lemma ViewsAliasSlots(a: Address, f: Domain, w: Word)
    ensures IPv4(a.(family := f)) == IPv4(a) && IPv6(a.(family := f)) == IPv6(a)
    ensures IPv4(a) == IPv6(a)[3]
    ensures IPv4(SetWord(a, 3, w)) == w
    ensures IPv6(SetWord(a, 0, w))[0] == w
  {
    WordAtSetWord(a, 3, 3, w);
    WordAtSetWord(a, 0, 0, w);
  }

  /** The two views together cover the whole value: equal views, equal bytes. */
  lemma IPv6ViewDeterminesBytes(a: Address, b: Address)
    requires IPv6(a) == IPv6(b)
    ensures a.bytes == b.bytes
  {
    forall i | 0 <= i < 4
      ensures a.bytes[4 * i .. 4 * i + 4] == b.bytes[4 * i .. 4 * i + 4]
    {
      assert WordToBytes(IPv6(a)[i]) == WordToBytes(IPv6(b)[i]);
    }
    BytesFromQuarters(a.bytes, b.bytes);
  }

  /** Two 16-byte strings that agree on each 4-byte quarter are equal. */
  lemma BytesFromQuarters(x: Bytes16, y: Bytes16)
    requires forall i :: 0 <= i < 4 ==> x[4 * i .. 4 * i + 4] == y[4 * i .. 4 * i + 4]
    ensures x == y
  {
    forall k | 0 <= k < 16
      ensures x[k] == y[k]
    {
      var i := k / 4;
      assert x[4 * i .. 4 * i + 4][k - 4 * i] == y[4 * i .. 4 * i + 4][k - 4 * i];
    }
  }

  // ---------------------------------------------------------------------------
  // BitDifference
  // ---------------------------------------------------------------------------

  /**
   * `BitDifference`: the population count of the word-wise XOR of the two
   * addresses, over all four words and so all 128 bits, families ignored.
   */
  function BitDifference(a: Address, b: Address): (d: nat)
    ensures d <= 128
  {
    var x, y := IPv6(a), IPv6(b);
    PopCount(Xor(x[0], y[0])) + PopCount(Xor(x[1], y[1]))
    + PopCount(Xor(x[2], y[2])) + PopCount(Xor(x[3], y[3]))
  }

  /** Reference definition: the Hamming distance of the two 128-bit values, at most 128 and zero for equal bytes. */
  function HammingDistance(a: Address, b: Address): (d: nat)
    ensures d <= 128
    ensures a.bytes == b.bytes ==> d == 0
  {
    var x, y := IPv6(a), IPv6(b);
    DifferingBitsZeroes(x[0], 32);
    DifferingBitsZeroes(x[1], 32);
    DifferingBitsZeroes(x[2], 32);
    DifferingBitsZeroes(x[3], 32);
    DifferingBitsBelow(x[0], y[0], 32) + DifferingBitsBelow(x[1], y[1], 32)
    + DifferingBitsBelow(x[2], y[2], 32) + DifferingBitsBelow(x[3], y[3], 32)
  }

  /** `BitDifference` is the Hamming distance of the 128-bit values. */
  lemma BitDifferenceIsHammingDistance(a: Address, b: Address)
    ensures BitDifference(a, b) == HammingDistance(a, b)
  {
    var x, y := IPv6(a), IPv6(b);
  }

  /** The bit difference is zero exactly for equal address bytes, whatever the families. */
  lemma BitDifferenceZero(a: Address, b: Address)
    ensures BitDifference(a, b) == 0 <==> a.bytes == b.bytes
  {
    BitDifferenceIsHammingDistance(a, b);
    var x, y := IPv6(a), IPv6(b);
    WordDifferences(x[0], y[0]);
    WordDifferences(x[1], y[1]);
    WordDifferences(x[2], y[2]);
    WordDifferences(x[3], y[3]);
    if a.bytes == b.bytes {
      assert x == y;
    }
    if BitDifference(a, b) == 0 {
      assert x == y;
      IPv6ViewDeterminesBytes(a, b);
    }
  }

  /** The bit difference does not depend on the order of its arguments. */
  lemma BitDifferenceSymmetric(a: Address, b: Address)
    ensures BitDifference(a, b) == BitDifference(b, a)
  {
    BitDifferenceIsHammingDistance(a, b);
    BitDifferenceIsHammingDistance(b, a);
    var x, y := IPv6(a), IPv6(b);
    DifferingBitsSymmetric(x[0], y[0], 32);
    DifferingBitsSymmetric(x[1], y[1], 32);
    DifferingBitsSymmetric(x[2], y[2], 32);
    DifferingBitsSymmetric(x[3], y[3], 32);
  }

  /** The bit difference obeys the triangle inequality. */
  lemma BitDifferenceTriangle(a: Address, b: Address, c: Address)
    ensures BitDifference(a, c) <= BitDifference(a, b) + BitDifference(b, c)
  {
    BitDifferenceIsHammingDistance(a, b);
    BitDifferenceIsHammingDistance(b, c);
    BitDifferenceIsHammingDistance(a, c);
    var x, y, z := IPv6(a), IPv6(b), IPv6(c);
    DifferingBitsTriangle(x[0], y[0], z[0], 32);
    DifferingBitsTriangle(x[1], y[1], z[1], 32);
    DifferingBitsTriangle(x[2], y[2], z[2], 32);
    DifferingBitsTriangle(x[3], y[3], z[3], 32);
  }

  /** The family tags play no part in the bit difference. */
  lemma BitDifferenceIgnoresFamily(a: Address, b: Address, f: Domain, g: Domain)
    ensures BitDifference(a.(family := f), b.(family := g)) == BitDifference(a, b)
  {
    ViewsAliasSlots(a, f, 0);
    ViewsAliasSlots(b, g, 0);
  }

  lemma XorExample()
    ensures PopCount(Xor(0, 0)) == 0 && PopCount(Xor(0x4e, 0xe6)) == 3
  {
    DifferingBitsZeroes(0, 32);
    DifferingBitsOfVector();
  }

  /** 0x4e and 0xe6 differ in three bit positions, worked eight bits from the top. */
  lemma DifferingBitsOfVector()
    ensures DifferingBitsBelow(0x4e, 0xe6, 32) == 3
  {
    DifferingBitsZeroes(0, 24);
    assert DifferingBitsBelow(0x0, 0x1, 25) == 1;
    assert DifferingBitsBelow(0x1, 0x3, 26) == 1;
    assert DifferingBitsBelow(0x2, 0x7, 27) == 2;
    assert DifferingBitsBelow(0x4, 0xe, 28) == 2;
    assert DifferingBitsBelow(0x9, 0x1c, 29) == 3;
    assert DifferingBitsBelow(0x13, 0x39, 30) == 3;
    assert DifferingBitsBelow(0x27, 0x73, 31) == 3;
  }

  /** A default address with only `m_address[3]` assigned reads as three zero words and that word. */
  lemma OnlySlotThree(w: Word)
    ensures IPv6(SetWord(DefaultAddress, 3, w)) == [0, 0, 0, w]
  {
    WordAtSetWord(DefaultAddress, 3, 0, w);
    WordAtSetWord(DefaultAddress, 3, 1, w);
    WordAtSetWord(DefaultAddress, 3, 2, w);
    WordAtSetWord(DefaultAddress, 3, 3, w);
    DefaultWordsZero();
  }

  /** Every word of a default address reads as zero. */
  lemma DefaultWordsZero()
    ensures IPv6(DefaultAddress) == [0, 0, 0, 0]
  {
    var z := DefaultAddress.bytes;
    assert z[0 .. 4] == [0, 0, 0, 0];
    assert z[4 .. 8] == [0, 0, 0, 0];
    assert z[8 .. 12] == [0, 0, 0, 0];
    assert z[12 .. 16] == [0, 0, 0, 0];
  }

  /** The test vectors: word 3 holding 0x4e against 0xe6 is 3 bits apart; equal words are 0 apart. */
  lemma BitDifferenceExample()
    ensures BitDifference(SetWord(DefaultAddress, 3, 0x4e), SetWord(DefaultAddress, 3, 0xe6)) == 3
    ensures BitDifference(SetWord(DefaultAddress, 3, 0xe6), SetWord(DefaultAddress, 3, 0xe6)) == 0
  {
    var a, b := SetWord(DefaultAddress, 3, 0x4e), SetWord(DefaultAddress, 3, 0xe6);
    OnlySlotThree(0x4e);
    OnlySlotThree(0xe6);
    XorExample();
    BitDifferenceZero(b, b);
  }
}
