/**
 * The text of an IPv6 address in the recommended form of section 4 of
 * RFC 5952: eight 16-bit groups in lowercase hexadecimal without leading
 * zeros (sections 4.1 and 4.3), the longest run of two or more zero groups,
 * the first of equally long runs, replaced by "::" (sections 4.2.1-4.2.3);
 * and the reading of such text back into groups, which accepts hexadecimal
 * digits of either case and at most one "::".
 */
module IPv6Text {

  import opened Optional
  import opened Fields
  import opened Numerals
  import opened Addresses

  /** A 16-bit group of an IPv6 address. */
  type Group = g: int | 0 <= g < 0x1_0000

  // ---------------------------------------------------------------------------
  // Groups of the sixteen bytes
  // ---------------------------------------------------------------------------

  /** Group `i` of sixteen network-order bytes: the big-endian pair at bytes `2i` and `2i + 1`. */
  function GroupAt(b: Bytes16, i: nat): Group
    requires i < 8
  {
    0x100 * (b[2 * i] as int) + b[2 * i + 1]
  }

  /** The sixteen network-order bytes of eight groups, high byte of each group first. */
  function GroupBytes(g: seq<Group>): (b: Bytes16)
    requires |g| == 8
  {
    [g[0] / 0x100, g[0] % 0x100, g[1] / 0x100, g[1] % 0x100,
     g[2] / 0x100, g[2] % 0x100, g[3] / 0x100, g[3] % 0x100,
     g[4] / 0x100, g[4] % 0x100, g[5] / 0x100, g[5] % 0x100,
     g[6] / 0x100, g[6] % 0x100, g[7] / 0x100, g[7] % 0x100]
  }

  /** The eight groups of sixteen network-order bytes. */
  function Groups(b: Bytes16): (g: seq<Group>)
    ensures |g| == 8
    ensures GroupBytes(g) == b
  {
    var g := [GroupAt(b, 0), GroupAt(b, 1), GroupAt(b, 2), GroupAt(b, 3),
              GroupAt(b, 4), GroupAt(b, 5), GroupAt(b, 6), GroupAt(b, 7)];
    PairsRestoreBytes(b, g);
    g
  }

  lemma PairsRestoreBytes(b: Bytes16, g: seq<Group>)
    requires |g| == 8 && forall i :: 0 <= i < 8 ==> g[i] == GroupAt(b, i)
    ensures GroupBytes(g) == b
  {
    forall i | 0 <= i < 8
      ensures g[i] / 0x100 == b[2 * i] && g[i] % 0x100 == b[2 * i + 1]
    {
      ByteDigit(b[2 * i + 1], b[2 * i]);
    }
    assert b == [b[0], b[1], b[2], b[3], b[4], b[5], b[6], b[7],
                 b[8], b[9], b[10], b[11], b[12], b[13], b[14], b[15]];
  }

  /** The groups are determined by the bytes they were read from, and the other way round. */
  lemma GroupsRoundTrip(g: seq<Group>)
    requires |g| == 8
    ensures Groups(GroupBytes(g)) == g
  {
    var b := GroupBytes(g);
    forall i | 0 <= i < 8
      ensures Groups(b)[i] == g[i]
    {
      assert b[2 * i] == g[i] / 0x100 && b[2 * i + 1] == g[i] % 0x100;
    }
  }

  // ---------------------------------------------------------------------------
  // Runs of zero groups (RFC 5952, sections 4.2.1-4.2.3)
  // ---------------------------------------------------------------------------

  /** The number of consecutive zero groups starting at index `i`. */
  function ZeroRunAt(g: seq<Group>, i: nat): (n: nat)
    ensures i + n <= |g| || n == 0
    decreases |g| - i
  {
    if i < |g| && g[i] == 0 then 1 + ZeroRunAt(g, i + 1) else 0
  }

  /** The run counted at `i` is all zero groups, and it ends at the end or at a group that is not zero. */
  lemma {:induction false} ZeroRunIsRun(g: seq<Group>, i: nat)
    ensures forall k :: i <= k < i + ZeroRunAt(g, i) ==> g[k] == 0
    ensures i + ZeroRunAt(g, i) < |g| ==> g[i + ZeroRunAt(g, i)] != 0
    decreases |g| - i
  {
    if i < |g| && g[i] == 0 {
      ZeroRunIsRun(g, i + 1);
    }
  }

  /** A run of `length` zero groups starting at group `start`. */
  datatype Run = Run(start: nat, length: nat)

  /**
   * The run chosen after scanning the start positions from `i` on, given the
   * choice `best` among the earlier ones: a run of at least two groups is
   * taken only when it is strictly longer than the one held.
   */
  function LongestZeroRunFrom(g: seq<Group>, i: nat, best: Option<Run>): Option<Run>
    decreases |g| - i
  {
    if i >= |g| then best
    else
      LongestZeroRunFrom(g, i + 1, Choose(g, i, best))
  }

  /** `best` is the canonical choice among the runs starting before `i`. */
  ghost predicate ChosenBefore(g: seq<Group>, i: nat, best: Option<Run>)
  {
    match best
    case None => forall j :: 0 <= j < i ==> ZeroRunAt(g, j) < 2
    case Some(r) =>
      && r.start < i
      && r.length >= 2
      && ZeroRunAt(g, r.start) == r.length
      && (forall j :: 0 <= j < i ==> ZeroRunAt(g, j) <= r.length)
      && (forall j :: 0 <= j < r.start ==> ZeroRunAt(g, j) < r.length)
  }

  /** Scanning keeps the canonical choice. */
  lemma {:induction false} LongestZeroRunFromChooses(g: seq<Group>, i: nat, best: Option<Run>)
    requires i <= |g|
    requires ChosenBefore(g, i, best)
    ensures ChosenBefore(g, |g|, LongestZeroRunFrom(g, i, best))
    decreases |g| - i
  {
    if i < |g| {
      var next := Choose(g, i, best);
      ChooseKeepsChoice(g, i, best);
      LongestZeroRunFromChooses(g, i + 1, next);
    }
  }

  /** The choice after looking at the run starting at `i`. */
  function Choose(g: seq<Group>, i: nat, best: Option<Run>): Option<Run>
  {
    var n := ZeroRunAt(g, i);
    if n >= 2 && (best.None? || n > best.value.length) then Some(Run(i, n)) else best
  }

  /** Looking at one more start position keeps the canonical choice. */
  lemma ChooseKeepsChoice(g: seq<Group>, i: nat, best: Option<Run>)
    requires i < |g|
    requires ChosenBefore(g, i, best)
    ensures ChosenBefore(g, i + 1, Choose(g, i, best))
  {
    var n := ZeroRunAt(g, i);
    if best.Some? && n > best.value.length {
      assert n >= 2;
    }
  }

  /**
   * The run "::" replaces: the longest run of zero groups, of at least two
   * groups, and the first of equally long ones; none when no two adjacent
   * groups are zero.
   */
  function LongestZeroRun(g: seq<Group>): (r: Option<Run>)
    ensures r.None? <==> forall j :: 0 <= j < |g| ==> ZeroRunAt(g, j) < 2
    ensures r.Some? ==>
      && r.value.length >= 2
      && r.value.start + r.value.length <= |g|
      && ZeroRunAt(g, r.value.start) == r.value.length
      && (forall j :: 0 <= j < |g| ==> ZeroRunAt(g, j) <= r.value.length)
      && (forall j :: 0 <= j < r.value.start ==> ZeroRunAt(g, j) < r.value.length)
  {
    LongestZeroRunFromChooses(g, 0, None);
    var r := LongestZeroRunFrom(g, 0, None);
    assert r.Some? ==> ZeroRunAt(g, r.value.start) >= 2;
    r
  }

  /** The chosen run is a whole run: the group before it, if any, is not zero. */
  lemma ChosenRunIsMaximal(g: seq<Group>)
    requires LongestZeroRun(g).Some?
    ensures var r := LongestZeroRun(g).value; r.start == 0 || g[r.start - 1] != 0
  {
    var r := LongestZeroRun(g).value;
    if r.start > 0 {
      var p: nat := r.start - 1;
      assert ZeroRunAt(g, p) < r.length;
    }
  }

  // ---------------------------------------------------------------------------
  // Formatting
  // ---------------------------------------------------------------------------

  /** Each group in lowercase hexadecimal without leading zeros. */
  function HexFields(g: seq<Group>): (fields: seq<string>)
    ensures |fields| == |g|
    ensures forall i :: 0 <= i < |g| ==> fields[i] == Hex(g[i])
  {
    if |g| == 0 then [] else [Hex(g[0])] + HexFields(g[1..])
  }

  /**
   * The text of eight groups: all of them joined by ':', or the chosen zero
   * run replaced by "::". Only lowercase hexadecimal digits and ':' are
   * written, and "::" appears exactly when some two adjacent groups are zero.
   */
  function FormatIPv6(g: seq<Group>): (s: string)
    requires |g| == 8
    ensures HexText(s)
    ensures NoDoubleColon(s) <==> forall j :: 0 <= j < 8 ==> ZeroRunAt(g, j) < 2
  {
    match LongestZeroRun(g)
    case None =>
      JoinedHexAlphabet(g);
      HexFieldsColonFree(g);
      JoinColonFree(HexFields(g));
      Join(HexFields(g), ':')
    case Some(r) =>
      CompressedShape(g, r);
      assert ZeroRunAt(g, r.start) >= 2;
      Compressed(g, r)
  }

  /** The text of the groups with the run `r` of zero groups replaced by "::". */
  function Compressed(g: seq<Group>, r: Run): string
    requires r.start + r.length <= |g|
  {
    Join(HexFields(g[..r.start]), ':') + "::" + Join(HexFields(g[r.start + r.length..]), ':')
  }

  /** Text made only of ':' and lowercase hexadecimal digits. */
  ghost predicate HexText(s: string)
  {
    forall i :: 0 <= i < |s| ==> s[i] == ':' || s[i] in Digits
  }

  /** Compressed text holds "::" and otherwise only the characters of the groups' fields. */
  lemma CompressedShape(g: seq<Group>, r: Run)
    requires r.start + r.length <= |g|
    ensures !NoDoubleColon(Compressed(g, r)) && HexText(Compressed(g, r))
  {
    var left, right := g[..r.start], g[r.start + r.length..];
    var l, ri := Join(HexFields(left), ':'), Join(HexFields(right), ':');
    var s := l + "::" + ri;
    assert Compressed(g, r) == s;
    assert s[|l|] == ':' && s[|l| + 1] == ':';
    JoinedHexAlphabet(left);
    JoinedHexAlphabet(right);
    forall i | 0 <= i < |s|
      ensures s[i] == ':' || s[i] in Digits
    {
      if i < |l| {
        assert s[i] == l[i];
      } else if i >= |l| + 2 {
        assert s[i] == ri[i - |l| - 2];
      } else {
        assert s[i] == ':';
      }
    }
  }

  /** Groups joined by ':' hold only ':' and lowercase hexadecimal digits. */
  lemma JoinedHexAlphabet(g: seq<Group>)
    ensures HexText(Join(HexFields(g), ':'))
  {
    var s := Join(HexFields(g), ':');
    forall i | 0 <= i < |s|
      ensures s[i] == ':' || s[i] in Digits
    {
      HexFieldsAlphabet(g, s[i]);
    }
  }

  lemma HexFieldsAlphabet(g: seq<Group>, c: char)
    requires c in Join(HexFields(g), ':')
    ensures c == ':' || c in Digits
  {
    JoinCharacters(HexFields(g), ':', c);
    if c != ':' {
      var i :| 0 <= i < |g| && c in HexFields(g)[i];
      var k :| 0 <= k < |Hex(g[i])| && Hex(g[i])[k] == c;
    }
  }

  // ---------------------------------------------------------------------------
  // Reading
  // ---------------------------------------------------------------------------

  /** One group: one to four hexadecimal digits of either case. */
  function ParseGroup(f: string): Option<Group>
  {
    if |f| == 0 || |f| > 4 then None
    else
      match ParseNumeral(f, 16)
      case None => None
      case Some(v) => if v < 0x1_0000 then Some(v) else None
  }

  /** Every field read as a group; none if any field is not a group. */
  function ParseGroups(fields: seq<string>): (g: Option<seq<Group>>)
    ensures g.Some? ==> |g.value| == |fields|
  {
    if |fields| == 0 then Some([])
    else
      match (ParseGroup(fields[0]), ParseGroups(fields[1..]))
      case (Some(x), Some(xs)) => Some([x] + xs)
      case _ => None
  }

  /** The groups on one side of "::": none for empty text, else ':'-separated groups. */
  function ParseSide(t: string): Option<seq<Group>>
  {
    if |t| == 0 then Some([]) else ParseGroups(Split(t, ':'))
  }

  /** The first position from `i` on where "::" starts. */
  function FindDoubleColon(s: string, i: nat): (p: Option<nat>)
    ensures p.Some? ==> i <= p.value && p.value + 1 < |s| && s[p.value] == ':' && s[p.value + 1] == ':'
    decreases |s| - i
  {
    if i + 1 >= |s| then None
    else if s[i] == ':' && s[i + 1] == ':' then Some(i)
    else FindDoubleColon(s, i + 1)
  }

  function Zeros(n: nat): (z: seq<Group>)
    ensures |z| == n && forall k :: 0 <= k < n ==> z[k] == 0
  {
    seq(n, _ => 0)
  }

  /**
   * The groups an IPv6 text denotes: eight groups, or at most seven around
   * one "::" that stands for the missing zero groups; none for anything else.
   */
  function ParseIPv6(s: string): (g: Option<seq<Group>>)
    ensures g.Some? ==> |g.value| == 8
  {
    match FindDoubleColon(s, 0)
    case None =>
      var fields := Split(s, ':');
      if |fields| != 8 then None else ParseGroups(fields)
    case Some(i) =>
      match (ParseSide(s[..i]), ParseSide(s[i + 2..]))
      case (Some(left), Some(right)) =>
        if |left| + |right| > 7 then None
        else Some(left + Zeros(8 - |left| - |right|) + right)
      case _ => None
  }

  // ---------------------------------------------------------------------------
  // Round trip
  // ---------------------------------------------------------------------------

  ghost predicate NoDoubleColon(s: string)
  {
    forall i :: 0 <= i < |s| - 1 ==> !(s[i] == ':' && s[i + 1] == ':')
  }

  /** Fields that are each non-empty and free of ':' join into text with no "::" that neither starts nor ends with ':'. */
  lemma {:induction false} JoinColonFree(fields: seq<string>)
    requires |fields| >= 1
    requires forall i :: 0 <= i < |fields| ==> |fields[i]| >= 1 && ':' !in fields[i]
    ensures var s := Join(fields, ':'); |s| >= 1 && s[0] != ':' && s[|s| - 1] != ':' && NoDoubleColon(s)
  {
    var f := fields[0];
    assert f[0] in f && f[|f| - 1] in f;
    if |fields| > 1 {
      var t := Join(fields[1..], ':');
      JoinColonFree(fields[1..]);
      var s := f + [':'] + t;
      assert Join(fields, ':') == s;
      forall i | 0 <= i < |s| - 1
        ensures !(s[i] == ':' && s[i + 1] == ':')
      {
        if i < |f| - 1 {
          assert s[i] == f[i] && f[i] in f;
        } else if i == |f| - 1 {
          assert s[i] == f[i];
        } else if i == |f| {
          assert s[i + 1] == t[0];
        } else {
          assert s[i] == t[i - |f| - 1] && s[i + 1] == t[i - |f|];
        }
      }
    }
  }

  /** Text without "::" holds none from any position. */
  lemma {:induction false} FindDoubleColonNone(s: string, i: nat)
    requires NoDoubleColon(s)
    ensures FindDoubleColon(s, i) == None
    decreases |s| - i
  {
    if i + 1 < |s| {
      FindDoubleColonNone(s, i + 1);
    }
  }

  /** In `l + "::" + r`, where `l` holds no "::" and does not end with ':', the first "::" is right after `l`. */
  lemma {:induction false} FindDoubleColonAfter(l: string, r: string, i: nat)
    requires i <= |l|
    requires NoDoubleColon(l) && (|l| == 0 || l[|l| - 1] != ':')
    ensures FindDoubleColon(l + "::" + r, i) == Some(|l|)
    decreases |l| - i
  {
    var s := l + "::" + r;
    if i < |l| {
      if i + 1 < |l| {
        assert s[i] == l[i] && s[i + 1] == l[i + 1];
      } else {
        assert s[i] == l[|l| - 1];
      }
      FindDoubleColonAfter(l, r, i + 1);
    }
  }

  /** The hexadecimal field of a group is read back as the group. */
  lemma GroupRoundTrip(x: Group)
    ensures ParseGroup(Hex(x)) == Some(x)
  {
    HexLength(x);
  }

  /** Each group's field is non-empty and free of ':'. */
  lemma HexFieldsColonFree(g: seq<Group>)
    ensures forall i :: 0 <= i < |g| ==> |HexFields(g)[i]| >= 1 && ':' !in HexFields(g)[i]
  {
    forall i | 0 <= i < |g|
      ensures ':' !in HexFields(g)[i]
    {
      NotInNumeral(g[i], 16, ':');
    }
  }

  lemma {:induction false} ParseGroupsRoundTrip(g: seq<Group>)
    ensures ParseGroups(HexFields(g)) == Some(g)
  {
    if |g| > 0 {
      var f := HexFields(g);
      assert f == [Hex(g[0])] + HexFields(g[1..]);
      assert f[1..] == HexFields(g[1..]);
      GroupRoundTrip(g[0]);
      ParseGroupsRoundTrip(g[1..]);
      assert ParseGroups(f) == Some([g[0]] + g[1..]);
      assert [g[0]] + g[1..] == g;
    }
  }

  /** One side of "::" is read back as the groups it was written from. */
  lemma SideRoundTrip(g: seq<Group>)
    ensures ParseSide(Join(HexFields(g), ':')) == Some(g)
  {
    if |g| > 0 {
      HexFieldsColonFree(g);
      JoinColonFree(HexFields(g));
      SplitJoin(HexFields(g), ':');
      ParseGroupsRoundTrip(g);
    }
  }

  /** The written side before "::" holds no "::" and does not end with ':'. */
  lemma SideShape(g: seq<Group>)
    ensures var s := Join(HexFields(g), ':'); NoDoubleColon(s) && (|s| == 0 || s[|s| - 1] != ':')
  {
    if |g| > 0 {
      HexFieldsColonFree(g);
      JoinColonFree(HexFields(g));
    }
  }

  /** Without a zero run to compress, the text is read back as the groups. */
  lemma UncompressedRoundTrip(g: seq<Group>)
    requires |g| == 8 && LongestZeroRun(g).None?
    ensures ParseIPv6(FormatIPv6(g)) == Some(g)
  {
    var s := Join(HexFields(g), ':');
    HexFieldsColonFree(g);
    JoinColonFree(HexFields(g));
    FindDoubleColonNone(s, 0);
    SplitJoin(HexFields(g), ':');
    ParseGroupsRoundTrip(g);
  }

  /** The text around the first "::" of `l + "::" + r`, for an `l` written from groups, is `l` and `r`. */
  lemma CutAtDoubleColon(left: seq<Group>, r: string)
    ensures var l := Join(HexFields(left), ':');
      var s := l + "::" + r;
      FindDoubleColon(s, 0) == Some(|l|) && s[..|l|] == l && s[|l| + 2..] == r
  {
    var l := Join(HexFields(left), ':');
    SideShape(left);
    FindDoubleColonAfter(l, r, 0);
    var s := l + "::" + r;
    assert s[..|l|] == l;
    assert s[|l| + 2..] == r;
  }

  /** Putting the zero groups of a run back between the two sides restores the groups. */
  lemma RunRestored(g: seq<Group>, r: Run)
    requires r.start + r.length <= |g|
    requires forall k :: r.start <= k < r.start + r.length ==> g[k] == 0
    ensures g[..r.start] + Zeros(r.length) + g[r.start + r.length..] == g
  {
    var z := Zeros(r.length);
    assert z == g[r.start .. r.start + r.length];
  }

  /** Text of groups around "::" standing for `n` zero groups, eight in all, is read back as those groups. */
  lemma CompressedTextRead(left: seq<Group>, n: nat, right: seq<Group>)
    requires |left| + n + |right| == 8 && n >= 1
    ensures ParseIPv6(Join(HexFields(left), ':') + "::" + Join(HexFields(right), ':'))
      == Some(left + Zeros(n) + right)
  {
    var l, rt := Join(HexFields(left), ':'), Join(HexFields(right), ':');
    LeftOfDoubleColon(left, rt);
    RightOfDoubleColon(l, right);
    ReadAroundDoubleColon(l + "::" + rt, |l|, left, n, right);
  }

  /** The first "::" of the compressed text ends the groups before it, which are read back. */
  lemma LeftOfDoubleColon(left: seq<Group>, r: string)
    ensures var l := Join(HexFields(left), ':');
      var s := l + "::" + r;
      FindDoubleColon(s, 0) == Some(|l|) && ParseSide(s[..|l|]) == Some(left)
  {
    CutAtDoubleColon(left, r);
    SideRoundTrip(left);
  }

  /** The groups after "::" are read back. */
  lemma RightOfDoubleColon(l: string, right: seq<Group>)
    ensures ParseSide((l + "::" + Join(HexFields(right), ':'))[|l| + 2..]) == Some(right)
  {
    var rt := Join(HexFields(right), ':');
    assert (l + "::" + rt)[|l| + 2..] == rt;
    SideRoundTrip(right);
  }

  /** Text whose first "::" is at `i`, with groups on both sides, is read as those groups around zeros. */
  lemma ReadAroundDoubleColon(s: string, i: nat, left: seq<Group>, n: nat, right: seq<Group>)
    requires FindDoubleColon(s, 0) == Some(i)
    requires ParseSide(s[..i]) == Some(left) && ParseSide(s[i + 2..]) == Some(right)
    requires |left| + n + |right| == 8 && n >= 1
    ensures ParseIPv6(s) == Some(left + Zeros(n) + right)
  {
    assert 8 - |left| - |right| == n;
  }

  /**
   * Any run of one or more consecutive zero groups of eight groups, whole or
   * part of a longer run, replaced by "::", is read back as the groups.
   */
  lemma CompressedRoundTrip(g: seq<Group>, r: Run)
    requires |g| == 8 && r.length >= 1 && r.start + r.length <= 8
    requires forall k :: r.start <= k < r.start + r.length ==> g[k] == 0
    ensures ParseIPv6(Compressed(g, r)) == Some(g)
  {
    RunRestored(g, r);
    CompressedTextRead(g[..r.start], r.length, g[r.start + r.length..]);
  }

  /** Reading the text of eight groups gives the groups back. */
  lemma IPv6RoundTrip(g: seq<Group>)
    requires |g| == 8
    ensures ParseIPv6(FormatIPv6(g)) == Some(g)
  {
    if LongestZeroRun(g).None? {
      UncompressedRoundTrip(g);
    } else {
      var r := LongestZeroRun(g).value;
      ZeroRunIsRun(g, r.start);
      CompressedRoundTrip(g, r);
    }
  }

}
