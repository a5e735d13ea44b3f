/**
 * Separator-delimited text: joining fields with a separator character and
 * splitting text back into its fields, as dotted quads ('.') and IPv6
 * groups (':') are written.
 */
module Fields {

  /** The fields written one after another with `sep` between neighbours; no fields give the empty text. */
  function Join(fields: seq<string>, sep: char): (s: string)
    ensures |fields| == 1 ==> s == fields[0]
  {
    if |fields| == 0 then ""
    else if |fields| == 1 then fields[0]
    else fields[0] + [sep] + Join(fields[1..], sep)
  }

  /** The fields of `s` between occurrences of `sep`; text without `sep` is one field. */
  function Split(s: string, sep: char): (fields: seq<string>)
    ensures |fields| >= 1
  {
    if |s| == 0 then [""]
    else
      var rest := Split(s[1..], sep);
      if s[0] == sep then [""] + rest
      else [[s[0]] + rest[0]] + rest[1..]
  }

  /** Text free of the separator is a single field. */
  lemma {:induction false} SplitWithoutSeparator(p: string, sep: char)
    requires sep !in p
    ensures Split(p, sep) == [p]
  {
    if |p| > 0 {
      assert p[0] in p;
      SplitWithoutSeparator(p[1..], sep);
      assert [p[0]] + p[1..] == p;
    }
  }

  /** A separator-free prefix followed by the separator is split off as the first field. */
  lemma {:induction false} SplitFirstField(p: string, sep: char, rest: string)
    requires sep !in p
    ensures Split(p + [sep] + rest, sep) == [p] + Split(rest, sep)
  {
    if |p| == 0 {
      assert p + [sep] + rest == [sep] + rest;
      assert ([sep] + rest)[1..] == rest;
    } else {
      SplitFirstField(p[1..], sep, rest);
      assert (p + [sep] + rest)[1..] == p[1..] + [sep] + rest;
      assert [p[0]] + p[1..] == p;
    }
  }

  /** Splitting undoes joining when no field contains the separator. */
  lemma {:induction false} SplitJoin(fields: seq<string>, sep: char)
    requires |fields| >= 1
    requires forall i :: 0 <= i < |fields| ==> sep !in fields[i]
    ensures Split(Join(fields, sep), sep) == fields
  {
    if |fields| == 1 {
      SplitWithoutSeparator(fields[0], sep);
    } else {
      SplitJoin(fields[1..], sep);
      SplitFirstField(fields[0], sep, Join(fields[1..], sep));
      assert [fields[0]] + fields[1..] == fields;
    }
  }

  /** Joining undoes splitting: the fields of any text, rejoined, are that text. */
  lemma {:induction false} JoinSplit(s: string, sep: char)
    ensures Join(Split(s, sep), sep) == s
    decreases |s|
  {
    if |s| > 0 {
      var rest := Split(s[1..], sep);
      JoinSplit(s[1..], sep);
      assert [s[0]] + s[1..] == s;
      if s[0] == sep {
        assert ([""] + rest)[1..] == rest;
      } else {
        var f := [[s[0]] + rest[0]] + rest[1..];
        if |rest| > 1 {
          assert f[1..] == rest[1..];
          assert Join(f, sep) == [s[0]] + (rest[0] + [sep] + Join(rest[1..], sep));
        }
      }
    }
  }

  /** Splitting undoes joining for four separator-free fields. */
  lemma SplitJoinFour(p0: string, p1: string, p2: string, p3: string, sep: char)
    requires sep !in p0 && sep !in p1 && sep !in p2 && sep !in p3
    ensures Split(Join([p0, p1, p2, p3], sep), sep) == [p0, p1, p2, p3]
  {
    var fields := [p0, p1, p2, p3];
    assert forall i :: 0 <= i < |fields| ==> sep !in fields[i];
    SplitJoin(fields, sep);
  }

  /** Four fields joined are the fields with the separator between neighbours. */
  lemma JoinFour(p0: string, p1: string, p2: string, p3: string, sep: char)
    ensures Join([p0, p1, p2, p3], sep) == p0 + [sep] + p1 + [sep] + p2 + [sep] + p3
  {
    assert [p2, p3][1..] == [p3];
    var t2 := p2 + [sep] + p3;
    assert Join([p2, p3], sep) == t2;
    assert [p1, p2, p3][1..] == [p2, p3];
    var t1 := p1 + [sep] + t2;
    assert Join([p1, p2, p3], sep) == t1;
    assert [p0, p1, p2, p3][1..] == [p1, p2, p3];
    assert Join([p0, p1, p2, p3], sep) == p0 + [sep] + t1;
  }

  /** Joined text uses only characters of the fields and the separator. */
  lemma {:induction false} JoinCharacters(fields: seq<string>, sep: char, c: char)
    requires c in Join(fields, sep)
    ensures c == sep || exists i :: 0 <= i < |fields| && c in fields[i]
  {
    if |fields| > 1 {
      var tail := Join(fields[1..], sep);
      assert Join(fields, sep) == fields[0] + [sep] + tail;
      if c in tail {
        JoinCharacters(fields[1..], sep, c);
        if c != sep {
          var i :| 0 <= i < |fields[1..]| && c in fields[1..][i];
          assert c in fields[i + 1];
        }
      } else if c != sep {
        assert c in fields[0];
      }
    } else if |fields| == 1 {
      assert c in fields[0];
    }
  }

}
