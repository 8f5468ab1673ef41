/** The part of Go's `strings` package the agent uses: `strings.Split(s, ",")`. */
module Strings {
  import opened GoTypes

  /** The separator of the broker list, `,`. */
  const Comma: byte := 44

  /** Number of occurrences of byte c in s (`strings.Count` for one byte). */
  function CountByte(s: GoString, c: byte): (n: nat)
    ensures n <= |s|
    ensures n == 0 <==> c !in s
    decreases |s|
  {
    if s == [] then 0
    else (if s[0] == c then 1 else 0) + CountByte(s[1..], c)
  }

  /** `strings.Split(s, ",")`: the pieces between the commas, in order, empty
      pieces included; the empty string gives one empty piece. */
  function Split(s: GoString): (r: seq<GoString>)
    ensures |r| >= 1
    decreases |s|
  {
    if s == [] then [[]]
    else
      var rest := Split(s[1..]);
      if s[0] == Comma then [[]] + rest
      else [[s[0]] + rest[0]] + rest[1..]
  }

  /** There is one more piece than there are commas. */
  lemma {:induction false} SplitCount(s: GoString)
    ensures |Split(s)| == CountByte(s, Comma) + 1
    decreases |s|
  {
    if s != [] {
      SplitCount(s[1..]);
    }
  }

  /** No piece contains the separator. */
  lemma {:induction false} SplitPiecesCommaFree(s: GoString)
    ensures forall i | 0 <= i < |Split(s)| :: Comma !in Split(s)[i]
    decreases |s|
  {
    if s != [] {
      SplitPiecesCommaFree(s[1..]);
      var rest := Split(s[1..]);
      if s[0] != Comma {
        var first := [s[0]] + rest[0];
        assert Comma !in first by {
          assert forall k | 0 <= k < |first| :: first[k] == if k == 0 then s[0] else rest[0][k - 1];
        }
        var r := Split(s);
        assert r == [first] + rest[1..];
        forall i | 0 <= i < |r| ensures Comma !in r[i] {
          if i > 0 { assert r[i] == rest[i]; }
        }
      } else {
        var r := Split(s);
        assert r == [[]] + rest;
        forall i | 0 <= i < |r| ensures Comma !in r[i] {
          if i > 0 { assert r[i] == rest[i - 1]; }
        }
      }
    }
  }

  /** `strings.Join(parts, ",")`, the inverse of Split. */
  function Join(parts: seq<GoString>): GoString
    decreases |parts|
  {
    if |parts| == 0 then []
    else if |parts| == 1 then parts[0]
    else parts[0] + [Comma] + Join(parts[1..])
  }

  /** Joining the pieces with commas gives back the original string: Split
      loses and reorders nothing. */
  lemma {:induction false} JoinSplit(s: GoString)
    ensures Join(Split(s)) == s
    decreases |s|
  {
    if s != [] {
      var rest := Split(s[1..]);
      JoinSplit(s[1..]);
      if s[0] == Comma {
        assert Split(s) == [[]] + rest;
        assert ([[]] + rest)[1..] == rest;
        assert s == [Comma] + s[1..];
      } else {
        var r := [[s[0]] + rest[0]] + rest[1..];
        assert Split(s) == r;
        assert r[1..] == rest[1..];
        if |rest| == 1 {
          assert s == [s[0]] + s[1..];
        } else {
          assert Join(rest) == rest[0] + [Comma] + Join(rest[1..]);
          assert s == [s[0]] + s[1..];
        }
      }
    }
  }

  /** A comma-free string is a single piece. */
  lemma {:induction false} SplitNoComma(p: GoString)
    requires Comma !in p
    ensures Split(p) == [p]
    decreases |p|
  {
    if p != [] {
      assert Comma !in p[1..];
      SplitNoComma(p[1..]);
      var rest := Split(p[1..]);
      assert rest[0] == p[1..] && rest[1..] == [];
      assert p == [p[0]] + p[1..];
    }
  }

  /** Split of a string that starts with a comma. */
  lemma SplitComma(t: GoString)
    ensures Split([Comma] + t) == [[]] + Split(t)
  {
    assert ([Comma] + t)[1..] == t;
  }

  /** Split of a string that starts with any other byte. */
  lemma SplitOther(c: byte, u: GoString)
    requires c != Comma
    ensures Split([c] + u) == [[c] + Split(u)[0]] + Split(u)[1..]
  {
    assert ([c] + u)[1..] == u;
  }

  /** A comma-free piece followed by a comma starts a new piece. */
  lemma {:induction false} SplitPiece(p: GoString, t: GoString)
    requires Comma !in p
    ensures Split(p + [Comma] + t) == [p] + Split(t)
    decreases |p|
  {
    if p == [] {
      assert p + [Comma] + t == [Comma] + t;
      SplitComma(t);
    } else {
      assert p[0] != Comma && Comma !in p[1..];
      SplitPiece(p[1..], t);
      SplitPieceStep(p[0], p[1..], t);
      assert p == [p[0]] + p[1..];
    }
  }

  lemma SplitPieceStep(c: byte, p: GoString, t: GoString)
    requires c != Comma
    requires Split(p + [Comma] + t) == [p] + Split(t)
    ensures Split([c] + p + [Comma] + t) == [[c] + p] + Split(t)
  {
    var u := p + [Comma] + t;
    assert [c] + p + [Comma] + t == [c] + u;
    SplitOther(c, u);
    var rest := Split(u);
    assert rest[0] == p;
    assert rest[1..] == Split(t);
  }

  /** Splitting a comma-joined list of comma-free entries gives exactly that
      list: order, duplicates and empty entries are all kept. */
  lemma {:induction false} SplitJoin(parts: seq<GoString>)
    requires |parts| > 0
    requires forall i | 0 <= i < |parts| :: Comma !in parts[i]
    ensures Split(Join(parts)) == parts
    decreases |parts|
  {
    if |parts| == 1 {
      SplitNoComma(parts[0]);
    } else {
      SplitJoin(parts[1..]);
      SplitPiece(parts[0], Join(parts[1..]));
      assert parts == [parts[0]] + parts[1..];
    }
  }

  /** ",a,,a" splits into "", "a", "", "a": empty entries and duplicates stay. */
  lemma SplitExample()
    ensures Split([44, 97, 44, 44, 97]) == [[], [97], [], [97]]
  {
    SplitJoin([[], [97], [], [97]]);
    assert Join([[], [97], [], [97]]) == [44, 97, 44, 44, 97];
  }
}
