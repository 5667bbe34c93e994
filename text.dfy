/**
 * The string operations of JavaScript that the routes and pages use:
 * `startsWith`, `split` on one character, `join`, ASCII `toLowerCase`
 * and `includes`.
 */
module Text {

  /** `s.startsWith(prefix)` */
  predicate StartsWith(s: string, prefix: string) {
    |prefix| <= |s| && s[..|prefix|] == prefix
  }

  /**
   * `s.split(sep)` for a one-character separator: the runs of `s` between
   * separators, in order; the empty string splits into `[""]`.
   */
  function Split(s: string, sep: char): (pieces: seq<string>)
    ensures |pieces| >= 1
    ensures forall i :: 0 <= i < |pieces| ==> sep !in pieces[i]
    decreases |s|
  {
    if s == [] then [[]]
    else
      var rest := Split(s[1..], sep);
      if s[0] == sep then [[]] + rest
      else [[s[0]] + rest[0]] + rest[1..]
  }

  /** `pieces.join(sep)` */
  function Join(pieces: seq<string>, sep: char): string
    decreases |pieces|
  {
    if pieces == [] then []
    else if |pieces| == 1 then pieces[0]
    else pieces[0] + [sep] + Join(pieces[1..], sep)
  }

  /** Gluing `x` to the front of the first piece glues it to the front of the joined string. */
  lemma JoinGlueHead(x: string, pieces: seq<string>, sep: char)
    requires |pieces| >= 1
    ensures Join([x + pieces[0]] + pieces[1..], sep) == x + Join(pieces, sep)
  {
    var glued := [x + pieces[0]] + pieces[1..];
    assert glued[1..] == pieces[1..];
    if |pieces| > 1 {
      assert Join(glued, sep) == x + pieces[0] + [sep] + Join(pieces[1..], sep);
    }
  }

  /** Joining the pieces of a split gives back the original string. */
  lemma {:induction false} JoinSplit(s: string, sep: char)
    ensures Join(Split(s, sep), sep) == s
    decreases |s|
  {
    if s != [] {
      var rest := Split(s[1..], sep);
      JoinSplit(s[1..], sep);
      if s[0] == sep {
        var pieces := [[]] + rest;
        assert pieces[1..] == rest;
        assert Join(pieces, sep) == [] + [sep] + Join(rest, sep);
      } else {
        JoinGlueHead([s[0]], rest, sep);
      }
      assert s == [s[0]] + s[1..];
    }
  }

  /** Splitting `p + t`, where `p` holds no separator, glues `p` onto the first piece of `t`. */
  lemma {:induction false} SplitPrefix(p: string, t: string, sep: char)
    requires sep !in p
    ensures Split(p + t, sep) == [p + Split(t, sep)[0]] + Split(t, sep)[1..]
    decreases |p|
  {
    if p == [] {
      assert p + t == t;
      var st := Split(t, sep);
      assert p + st[0] == st[0];
      assert st == [st[0]] + st[1..];
    } else {
      assert (p + t)[1..] == p[1..] + t;
      SplitPrefix(p[1..], t, sep);
      assert [p[0]] + (p[1..] + Split(t, sep)[0]) == p + Split(t, sep)[0];
    }
  }

  /** A separator-free run followed by a separator is split off as one piece. */
  lemma SplitAtSeparator(p: string, u: string, sep: char)
    requires sep !in p
    ensures Split(p + [sep] + u, sep) == [p] + Split(u, sep)
  {
    assert p + [sep] + u == p + ([sep] + u);
    assert ([sep] + u)[1..] == u;
    assert Split([sep] + u, sep) == [[]] + Split(u, sep);
    SplitPrefix(p, [sep] + u, sep);
    assert p + [] == p;
  }

  /** Splitting a join of separator-free pieces gives back the pieces. */
  lemma {:induction false} SplitJoin(pieces: seq<string>, sep: char)
    requires |pieces| >= 1
    requires forall i :: 0 <= i < |pieces| ==> sep !in pieces[i]
    ensures Split(Join(pieces, sep), sep) == pieces
    decreases |pieces|
  {
    if |pieces| == 1 {
      SplitPrefix(pieces[0], [], sep);
      assert pieces[0] + [] == pieces[0];
    } else {
      SplitJoin(pieces[1..], sep);
      SplitAtSeparator(pieces[0], Join(pieces[1..], sep), sep);
      assert [pieces[0]] + pieces[1..] == pieces;
    }
  }

  /**
   * The first piece of `s.split(sep)` is the longest separator-free prefix
   * of `s`: it starts `s` and is followed by a separator or by the end.
   */
  lemma {:induction false} SplitFirstPiece(s: string, sep: char)
    ensures StartsWith(s, Split(s, sep)[0])
    ensures |Split(s, sep)[0]| == |s| || s[|Split(s, sep)[0]|] == sep
    decreases |s|
  {
    if s != [] && s[0] != sep {
      SplitFirstPiece(s[1..], sep);
      var first := Split(s[1..], sep)[0];
      assert Split(s, sep)[0] == [s[0]] + first;
      assert s[..1 + |first|] == [s[0]] + s[1..][..|first|];
    }
  }

  /** ASCII `toLowerCase` of one character. */
  function LowerChar(c: char): char {
    if 'A' <= c <= 'Z' then (c as int - 'A' as int + 'a' as int) as char else c
  }

  /** `s.toLowerCase()`, restricted to ASCII letters. */
  function Lower(s: string): (r: string)
    ensures |r| == |s|
    ensures forall i :: 0 <= i < |s| ==> r[i] == LowerChar(s[i])
  {
    seq(|s|, i requires 0 <= i < |s| => LowerChar(s[i]))
  }

  /** Lower-casing twice is lower-casing once. */
  lemma LowerIdempotent(s: string)
    ensures Lower(Lower(s)) == Lower(s)
  {
  }

  /** `s.includes(t)`: some position of `s` starts with `t`. */
  predicate Includes(s: string, t: string)
    decreases |s|
  {
    StartsWith(s, t) || (s != [] && Includes(s[1..], t))
  }

  /** `t` occurs in `s` at position `i`. */
  predicate OccursAt(s: string, t: string, i: int) {
    0 <= i && i + |t| <= |s| && s[i..i + |t|] == t
  }

  /** `Includes` means an occurrence at some position. */
  lemma {:induction false} IncludesIffOccurs(s: string, t: string)
    ensures Includes(s, t) <==> exists i :: OccursAt(s, t, i)
    decreases |s|
  {
    if s != [] {
      IncludesIffOccurs(s[1..], t);
      if Includes(s[1..], t) {
        var j :| OccursAt(s[1..], t, j);
        assert s[1..][j..j + |t|] == s[j + 1..j + 1 + |t|];
        assert OccursAt(s, t, j + 1);
      }
      if i :| OccursAt(s, t, i) && i > 0 {
        assert s[1..][i - 1..i - 1 + |t|] == s[i..i + |t|];
        assert OccursAt(s[1..], t, i - 1);
      }
    }
    if exists i :: OccursAt(s, t, i) {
      var i :| OccursAt(s, t, i);
      if i == 0 {
        assert StartsWith(s, t);
      }
    }
    if StartsWith(s, t) {
      assert OccursAt(s, t, 0);
    }
  }

  /** Every string includes the empty string. */
  lemma IncludesEmpty(s: string)
    ensures Includes(s, [])
  {
    assert StartsWith(s, []);
  }
}
