/** The JavaScript string operations the blog relies on: `trim`,
    `split` on one character, `startsWith` and `includes`. */
module Text {

  /** ECMAScript WhiteSpace and LineTerminator code points: the characters
      `String.prototype.trim` removes. */
  predicate IsSpace(c: char) {
    var n := c as int;
    (0x09 <= n <= 0x0D) || n == 0x20 || n == 0xA0 || n == 0x1680
    || (0x2000 <= n <= 0x200A) || n == 0x2028 || n == 0x2029
    || n == 0x202F || n == 0x205F || n == 0x3000 || n == 0xFEFF
  }

  /** Leading white space removed: what is dropped is all white space and
      what is kept does not start with white space. */
  function TrimStart(s: string): (r: string)
    ensures |r| <= |s| && r == s[|s| - |r|..]
    ensures forall i :: 0 <= i < |s| - |r| ==> IsSpace(s[i])
    ensures r != [] ==> !IsSpace(r[0])
  {
    if s != [] && IsSpace(s[0]) then TrimStart(s[1..]) else s
  }

  /** Trailing white space removed. */
  function TrimEnd(s: string): (r: string)
    ensures |r| <= |s| && r == s[..|r|]
    ensures forall i :: |r| <= i < |s| ==> IsSpace(s[i])
    ensures r != [] ==> !IsSpace(r[|r| - 1])
  {
    if s != [] && IsSpace(s[|s| - 1]) then TrimEnd(s[..|s| - 1]) else s
  }

  /** Every character of `t` is white space. */
  predicate AllSpace(t: string) {
    forall i :: 0 <= i < |t| ==> IsSpace(t[i])
  }

  /** `String.prototype.trim`. */
  function Trim(s: string): (r: string)
    ensures |r| <= |s|
    ensures r != [] ==> !IsSpace(r[0]) && !IsSpace(r[|r| - 1])
  {
    TrimEnd(TrimStart(s))
  }

  /** What `Trim` keeps is `s` with a white-space prefix and a white-space
      suffix cut off. */
  lemma {:induction false} TrimPieces(s: string)
    ensures exists a, b :: AllSpace(a) && AllSpace(b) && s == a + Trim(s) + b
  {
    var t := TrimStart(s);
    var r := Trim(s);
    assert r == TrimEnd(t);
    StartSpace(s, t);
    EndSpace(t, r);
    Pieces(s, t, r);
  }

  /** Cutting a white-space prefix of `s`, leaving `t`, then a white-space
      suffix of `t`, leaving `r`, shows `s` as white space, `r`, white space. */
  lemma {:induction false} Pieces(s: string, t: string, r: string)
    requires |t| <= |s| && t == s[|s| - |t|..] && AllSpace(s[..|s| - |t|])
    requires |r| <= |t| && r == t[..|r|] && AllSpace(t[|r|..])
    ensures exists a, b :: AllSpace(a) && AllSpace(b) && s == a + r + b
  {
    var a, b := s[..|s| - |t|], t[|r|..];
    assert s == a + t;
    assert t == r + b;
    assert a + (r + b) == a + r + b;
  }

  /** What `TrimStart` drops is white space. */
  lemma {:induction false} StartSpace(s: string, t: string)
    requires t == TrimStart(s)
    ensures AllSpace(s[..|s| - |t|])
  {
    var a := s[..|s| - |t|];
    forall i | 0 <= i < |a| ensures IsSpace(a[i]) {
      assert a[i] == s[i];
    }
  }

  /** What `TrimEnd` drops is white space. */
  lemma {:induction false} EndSpace(t: string, r: string)
    requires r == TrimEnd(t)
    ensures AllSpace(t[|r|..])
  {
    var b := t[|r|..];
    forall i | 0 <= i < |b| ensures IsSpace(b[i]) {
      assert b[i] == t[|r| + i];
    }
  }



  /** Trimming twice is trimming once. */
  lemma TrimIdempotent(s: string)
    ensures Trim(Trim(s)) == Trim(s)
  {
    var t := Trim(s);
    assert TrimStart(t) == t;
    assert TrimEnd(t) == t;
  }

  /** A string with nothing but white space trims to the empty string, and
      one with a non-space character does not. */
  lemma TrimEmptyIffAllSpace(s: string)
    ensures Trim(s) == [] <==> forall i :: 0 <= i < |s| ==> IsSpace(s[i])
  {
    var a := TrimStart(s);
    if a != [] {
      assert !IsSpace(a[0]);
      var r := TrimEnd(a);
      assert s[|s| - |a|] == a[0];
    }
  }

  predicate StartsWith(s: string, prefix: string) {
    |prefix| <= |s| && s[..|prefix|] == prefix
  }

  /** `s.includes(sub)`. */
  predicate Contains(s: string, sub: string) {
    StartsWith(s, sub) || (s != [] && Contains(s[1..], sub))
  }

  /** `s.split(c)`: the pieces between occurrences of `c`; there is always
      at least one piece, and there is exactly one when `c` does not occur. */
  function Split(s: string, c: char): (r: seq<string>)
    ensures |r| >= 1
    ensures forall i :: 0 <= i < |r| ==> c !in r[i]
    ensures |r| == 1 <==> c !in s
    decreases |s|
  {
    if s == [] then [[]]
    else
      var rest := Split(s[1..], c);
      if s[0] == c then [[]] + rest
      else [[s[0]] + rest[0]] + rest[1..]
  }

  /** `pieces.join(c)`. */
  function Join(pieces: seq<string>, c: char): string
    requires |pieces| >= 1
    decreases |pieces|
  {
    if |pieces| == 1 then pieces[0] else pieces[0] + [c] + Join(pieces[1..], c)
  }

  lemma {:induction false} JoinConsHead(x: char, pieces: seq<string>, c: char)
    requires |pieces| >= 1
    ensures Join([[x] + pieces[0]] + pieces[1..], c) == [x] + Join(pieces, c)
  {
    var p := [[x] + pieces[0]] + pieces[1..];
    if |pieces| > 1 {
      assert p[1..] == pieces[1..];
    }
  }

  /** Splitting loses nothing: joining the pieces back gives the string. */
  lemma {:induction false} JoinSplit(s: string, c: char)
    ensures Join(Split(s, c), c) == s
    decreases |s|
  {
    if s != [] {
      var rest := Split(s[1..], c);
      JoinSplit(s[1..], c);
      if s[0] == c {
        assert ([[]] + rest)[1..] == rest;
        assert s == [c] + s[1..];
      } else {
        JoinConsHead(s[0], rest, c);
        assert s == [s[0]] + s[1..];
      }
    }
  }

  /** A string without the separator is one piece. */
  lemma SplitNoSeparator(s: string, c: char)
    requires c !in s
    ensures Split(s, c) == [s]
  {
    JoinSplit(s, c);
  }

  /** The text before the first separator is the first piece; the rest is
      split on its own. */
  lemma {:induction false} SplitAround(a: string, b: string, c: char)
    requires c !in a
    ensures Split(a + [c] + b, c) == [a] + Split(b, c)
    decreases |a|
  {
    var s := a + [c] + b;
    if a == [] {
      assert s[1..] == b;
    } else {
      assert s[1..] == a[1..] + [c] + b;
      SplitAround(a[1..], b, c);
      assert [a[0]] + a[1..] == a;
    }
  }

  /** The text after the last separator is the last piece. */
  lemma {:induction false} SplitLast(a: string, b: string, c: char)
    requires c !in b
    ensures var r := Split(a + [c] + b, c); |r| >= 2 && r[|r| - 1] == b
    decreases |a|
  {
    var s := a + [c] + b;
    if a == [] {
      assert s[1..] == b;
      SplitNoSeparator(b, c);
    } else {
      assert s[1..] == a[1..] + [c] + b;
      SplitLast(a[1..], b, c);
    }
  }
}
