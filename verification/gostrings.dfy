/**
 * The Go standard-library string helpers the analyzer relies on, restricted to
 * what it uses: strings.Split with a one-character separator, strings.TrimSpace
 * over ASCII white space, and path/filepath.Base for '/'-separated paths.
 */
module GoStrings {

  /** Number of occurrences of `c` in `s`. */
  function Count(s: string, c: char): nat
  {
    if s == [] then 0 else (if s[0] == c then 1 else 0) + Count(s[1..], c)
  }

  /** The pieces written one after another, a single `sep` between neighbours. */
  function Join(pieces: seq<string>, sep: char): string
  {
    if |pieces| == 0 then ""
    else if |pieces| == 1 then pieces[0]
    else pieces[0] + [sep] + Join(pieces[1..], sep)
  }

  /**
   * strings.Split(s, string(sep)): the maximal `sep`-free pieces between the
   * separators, empty pieces included, so there is always one piece more than
   * there are separators and joining them back gives `s`.
   */
  function Split(s: string, sep: char): (pieces: seq<string>)
    ensures |pieces| == Count(s, sep) + 1
    ensures forall i :: 0 <= i < |pieces| ==> sep !in pieces[i]
    ensures Join(pieces, sep) == s
  {
    if s == [] then [""]
    else
      var rest := Split(s[1..], sep);
      if s[0] == sep then [""] + rest
      else
        var pieces := [[s[0]] + rest[0]] + rest[1..];
        assert pieces[1..] == rest[1..];
        pieces
  }

  lemma {:induction false} CountPositive(s: string, c: char)
    ensures Count(s, c) > 0 <==> c in s
  {
    if s != [] {
      CountPositive(s[1..], c);
      assert s == [s[0]] + s[1..];
    }
  }

  /** Split yields more than one piece exactly when the separator occurs. */
  lemma SplitManyPieces(s: string, sep: char)
    ensures |Split(s, sep)| > 1 <==> sep in s
  {
    CountPositive(s, sep);
  }

  /** A separator-free string is a single piece. */
  lemma {:induction false} SplitPiece(p: string, sep: char)
    requires sep !in p
    ensures Split(p, sep) == [p]
  {
    if p != [] {
      assert sep !in p[1..];
      SplitPiece(p[1..], sep);
      assert [p[0]] + p[1..] == p;
    }
  }

  /** Splitting `p + sep + t` for a separator-free `p` puts `p` first. */
  lemma {:induction false} SplitAfterPiece(p: string, sep: char, t: string)
    requires sep !in p
    ensures Split(p + [sep] + t, sep) == [p] + Split(t, sep)
  {
    var s := p + [sep] + t;
    if p == [] {
      assert s[0] == sep && s[1..] == t;
    } else {
      assert s[0] == p[0] && s[1..] == p[1..] + [sep] + t;
      assert sep !in p[1..];
      SplitAfterPiece(p[1..], sep, t);
      assert [p[0]] + p[1..] == p;
    }
  }

  /** Split undoes Join when no piece holds the separator. */
  lemma {:induction false} SplitJoin(pieces: seq<string>, sep: char)
    requires |pieces| >= 1
    requires forall i :: 0 <= i < |pieces| ==> sep !in pieces[i]
    ensures Split(Join(pieces, sep), sep) == pieces
  {
    if |pieces| == 1 {
      SplitPiece(pieces[0], sep);
    } else {
      SplitJoin(pieces[1..], sep);
      SplitAfterPiece(pieces[0], sep, Join(pieces[1..], sep));
      assert [pieces[0]] + pieces[1..] == pieces;
    }
  }

  /** The white space strings.TrimSpace removes, restricted to ASCII. */
  predicate IsSpace(c: char)
  {
    c == ' ' || c == '\t' || c == '\n' || c == '\U{000B}' || c == '\U{000C}' || c == '\r'
  }

  /** `s` without its leading white space. */
  function TrimLeft(s: string): (r: string)
    ensures |r| <= |s| && r == s[|s| - |r|..]
    ensures r == [] || !IsSpace(r[0])
  {
    if s != [] && IsSpace(s[0]) then TrimLeft(s[1..]) else s
  }

  /** `s` without its trailing white space. */
  function TrimRight(s: string): (r: string)
    ensures |r| <= |s| && r == s[..|r|]
    ensures r == [] || !IsSpace(r[|r| - 1])
  {
    if s != [] && IsSpace(s[|s| - 1]) then TrimRight(s[..|s| - 1]) else s
  }

  /** `r` is `s` with white space around it: a factor of `s` preceded and followed only by white space. */
  ghost predicate Surrounds(s: string, r: string)
  {
    exists i :: 0 <= i <= |s| - |r| && r <= s[i..]
      && (forall k :: 0 <= k < i ==> IsSpace(s[k]))
      && (forall k :: i + |r| <= k < |s| ==> IsSpace(s[k]))
  }

  /**
   * strings.TrimSpace: `s` without the white space at either end; what is
   * left neither starts nor ends with white space.
   */
  function TrimSpace(s: string): (r: string)
    ensures |r| <= |s|
    ensures r == [] || (!IsSpace(r[0]) && !IsSpace(r[|r| - 1]))
  {
    TrimRight(TrimLeft(s))
  }

  /** TrimLeft drops white space only. */
  lemma {:induction false} TrimLeftDropsSpace(s: string)
    ensures forall i :: 0 <= i < |s| - |TrimLeft(s)| ==> IsSpace(s[i])
  {
    if s != [] && IsSpace(s[0]) {
      TrimLeftDropsSpace(s[1..]);
    }
  }

  /** TrimRight drops white space only. */
  lemma {:induction false} TrimRightDropsSpace(s: string)
    ensures forall i :: |TrimRight(s)| <= i < |s| ==> IsSpace(s[i])
  {
    if s != [] && IsSpace(s[|s| - 1]) {
      TrimRightDropsSpace(s[..|s| - 1]);
    }
  }

  /** What TrimSpace keeps is a factor of `s` with only white space around it. */
  lemma TrimSpaceSurrounds(s: string)
    ensures Surrounds(s, TrimSpace(s))
  {
    var left := TrimLeft(s);
    var r := TrimRight(left);
    var i := |s| - |left|;
    assert left == s[i..];
    TrimLeftDropsSpace(s);
    TrimRightDropsSpace(left);
    assert r <= s[i..];
    forall k | i + |r| <= k < |s|
      ensures IsSpace(s[k])
    {
      assert s[k] == left[k - i];
    }
    assert 0 <= i <= |s| - |r| && r <= s[i..]
      && (forall k :: 0 <= k < i ==> IsSpace(s[k]))
      && (forall k :: i + |r| <= k < |s| ==> IsSpace(s[k]));
  }

  /** TrimSpace leaves a string without surrounding white space as it is. */
  lemma TrimSpaceFixes(s: string)
    requires s == [] || (!IsSpace(s[0]) && !IsSpace(s[|s| - 1]))
    ensures TrimSpace(s) == s
  {
  }

  /** Trimming twice is trimming once. */
  lemma TrimSpaceIdempotent(s: string)
    ensures TrimSpace(TrimSpace(s)) == TrimSpace(s)
  {
    TrimSpaceFixes(TrimSpace(s));
  }

  /** `p` with every trailing '/' removed. */
  function StripTrailingSlashes(p: string): (r: string)
    ensures |r| <= |p| && r == p[..|r|]
    ensures forall i :: |r| <= i < |p| ==> p[i] == '/'
    ensures r == [] || r[|r| - 1] != '/'
  {
    if p != [] && p[|p| - 1] == '/' then StripTrailingSlashes(p[..|p| - 1]) else p
  }

  /** The part of `p` after its last '/', all of `p` when it has none. */
  function LastElement(p: string): (r: string)
    ensures '/' !in r
    ensures |r| <= |p| && r == p[|p| - |r|..]
    ensures |r| < |p| ==> p[|p| - |r| - 1] == '/'
  {
    if p == [] || p[|p| - 1] == '/' then []
    else LastElement(p[..|p| - 1]) + [p[|p| - 1]]
  }

  /**
   * path/filepath.Base for '/'-separated paths: the last element of the path
   * once trailing slashes are stripped; "." for the empty path and "/" for a
   * path made only of slashes. The result is never empty and holds no '/'
   * except when it is "/".
   */
  function Base(path: string): (b: string)
    ensures path == [] ==> b == "."
    ensures b != []
    ensures b == "/" || '/' !in b
  {
    if path == [] then "."
    else
      var t := StripTrailingSlashes(path);
      if t == [] then "/" else LastElement(t)
  }

  /** A path made only of slashes has base "/". */
  lemma BaseOfSlashes(path: string)
    requires path != []
    requires forall i :: 0 <= i < |path| ==> path[i] == '/'
    ensures Base(path) == "/"
  {
  }

  /**
   * Every other path is `dir + name + slashes` with `name` a non-empty
   * slash-free element, `dir` empty or ending in '/', and `slashes` only '/';
   * its base is that `name`.
   */
  lemma BaseOfElement(dir: string, name: string, slashes: string)
    requires name != [] && '/' !in name
    requires dir == [] || dir[|dir| - 1] == '/'
    requires forall i :: 0 <= i < |slashes| ==> slashes[i] == '/'
    ensures Base(dir + name + slashes) == name
  {
    var p := dir + name + slashes;
    var q := dir + name;
    var t := StripTrailingSlashes(p);
    assert p[|q| - 1] == name[|name| - 1];
    assert t == q;
    var e := LastElement(q);
    assert e == q[|q| - |name|..] == name;
  }

  /** Taking the base of a base changes nothing. */
  lemma BaseIdempotent(path: string)
    ensures Base(Base(path)) == Base(path)
  {
    var b := Base(path);
    if b == "/" {
      BaseOfSlashes(b);
    } else {
      BaseOfElement([], b, []);
      assert [] + b + [] == b;
    }
  }
}
