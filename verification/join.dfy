/**
  Joining strings with a separator, as Rust's `[String]::join` does, and the
  splitting that undoes it when no piece can be mistaken for the start of a
  separator.
 */
module Joining {

  /** `xs.join(sep)`: the pieces in order, one separator between neighbours. */
  function Join(xs: seq<string>, sep: string): (r: string)
    ensures xs == [] ==> r == []
    ensures |xs| > 0 ==> xs[0] <= r
    decreases |xs|
  {
    if |xs| == 0 then []
    else if |xs| == 1 then xs[0]
    else xs[0] + sep + Join(xs[1..], sep)
  }

  /** Cuts `s` at every occurrence of `sep`, scanning left to right. */
  function SplitOn(s: string, sep: string): (r: seq<string>)
    requires |sep| > 0
    ensures |r| > 0
    decreases |s|
  {
    if s == [] then [""]
    else if sep <= s then [""] + SplitOn(s[|sep|..], sep)
    else
      var t := SplitOn(s[1..], sep);
      [[s[0]] + t[0]] + t[1..]
  }

  /** The number of times `c` occurs in `s`. */
  function Count(c: char, s: string): nat
  {
    if s == [] then 0 else (if s[0] == c then 1 else 0) + Count(c, s[1..])
  }

  lemma {:induction false} CountAppend(c: char, a: string, b: string)
    ensures Count(c, a + b) == Count(c, a) + Count(c, b)
    decreases |a|
  {
    if a == [] {
      assert a + b == b;
    } else {
      assert (a + b)[0] == a[0];
      assert (a + b)[1..] == a[1..] + b;
      CountAppend(c, a[1..], b);
    }
  }

  lemma CountAbsent(c: char, s: string)
    requires c !in s
    ensures Count(c, s) == 0
  {
  }

  /**
    When no piece contains `c`, the joined string holds exactly one copy of
    `sep`'s occurrences of `c` per separator: `|xs| - 1` separators in all.
   */
  lemma {:induction false} JoinCount(c: char, xs: seq<string>, sep: string)
    requires |xs| > 0
    requires forall i | 0 <= i < |xs| :: c !in xs[i]
    ensures Count(c, Join(xs, sep)) == (|xs| - 1) * Count(c, sep)
    decreases |xs|
  {
    CountAbsent(c, xs[0]);
    if |xs| > 1 {
      JoinCount(c, xs[1..], sep);
      CountAppend(c, xs[0], sep);
      CountAppend(c, xs[0] + sep, Join(xs[1..], sep));
    }
  }

  /** A piece free of the separator's first character is read as one token. */
  lemma {:induction false} SplitAfterPiece(x: string, t: string, sep: string)
    requires |sep| > 0 && sep[0] !in x
    ensures SplitOn(x + t, sep) == [x + SplitOn(t, sep)[0]] + SplitOn(t, sep)[1..]
    decreases |x|
  {
    if x != [] {
      assert (x + t)[0] == x[0];
      assert !(sep <= x + t);
      assert (x + t)[1..] == x[1..] + t;
      SplitAfterPiece(x[1..], t, sep);
      assert [x[0]] + (x[1..] + SplitOn(t, sep)[0]) == x + SplitOn(t, sep)[0];
    } else {
      var r := SplitOn(t, sep);
      assert x + t == t;
      assert x + r[0] == r[0];
      assert [r[0]] + r[1..] == r;
    }
  }

  /** A separator at the front closes an empty token. */
  lemma SplitAfterSep(sep: string, t: string)
    requires |sep| > 0
    ensures SplitOn(sep + t, sep) == [""] + SplitOn(t, sep)
  {
    assert sep <= sep + t;
    assert (sep + t)[|sep|..] == t;
  }

  /**
    Splitting undoes joining when no piece contains the separator's first
    character: the pieces come back, in their order.
   */
  lemma {:induction false} SplitJoin(xs: seq<string>, sep: string)
    requires |xs| > 0 && |sep| > 0
    requires forall i | 0 <= i < |xs| :: sep[0] !in xs[i]
    ensures SplitOn(Join(xs, sep), sep) == xs
    decreases |xs|
  {
    if |xs| == 1 {
      SplitAfterPiece(xs[0], "", sep);
      assert xs[0] + "" == xs[0];
      assert SplitOn("", sep) == [""];
    } else {
      var rest := Join(xs[1..], sep);
      assert Join(xs, sep) == xs[0] + (sep + rest);
      var tail := SplitOn(sep + rest, sep);
      SplitAfterPiece(xs[0], sep + rest, sep);
      assert SplitOn(Join(xs, sep), sep) == [xs[0] + tail[0]] + tail[1..];
      SplitAfterSep(sep, rest);
      SplitJoin(xs[1..], sep);
      assert tail == [""] + xs[1..];
      assert tail[0] == "" && tail[1..] == xs[1..];
      assert xs[0] + "" == xs[0];
      assert [xs[0]] + xs[1..] == xs;
    }
  }

  /** The first token of a string that does not start with `sep` begins with its first character. */
  lemma SplitFirstToken(s: string, sep: string)
    requires |sep| > 0 && s != [] && !(sep <= s)
    ensures SplitOn(s, sep)[0] == [s[0]] + SplitOn(s[1..], sep)[0]
  {
  }
}
