/**
 * The pieces of java.lang that the trip server leans on: 32-bit `int`
 * arithmetic, Integer.parseInt / Integer.toString, String.split with a
 * one-character delimiter, String.trim, and the string comparisons that the
 * store's search queries perform.
 */
module JavaLang {
  import opened Wrappers

  const IntMin: int := -0x8000_0000
  const IntMax: int := 0x7fff_ffff

  /** A Java `int` (or a non-null `Integer`). */
  type int32 = x: int | IntMin <= x <= IntMax

  /** Java's two's-complement `int` arithmetic: the result of `x` computed modulo 2^32. */
  function Wrap32(x: int): (r: int32)
    ensures IntMin <= x <= IntMax ==> r == x
    ensures (x - r) % 0x1_0000_0000 == 0
  {
    var k := (x - IntMin) % 0x1_0000_0000;
    assert x - (k + IntMin) == ((x - IntMin) / 0x1_0000_0000) * 0x1_0000_0000;
    k + IntMin
  }

  /** Two values that agree modulo 2^32 wrap to the same int. */
  lemma Wrap32Congruent(x: int, y: int32)
    requires (x - y) % 0x1_0000_0000 == 0
    ensures Wrap32(x) == y
  {
    var m := 0x1_0000_0000;
    var q := (x - y) / m;
    assert x - y == q * m;
    var r := Wrap32(x) as int - IntMin;
    var q' := (x - IntMin) / m;
    assert x - IntMin == q' * m + r;
    assert y - IntMin == (q' - q) * m + r;
  }

  /** Adding back what was subtracted undoes the wrap-around: int arithmetic is arithmetic modulo 2^32. */
  lemma Wrap32SubAdd(s: int32, t: int32)
    ensures Wrap32(Wrap32(s as int - t as int) as int + t as int) == s
  {
    var w := Wrap32(s as int - t as int);
    var k := (s as int - t as int - w) / 0x1_0000_0000;
    assert s as int - t as int - w == k * 0x1_0000_0000;
    assert w as int + t as int - s as int == (-k) * 0x1_0000_0000;
    Wrap32Congruent(w as int + t as int, s);
  }

  // ---------------------------------------------------------------------------
  // Integer.parseInt and Integer.toString (radix 10)
  // ---------------------------------------------------------------------------

  predicate IsDigit(c: char) {
    '0' <= c <= '9'
  }

  predicate AllDigits(s: string) {
    forall i :: 0 <= i < |s| ==> IsDigit(s[i])
  }

  function DigitValue(c: char): (v: nat)
    requires IsDigit(c)
    ensures v < 10
  {
    (c as int) - ('0' as int)
  }

  function DigitChar(v: nat): (c: char)
    requires v < 10
    ensures IsDigit(c) && DigitValue(c) == v
  {
    (('0' as int) + v) as char
  }

  /** The number written by a string of decimal digits (leading zeros allowed). */
  function DigitsValue(s: string): nat
    requires AllDigits(s)
    decreases |s|
  {
    if s == [] then 0 else DigitsValue(s[..|s| - 1]) * 10 + DigitValue(s[|s| - 1])
  }

  /**
   * Integer.parseInt(s): an optional sign followed by at least one digit,
   * whose value fits in an `int`; None stands for NumberFormatException.
   */
  function ParseInt(s: string): (r: Option<int32>)
    ensures r.Some? ==> s != []
    ensures r.Some? ==> forall i :: 0 <= i < |s| ==> IsDigit(s[i]) || (i == 0 && (s[i] == '-' || s[i] == '+'))
  {
    if s == [] then None
    else if s[0] == '-' || s[0] == '+' then
      if |s| == 1 || !AllDigits(s[1..]) then None
      else
        var n: int := DigitsValue(s[1..]);
        var v := if s[0] == '-' then -n else n;
        if IntMin <= v <= IntMax then Some(v) else None
    else if AllDigits(s) && DigitsValue(s) <= IntMax then Some(DigitsValue(s))
    else None
  }

  /** The decimal digits of a natural number, without leading zeros. */
  function NatToString(n: nat): (s: string)
    ensures s != [] && AllDigits(s) && DigitsValue(s) == n
    ensures n > 0 ==> s[0] != '0'
    decreases n
  {
    if n < 10 then [DigitChar(n)]
    else
      var prefix := NatToString(n / 10);
      var s := prefix + [DigitChar(n % 10)];
      assert s[..|s| - 1] == prefix;
      s
  }

  /** Integer.toString(i), which is also what `"" + i` produces. */
  function IntToString(i: int32): (s: string)
    ensures ParseInt(s) == Some(i)
    ensures s != [] && forall k :: 0 <= k < |s| ==> IsDigit(s[k]) || s[k] == '-'
  {
    if i < 0 then
      var digits := NatToString(-(i as int));
      assert ("-" + digits)[1..] == digits;
      "-" + digits
    else
      NatToString(i)
  }

  // ---------------------------------------------------------------------------
  // String.split with a delimiter that is not a regular-expression metacharacter
  // ---------------------------------------------------------------------------

  /** The text between consecutive occurrences of `d`, before any piece is dropped. */
  function Pieces(s: string, d: char): (r: seq<string>)
    ensures |r| >= 1
    ensures forall i :: 0 <= i < |r| ==> d !in r[i]
    decreases |s|
  {
    if s == [] then [[]]
    else
      var rest := Pieces(s[1..], d);
      if s[0] == d then [[]] + rest else [[s[0]] + rest[0]] + rest[1..]
  }

  /** Removes the empty strings at the end of a sequence of pieces. */
  function DropTrailingEmpty(xs: seq<string>): (r: seq<string>)
    ensures |r| <= |xs| && r == xs[..|r|]
    ensures r != [] ==> r[|r| - 1] != []
    ensures forall i :: |r| <= i < |xs| ==> xs[i] == []
    decreases |xs|
  {
    if xs != [] && xs[|xs| - 1] == [] then DropTrailingEmpty(xs[..|xs| - 1]) else xs
  }

  /**
   * s.split(d) with limit 0: when `d` does not occur the result is `[s]`
   * (so "" gives [""]); otherwise the pieces with trailing empty strings
   * removed (so "#" gives []).
   */
  function Split(s: string, d: char): (r: seq<string>)
    ensures d !in s ==> r == [s]
    ensures forall i :: 0 <= i < |r| ==> d !in r[i]
  {
    if d !in s then [s] else DropTrailingEmpty(Pieces(s, d))
  }

  /** String.join(d, xs): the elements with one `d` between neighbours. */
  function Join(xs: seq<string>, d: char): string
    decreases |xs|
  {
    if xs == [] then []
    else if |xs| == 1 then xs[0]
    else xs[0] + [d] + Join(xs[1..], d)
  }

  /** Every element followed by `d` (what `sb.append(x).append(d)` builds in a loop). */
  function Terminated(xs: seq<string>, d: char): string
    decreases |xs|
  {
    if xs == [] then [] else xs[0] + [d] + Terminated(xs[1..], d)
  }

  /** Appending one more element and delimiter extends the terminated text at its end. */
  lemma {:induction false} TerminatedSnoc(xs: seq<string>, x: string, d: char)
    ensures Terminated(xs + [x], d) == Terminated(xs, d) + x + [d]
    decreases |xs|
  {
    if xs == [] {
      assert [x][1..] == [];
    } else {
      assert (xs + [x])[1..] == xs[1..] + [x];
      TerminatedSnoc(xs[1..], x, d);
    }
  }

  lemma {:induction false} PiecesOfPlain(x: string, d: char)
    requires d !in x
    ensures Pieces(x, d) == [x]
    decreases |x|
  {
    if x != [] {
      PiecesOfPlain(x[1..], d);
      assert [x[0]] + x[1..] == x;
    }
  }

  lemma {:induction false} PiecesOfDelimited(x: string, t: string, d: char)
    requires d !in x
    ensures Pieces(x + [d] + t, d) == [x] + Pieces(t, d)
    decreases |x|
  {
    var s := x + [d] + t;
    if x == [] {
      assert s[1..] == t;
    } else {
      assert s[1..] == x[1..] + [d] + t;
      PiecesOfDelimited(x[1..], t, d);
      assert [x[0]] + x[1..] == x;
    }
  }

  lemma {:induction false} PiecesOfJoin(xs: seq<string>, d: char)
    requires |xs| >= 1
    requires forall i :: 0 <= i < |xs| ==> d !in xs[i]
    ensures Pieces(Join(xs, d), d) == xs
    decreases |xs|
  {
    if |xs| == 1 {
      PiecesOfPlain(xs[0], d);
    } else {
      PiecesOfJoin(xs[1..], d);
      PiecesOfDelimited(xs[0], Join(xs[1..], d), d);
      assert [xs[0]] + xs[1..] == xs;
    }
  }

  lemma {:induction false} PiecesOfTerminated(xs: seq<string>, d: char)
    requires forall i :: 0 <= i < |xs| ==> d !in xs[i]
    ensures Pieces(Terminated(xs, d), d) == xs + [[]]
    decreases |xs|
  {
    if xs != [] {
      PiecesOfTerminated(xs[1..], d);
      PiecesOfDelimited(xs[0], Terminated(xs[1..], d), d);
      assert [xs[0]] + (xs[1..] + [[]]) == xs + [[]];
    }
  }

  /** The first field of a line is the text before its first `d`, whatever follows. */
  lemma SplitHead(x: string, t: string, d: char)
    requires x != [] && d !in x
    ensures var r := Split(x + [d] + t, d); |r| >= 1 && r[0] == x
  {
    var s := x + [d] + t;
    PiecesOfDelimited(x, t, d);
    assert s[|x|] == d;
    assert Pieces(s, d)[0] == x;
  }

  /** Splitting a joined record gives its fields back when none holds `d` and the last is not empty. */
  lemma SplitOfJoin(xs: seq<string>, d: char)
    requires |xs| >= 1 && xs[|xs| - 1] != []
    requires forall i :: 0 <= i < |xs| ==> d !in xs[i]
    ensures Split(Join(xs, d), d) == xs
  {
    PiecesOfJoin(xs, d);
    if d !in Join(xs, d) {
      PiecesOfPlain(Join(xs, d), d);
    }
  }

  /** Splitting a `d`-terminated list gives its elements back when the last one is not empty. */
  lemma SplitOfTerminated(xs: seq<string>, d: char)
    requires |xs| >= 1 && xs[|xs| - 1] != []
    requires forall i :: 0 <= i < |xs| ==> d !in xs[i]
    ensures Split(Terminated(xs, d), d) == xs
  {
    PiecesOfTerminated(xs, d);
    var s := Terminated(xs, d);
    assert s == xs[0] + [d] + Terminated(xs[1..], d);
    assert s[|xs[0]|] == d;
    var ys := xs + [[]];
    assert DropTrailingEmpty(ys) == DropTrailingEmpty(ys[..|ys| - 1]);
    assert ys[..|ys| - 1] == xs;
  }

  // ---------------------------------------------------------------------------
  // String.trim and blank text
  // ---------------------------------------------------------------------------

  /** True when every character is at most U+0020, which is what String.trim strips. */
  predicate IsBlank(s: string) {
    forall i :: 0 <= i < |s| ==> s[i] <= ' '
  }

  function TrimStart(s: string): (r: string)
    ensures r == [] <==> IsBlank(s)
    ensures r != [] ==> r[0] > ' '
    ensures |r| <= |s| && r == s[|s| - |r|..]
    decreases |s|
  {
    if s != [] && s[0] <= ' ' then TrimStart(s[1..]) else s
  }

  function TrimEnd(s: string): (r: string)
    ensures r == [] <==> IsBlank(s)
    ensures r != [] ==> r[|r| - 1] > ' '
    ensures |r| <= |s| && r == s[..|r|]
    decreases |s|
  {
    if s != [] && s[|s| - 1] <= ' ' then TrimEnd(s[..|s| - 1]) else s
  }

  /** String.trim(). */
  function Trim(s: string): (r: string)
    ensures r == [] <==> IsBlank(s)
    ensures r != [] ==> r[0] > ' ' && r[|r| - 1] > ' '
  {
    var t := TrimStart(s);
    assert IsBlank(t) ==> IsBlank(s) by {
      if IsBlank(t) {
        assert t == [];
      }
    }
    TrimEnd(t)
  }

  // ---------------------------------------------------------------------------
  // Text comparisons used by the trip search queries
  // ---------------------------------------------------------------------------

  /** `sub` occurs somewhere in `s` (SQL `s LIKE '%sub%'`, wildcards in `sub` not interpreted). */
  predicate ContainsText(s: string, sub: string) {
    exists i :: 0 <= i <= |s| - |sub| && OccursAt(s, sub, i)
  }

  /** `sub` occurs in `s` starting at index `i`. */
  predicate OccursAt(s: string, sub: string, i: int)
    requires 0 <= i <= |s| - |sub|
  {
    s[i..i + |sub|] == sub
  }

  /** Lexicographic `a <= b` by character code. */
  predicate LexLe(a: string, b: string)
    decreases |a|
  {
    a == [] || (b != [] && (a[0] < b[0] || (a[0] == b[0] && LexLe(a[1..], b[1..]))))
  }

  /** SQL SUBSTRING(s, 1, n): the first `n` characters, or all of `s` when it is shorter. */
  function Prefix(s: string, n: nat): (r: string)
    ensures |r| <= n && r <= s
  {
    if |s| <= n then s else s[..n]
  }
}
