/** The `java.lang.String` and `Long` operations the services rely on, modelled on
    Unicode scalar values; case mapping and digits follow ASCII only. */
module Text {
  import opened Base

  /** `String.trim()` removes every leading and trailing character at or below U+0020. */
  predicate IsTrimmed(c: char) { c <= ' ' }

  function TrimStart(s: string): (r: string)
    ensures |r| <= |s|
    ensures r == [] || !IsTrimmed(r[0])
  {
    if |s| > 0 && IsTrimmed(s[0]) then TrimStart(s[1..]) else s
  }

  function TrimEnd(s: string): (r: string)
    ensures |r| <= |s|
    ensures r == [] || !IsTrimmed(r[|r| - 1])
  {
    if |s| > 0 && IsTrimmed(s[|s| - 1]) then TrimEnd(s[..|s| - 1]) else s
  }

  /** `String.trim()`. */
  function Trim(s: string): string
  {
    TrimEnd(TrimStart(s))
  }

  /** Text whose first and last characters are not trimmed is left alone. */
  lemma TrimKeeps(s: string)
    requires s == [] || (!IsTrimmed(s[0]) && !IsTrimmed(s[|s| - 1]))
    ensures Trim(s) == s
  {
  }

  /** `s.replaceAll("\"", "")` for a one-character pattern: every `c` removed. */
  function RemoveAll(s: string, c: char): (r: string)
    ensures c !in r
    ensures c !in s ==> r == s
  {
    if s == [] then []
    else if s[0] == c then RemoveAll(s[1..], c)
    else [s[0]] + RemoveAll(s[1..], c)
  }

  /** The maximal runs of `s` between occurrences of `sep` (there is always at least one). */
  function Pieces(s: string, sep: char): (r: seq<string>)
    ensures |r| >= 1
    ensures forall i :: 0 <= i < |r| ==> sep !in r[i]
  {
    if s == [] then [[]]
    else if s[0] == sep then [[]] + Pieces(s[1..], sep)
    else
      var rest := Pieces(s[1..], sep);
      [[s[0]] + rest[0]] + rest[1..]
  }

  function DropTrailingEmpty(ps: seq<string>): (r: seq<string>)
    ensures |r| <= |ps| && r == ps[..|r|]
    ensures r == [] || r[|r| - 1] != []
  {
    if ps != [] && ps[|ps| - 1] == [] then DropTrailingEmpty(ps[..|ps| - 1]) else ps
  }

  /** `s.split(sep)` for a one-character pattern: the empty string splits into one
      empty piece; otherwise trailing empty pieces are dropped, possibly all of them. */
  function Split(s: string, sep: char): (r: seq<string>)
    ensures forall i :: 0 <= i < |r| ==> sep !in r[i]
  {
    if s == [] then [[]] else DropTrailingEmpty(Pieces(s, sep))
  }

  /** Splitting a piece free of `sep`, followed by `sep`, peels that piece off. */
  lemma {:induction false} PiecesCons(a: string, sep: char, b: string)
    requires sep !in a
    ensures Pieces(a + [sep] + b, sep) == [a] + Pieces(b, sep)
  {
    if a != [] {
      var s := a + [sep] + b;
      assert s[0] == a[0] && s[1..] == a[1..] + [sep] + b;
      PiecesCons(a[1..], sep, b);
      var rest := Pieces(s[1..], sep);
      assert rest[0] == a[1..] && rest[1..] == Pieces(b, sep);
      assert [s[0]] + rest[0] == a;
    }
  }

  /** A string free of `sep` is a single piece. */
  lemma {:induction false} PiecesSingle(a: string, sep: char)
    requires sep !in a
    ensures Pieces(a, sep) == [a]
  {
    if a != [] {
      PiecesSingle(a[1..], sep);
      assert [a[0]] + a[1..] == a;
    }
  }

  /** Splitting `a sep b` with `a` free of `sep` and `b` non-empty and free of `sep`. */
  lemma SplitPair(a: string, sep: char, b: string)
    requires sep !in a && sep !in b && b != []
    ensures Split(a + [sep] + b, sep) == [a, b]
  {
    PiecesCons(a, sep, b);
    PiecesSingle(b, sep);
  }

  function DigitChar(d: int): char
    requires 0 <= d < 10
  {
    ['0', '1', '2', '3', '4', '5', '6', '7', '8', '9'][d]
  }

  predicate IsDigit(c: char) { '0' <= c <= '9' }

  predicate AllDigits(s: string) { forall i :: 0 <= i < |s| ==> IsDigit(s[i]) }

  /** `Long.toString(n)` for n >= 0: decimal digits, most significant first. */
  function Decimal(n: nat): (r: string)
    ensures r != [] && AllDigits(r)
  {
    if n < 10 then [DigitChar(n)] else Decimal(n / 10) + [DigitChar(n % 10)]
  }

  /** The value of a string of decimal digits. */
  function DigitsValue(s: string): (v: nat)
    requires AllDigits(s)
  {
    if s == [] then 0 else DigitsValue(s[..|s| - 1]) * 10 + (s[|s| - 1] as int - '0' as int)
  }

  /** `Long.parseLong(s)` (also `Long.valueOf`): an optional sign, then at least one
      decimal digit, the value within the range of a `long`; None where Java throws
      `NumberFormatException`. */
  function ParseLong(s: string): (r: Option<int>)
    ensures r.Some? ==> LONG_MIN <= r.value <= LONG_MAX
    ensures r.Some? ==> |s| > 0
  {
    if s == [] then None
    else if s[0] == '-' || s[0] == '+' then
      if |s| == 1 || !AllDigits(s[1..]) then None
      else
        var d: int := DigitsValue(s[1..]);
        var v := if s[0] == '-' then -d else d;
        if LONG_MIN <= v <= LONG_MAX then Some(v) else None
    else if AllDigits(s) && DigitsValue(s) <= LONG_MAX then Some(DigitsValue(s))
    else None
  }

  /** Decimal printing is undone by digit evaluation. */
  lemma {:induction false} DecimalValue(n: nat)
    ensures DigitsValue(Decimal(n)) == n
  {
    if n >= 10 {
      var s := Decimal(n);
      assert s[..|s| - 1] == Decimal(n / 10);
      DecimalValue(n / 10);
    }
  }

  /** `Long.parseLong(Long.toString(n)) == n` for every non-negative `long`. */
  lemma ParseDecimal(n: nat)
    requires n <= LONG_MAX
    ensures ParseLong(Decimal(n)) == Some(n)
  {
    DecimalValue(n);
  }

  /** `Character.toLowerCase` on ASCII letters; every other character is kept. */
  function LowerChar(c: char): char
  {
    if 'A' <= c <= 'Z' then (c as int + 32) as char else c
  }

  /** `String.toLowerCase()` on ASCII text. */
  function Lower(s: string): (r: string)
    ensures |r| == |s|
    ensures forall i :: 0 <= i < |s| ==> r[i] == LowerChar(s[i])
  {
    seq(|s|, i requires 0 <= i < |s| => LowerChar(s[i]))
  }

  /** Lower-casing twice is lower-casing once. */
  lemma LowerTwice(s: string)
    ensures Lower(Lower(s)) == Lower(s)
  {
  }

  /** `s.startsWith(p)`. */
  predicate StartsWith(s: string, p: string)
  {
    |p| <= |s| && s[..|p|] == p
  }

  /** `s.contains(sub)`. */
  predicate Contains(s: string, sub: string)
    decreases |s|
  {
    StartsWith(s, sub) || (|s| > 0 && Contains(s[1..], sub))
  }

  /** `sub` occurs in `s` starting at position `i`. */
  predicate OccursAt(s: string, sub: string, i: int)
  {
    0 <= i <= |s| - |sub| && s[i..i + |sub|] == sub
  }

  /** `contains` holds exactly when `sub` occurs at some position of `s`. */
  lemma {:induction false} ContainsAt(s: string, sub: string)
    ensures Contains(s, sub) <==> exists i :: OccursAt(s, sub, i)
  {
    if StartsWith(s, sub) {
      assert OccursAt(s, sub, 0);
    } else if |s| > 0 {
      ContainsAt(s[1..], sub);
      if Contains(s[1..], sub) {
        var i :| OccursAt(s[1..], sub, i);
        assert s[i + 1..i + 1 + |sub|] == s[1..][i..i + |sub|];
        assert OccursAt(s, sub, i + 1);
      }
      if exists i :: OccursAt(s, sub, i) {
        var i :| OccursAt(s, sub, i);
        assert i != 0;
        assert s[1..][i - 1..i - 1 + |sub|] == s[i..i + |sub|];
        assert OccursAt(s[1..], sub, i - 1);
      }
    }
  }

  /** `a.equalsIgnoreCase(b)` on ASCII text. */
  predicate EqualsIgnoreCase(a: string, b: string)
  {
    Lower(a) == Lower(b)
  }
}
