/** Text as the server compares, trims, splits and prints it. */
module Strings {
  import opened Wrappers

  // ---- Order ------------------------------------------------------------------

  /** Order by code point, a proper prefix first. */
  predicate TextLess(a: string, b: string) {
    if |b| == 0 then false
    else if |a| == 0 then true
    else if a[0] != b[0] then a[0] < b[0]
    else TextLess(a[1..], b[1..])
  }

  lemma {:induction false} LessAfterPrefix(p: string, a: string, b: string)
    ensures TextLess(p + a, p + b) <==> TextLess(a, b)
  {
    if |p| == 0 {
      assert p + a == a && p + b == b;
    } else {
      LessAfterPrefix(p[1..], a, b);
      assert (p + a)[1..] == p[1..] + a && (p + b)[1..] == p[1..] + b;
    }
  }

  lemma {:induction false} LessSameLength(a: string, b: string, x: string, y: string)
    requires |a| == |b|
    ensures TextLess(a + x, b + y) <==> TextLess(a, b) || (a == b && TextLess(x, y))
  {
    if |a| == 0 {
      assert a + x == x && b + y == y;
    } else {
      LessSameLength(a[1..], b[1..], x, y);
      assert (a + x)[1..] == a[1..] + x && (b + y)[1..] == b[1..] + y;
      assert a == [a[0]] + a[1..] && b == [b[0]] + b[1..];
    }
  }

  lemma {:induction false} LessIrreflexive(a: string)
    ensures !TextLess(a, a)
  {
    if |a| > 0 {
      LessIrreflexive(a[1..]);
    }
  }

  // ---- Trimming and splitting ----------------------------------------------------

  function DropLeading(s: string, c: char): string {
    if |s| > 0 && s[0] == c then DropLeading(s[1..], c) else s
  }

  function DropTrailing(s: string, c: char): string {
    if |s| > 0 && s[|s| - 1] == c then DropTrailing(s[..|s| - 1], c) else s
  }

  /** Unicode white space. */
  predicate IsSpace(c: char) {
    '\t' <= c <= '\r' || c == ' ' || c == '\U{85}' || c == '\U{A0}' || c == '\U{1680}'
    || '\U{2000}' <= c <= '\U{200A}' || c == '\U{2028}' || c == '\U{2029}' || c == '\U{202F}'
    || c == '\U{205F}' || c == '\U{3000}'
  }

  function TrimStart(s: string): string {
    if |s| > 0 && IsSpace(s[0]) then TrimStart(s[1..]) else s
  }

  function TrimEnd(s: string): string {
    if |s| > 0 && IsSpace(s[|s| - 1]) then TrimEnd(s[..|s| - 1]) else s
  }

  function Trim(s: string): string {
    TrimEnd(TrimStart(s))
  }

  /** The pieces between separators; always at least one. */
  function Split(s: string, sep: char): (pieces: seq<string>)
    ensures |pieces| >= 1
  {
    if |s| == 0 then [""]
    else
      var front := Split(s[..|s| - 1], sep);
      var c := s[|s| - 1];
      if c == sep then front + [""]
      else front[..|front| - 1] + [front[|front| - 1] + [c]]
  }

  function Joined(pieces: seq<string>, sep: char): string {
    if |pieces| == 0 then ""
    else if |pieces| == 1 then pieces[0]
    else Joined(pieces[..|pieces| - 1], sep) + [sep] + pieces[|pieces| - 1]
  }

  /** Splitting cuts at every separator and loses nothing else. */
  lemma {:induction false} SplitJoins(s: string, sep: char)
    ensures Joined(Split(s, sep), sep) == s
    ensures forall i :: 0 <= i < |Split(s, sep)| ==> sep !in Split(s, sep)[i]
  {
    if |s| > 0 {
      SplitJoins(s[..|s| - 1], sep);
      var front, c := Split(s[..|s| - 1], sep), s[|s| - 1];
      assert s == s[..|s| - 1] + [c];
      var whole := Split(s, sep);
      if c == sep {
        assert whole[..|whole| - 1] == front;
      } else {
        assert whole[..|whole| - 1] == front[..|front| - 1];
      }
    }
  }

  lemma {:induction false} SplitPlain(s: string, sep: char)
    requires sep !in s
    ensures Split(s, sep) == [s]
  {
    if |s| > 0 {
      SplitPlain(s[..|s| - 1], sep);
      assert s == s[..|s| - 1] + [s[|s| - 1]];
    }
  }

  /** There is something to split exactly when the separator occurs. */
  lemma SplitsInTwo(s: string, sep: char)
    ensures |Split(s, sep)| >= 2 <==> sep in s
  {
    SplitJoins(s, sep);
    if sep !in s {
      SplitPlain(s, sep);
    }
  }

  /** The last piece of a text is what follows its last separator. */
  lemma {:induction false} SplitSnoc(s: string, sep: char, tail: string)
    requires sep !in tail
    ensures Split(s + [sep] + tail, sep) == Split(s, sep) + [tail]
  {
    var all := s + [sep] + tail;
    if |tail| == 0 {
      assert all[..|all| - 1] == s;
    } else {
      var n := |tail| - 1;
      SplitSnoc(s, sep, tail[..n]);
      assert all[..|all| - 1] == s + [sep] + tail[..n];
      assert tail == tail[..n] + [tail[n]];
    }
  }

  lemma {:induction false} JoinSplits(pieces: seq<string>, sep: char)
    requires |pieces| > 0 && forall i :: 0 <= i < |pieces| ==> sep !in pieces[i]
    ensures Split(Joined(pieces, sep), sep) == pieces
  {
    var n := |pieces| - 1;
    if n == 0 {
      SplitPlain(pieces[0], sep);
    } else {
      JoinSplits(pieces[..n], sep);
      SplitSnoc(Joined(pieces[..n], sep), sep, pieces[n]);
      assert pieces[..n] + [pieces[n]] == pieces;
    }
  }

  /** The text up to the first `c` and the text after it. */
  function CutAt(s: string, c: char): (string, string) {
    if |s| == 0 then ("", "")
    else if s[0] == c then ("", s[1..])
    else ([s[0]] + CutAt(s[1..], c).0, CutAt(s[1..], c).1)
  }

  lemma {:induction false} CutsThere(a: string, c: char, b: string)
    requires c !in a
    ensures CutAt(a + [c] + b, c) == (a, b)
  {
    var s := a + [c] + b;
    if |a| == 0 {
      assert s[1..] == b;
    } else {
      CutsThere(a[1..], c, b);
      assert s[1..] == a[1..] + [c] + b && [a[0]] + a[1..] == a;
    }
  }

  lemma {:induction false} CutsNowhere(a: string, c: char)
    requires c !in a
    ensures CutAt(a, c) == (a, "")
  {
    if |a| > 0 {
      CutsNowhere(a[1..], c);
      assert [a[0]] + a[1..] == a;
    }
  }

  // ---- Decimal numbers -------------------------------------------------------------

  const U64_LIMIT := 0x1_0000_0000_0000_0000

  function Digit(d: nat): (c: char)
    requires d < 10
    ensures '0' <= c <= '9'
  {
    ('0' as int + d) as char
  }

  predicate IsDigit(c: char) {
    '0' <= c <= '9'
  }

  predicate AllDigits(s: string) {
    forall i :: 0 <= i < |s| ==> IsDigit(s[i])
  }

  function Pow10(w: nat): (p: nat)
    ensures p > 0
  {
    if w == 0 then 1 else 10 * Pow10(w - 1)
  }

  /** `{n:0w}` of a number that fits in `w` digits. */
  function Pad(n: nat, w: nat): (s: string)
    ensures |s| == w
  {
    if w == 0 then "" else Pad(n / 10, w - 1) + [Digit(n % 10)]
  }

  /** `{n}`. */
  function Show(n: nat): (s: string)
    ensures |s| > 0
  {
    (if n < 10 then "" else Show(n / 10)) + [Digit(n % 10)]
  }

  function Value(s: string): nat
    requires AllDigits(s)
  {
    if |s| == 0 then 0 else 10 * Value(s[..|s| - 1]) + (s[|s| - 1] as int - '0' as int)
  }

  /** `parse::<u64>()`: an optional plus sign, at least one digit, no overflow. */
  function ParseU64(s: string): Option<nat> {
    var digits := if |s| > 0 && s[0] == '+' then s[1..] else s;
    if |digits| == 0 || !AllDigits(digits) || Value(digits) >= U64_LIMIT then None
    else Some(Value(digits))
  }

  lemma {:induction false} PadValue(n: nat, w: nat)
    requires n < Pow10(w)
    ensures AllDigits(Pad(n, w)) && Value(Pad(n, w)) == n
  {
    if w > 0 {
      PadValue(n / 10, w - 1);
    }
  }

  lemma {:induction false} ShowValue(n: nat)
    ensures AllDigits(Show(n)) && Value(Show(n)) == n
  {
    var front := if n < 10 then "" else Show(n / 10);
    if n >= 10 {
      ShowValue(n / 10);
    }
    DigitSnoc(front, n % 10);
    assert n == 10 * (n / 10) + n % 10;
  }

  lemma DigitSnoc(s: string, d: nat)
    requires AllDigits(s) && d < 10
    ensures AllDigits(s + [Digit(d)]) && Value(s + [Digit(d)]) == 10 * Value(s) + d
  {
    assert (s + [Digit(d)])[..|s|] == s;
  }

  lemma ShowParses(n: nat)
    requires n < U64_LIMIT
    ensures ParseU64(Show(n)) == Some(n)
  {
    ShowValue(n);
    assert IsDigit(Show(n)[0]);
  }

  lemma U64FitsTwentyDigits()
    ensures U64_LIMIT < Pow10(20)
  {
    assert Pow10(5) == 100000;
    assert Pow10(10) == 100000 * Pow10(5);
    assert Pow10(15) == 100000 * Pow10(10);
    assert Pow10(20) == 100000 * Pow10(15);
  }

  lemma PadParses(n: nat)
    requires n < U64_LIMIT
    ensures ParseU64(Pad(n, 20)) == Some(n)
  {
    U64FitsTwentyDigits();
    PadValue(n, 20);
    assert IsDigit(Pad(n, 20)[0]);
  }

  /** Zero-padded numbers sort as text the way they sort as numbers. */
  lemma {:induction false} PadOrder(n: nat, m: nat, w: nat)
    requires n < Pow10(w) && m < Pow10(w)
    ensures TextLess(Pad(n, w), Pad(m, w)) <==> n < m
    ensures Pad(n, w) == Pad(m, w) <==> n == m
  {
    if w > 0 {
      PadOrder(n / 10, m / 10, w - 1);
      var x, y := [Digit(n % 10)], [Digit(m % 10)];
      LessSameLength(Pad(n / 10, w - 1), Pad(m / 10, w - 1), x, y);
      assert TextLess(x, y) <==> n % 10 < m % 10;
      PadValue(n, w);
      PadValue(m, w);
    }
  }

  // ---- What the order and the numbers are ------------------------------------------------

  /** Text is ordered at the first place where it differs, a proper prefix first. */
  lemma {:induction false} OrderAtFirstDifference(a: string, b: string, n: nat)
    requires n <= |a| && n <= |b| && a[..n] == b[..n] && (n == |a| || n == |b| || a[n] != b[n])
    ensures TextLess(a, b) <==> n < |b| && (n == |a| || a[n] < b[n])
  {
    if n > 0 {
      assert a[0] == a[..n][0] && b[0] == b[..n][0];
      assert a[1..][..n - 1] == a[..n][1..] && b[1..][..n - 1] == b[..n][1..];
      OrderAtFirstDifference(a[1..], b[1..], n - 1);
    }
  }

  /** Of two different texts exactly one comes first. */
  lemma {:induction false} OrderIsTotal(a: string, b: string)
    ensures a != b ==> (TextLess(a, b) <==> !TextLess(b, a))
    ensures a == b ==> !TextLess(a, b)
  {
    if |a| > 0 && |b| > 0 {
      OrderIsTotal(a[1..], b[1..]);
      assert a == [a[0]] + a[1..] && b == [b[0]] + b[1..];
    }
  }

  /** Digits read in base ten; a plus sign in front changes nothing, an overflow or anything else is refused. */
  lemma NumberInPlain(s: string, n: nat)
    requires |s| > 0 && AllDigits(s) && Value(s) == n
    ensures ParseU64(s) == ParseU64("+" + s) == if n < 0x1_0000_0000_0000_0000 then Some(n) else None
  {
    assert IsDigit(s[0]) && ("+" + s)[1..] == s;
  }

  lemma NotANumber(s: string)
    requires |s| == 0 || (exists i :: 0 < i < |s| && !IsDigit(s[i])) || (!IsDigit(s[0]) && s[0] != '+') || s == "+"
    ensures ParseU64(s).None?
  {
  }
}
