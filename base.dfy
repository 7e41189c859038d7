/**
 * Small shared vocabulary: optional values, results for the source's thrown
 * errors, and the handful of JavaScript string operations the tool relies on
 * (`includes`, ASCII case mapping, `split`/`join`, decimal rendering of numbers).
 */
module Base {

  datatype Option<+T> = None | Some(value: T)

  /** A computation that either yields a value or throws `error`. */
  datatype Result<+T, +E> = Ok(value: T) | Err(error: E)

  function Min(a: int, b: int): int
  {
    if a <= b then a else b
  }

  /** JavaScript truthiness of an optional string (`null`, `undefined` and `""` are falsy). */
  predicate Truthy(s: Option<string>)
  {
    s.Some? && s.value != ""
  }

  /** `t` occurs in `s` as a contiguous block (`String.prototype.includes`). */
  predicate Contains<T(==)>(s: seq<T>, t: seq<T>)
  {
    t <= s || (s != [] && Contains(s[1..], t))
  }

  // ---------------------------------------------------------------------------
  // ASCII case mapping (`toLocaleLowerCase` restricted to ASCII letters)

  function LowerChar(c: char): char
  {
    if 'A' <= c <= 'Z' then (c as int + 32) as char else c
  }

  function UpperChar(c: char): char
  {
    if 'a' <= c <= 'z' then (c as int - 32) as char else c
  }

  function Lower(s: string): string
  {
    seq(|s|, i requires 0 <= i < |s| => LowerChar(s[i]))
  }

  function Upper(s: string): string
  {
    seq(|s|, i requires 0 <= i < |s| => UpperChar(s[i]))
  }

  /** Lower-casing forgets exactly the case: an upper-cased string lowers to the same text. */
  lemma LowerOfUpper(s: string)
    ensures Lower(Upper(s)) == Lower(s)
  {
    forall i | 0 <= i < |s|
      ensures Lower(Upper(s))[i] == Lower(s)[i]
    {
      var c := s[i];
      assert Upper(s)[i] == UpperChar(c);
    }
  }

  // ---------------------------------------------------------------------------
  // Decimal rendering of numbers (what a template literal does with an integer)

  predicate IsDigit(c: char)
  {
    '0' <= c <= '9'
  }

  predicate AllDigits(s: string)
  {
    forall i :: 0 <= i < |s| ==> IsDigit(s[i])
  }

  function DigitChar(d: nat): (c: char)
    requires d < 10
    ensures IsDigit(c)
  {
    ('0' as int + d) as char
  }

  function DigitValue(c: char): nat
    requires IsDigit(c)
  {
    c as int - '0' as int
  }

  /** Decimal digits of `n`, most significant first, without leading zeros. */
  function NatToString(n: nat): (r: string)
    ensures r != [] && AllDigits(r)
    ensures |r| > 1 ==> r[0] != '0'
    decreases n
  {
    if n < 10 then [DigitChar(n)] else NatToString(n / 10) + [DigitChar(n % 10)]
  }

  /** Reads back a string of decimal digits. */
  function ParseNat(s: string): nat
    requires AllDigits(s)
  {
    if s == [] then 0 else ParseNat(s[..|s| - 1]) * 10 + DigitValue(s[|s| - 1])
  }

  lemma {:induction false} ParseNatToString(n: nat)
    ensures ParseNat(NatToString(n)) == n
  {
    if n >= 10 {
      var s := NatToString(n);
      assert s[..|s| - 1] == NatToString(n / 10);
      ParseNatToString(n / 10);
    }
  }

  /** `String(i)` for an integer `i`. */
  function IntToString(i: int): string
  {
    if i < 0 then "-" + NatToString(-i) else NatToString(i)
  }

  /** The text of an integer starts with a sign or a digit. */
  lemma IntToStringStart(i: int)
    ensures IntToString(i) != [] && (IntToString(i)[0] == '-' || IsDigit(IntToString(i)[0]))
  {
  }

  /** The text of an integer starts with `-` exactly when the integer is negative. */
  lemma IntToStringSign(i: int)
    ensures IntToString(i) != [] && (IntToString(i)[0] == '-' <==> i < 0)
  {
    if i >= 0 {
      assert IsDigit(NatToString(i)[0]);
    }
  }

  /** Distinct integers render to distinct texts. */
  lemma {:induction false} IntToStringInjective(a: int, b: int)
    requires IntToString(a) == IntToString(b)
    ensures a == b
  {
    IntToStringSign(a);
    IntToStringSign(b);
    if a < 0 {
      assert NatToString(-a) == IntToString(a)[1..] == NatToString(-b);
      ParseNatToString(-a);
      ParseNatToString(-b);
    } else {
      ParseNatToString(a);
      ParseNatToString(b);
    }
  }

  // ---------------------------------------------------------------------------
  // `split` and `join` on a one-element separator

  /** Concatenates `parts`, putting `sep` between neighbours (`Array.prototype.join`). */
  function Join<T>(parts: seq<seq<T>>, sep: T): seq<T>
    requires |parts| >= 1
  {
    if |parts| == 1 then parts[0] else parts[0] + [sep] + Join(parts[1..], sep)
  }

  /**
   * The pieces of `s` between occurrences of `sep` (`String.prototype.split`
   * with a one-character string): the empty text gives one empty piece and a
   * trailing separator gives a trailing empty piece.
   */
  function Split<T(==)>(s: seq<T>, sep: T): (parts: seq<seq<T>>)
    ensures |parts| >= 1
    ensures Join(parts, sep) == s
    ensures forall k :: 0 <= k < |parts| ==> sep !in parts[k]
  {
    if s == [] then [[]]
    else
      var rest := Split(s[1..], sep);
      if s[0] == sep then
        [[]] + rest
      else
        var parts := [[s[0]] + rest[0]] + rest[1..];
        assert |rest| > 1 ==> Join(rest, sep) == rest[0] + [sep] + Join(rest[1..], sep);
        assert |rest| > 1 ==> parts[1..] == rest[1..];
        parts
  }

  lemma {:induction false} SplitNoSeparator<T>(a: seq<T>, sep: T)
    requires sep !in a
    ensures Split(a, sep) == [a]
  {
    if a != [] {
      SplitNoSeparator(a[1..], sep);
      assert [a[0]] + a[1..] == a;
    }
  }

  lemma {:induction false} SplitAfterPiece<T>(a: seq<T>, sep: T, b: seq<T>)
    requires sep !in a
    ensures Split(a + [sep] + b, sep) == [a] + Split(b, sep)
  {
    if a == [] {
      assert a + [sep] + b == [sep] + b;
      assert ([sep] + b)[1..] == b;
    } else {
      var s := a + [sep] + b;
      assert s[1..] == a[1..] + [sep] + b;
      SplitAfterPiece(a[1..], sep, b);
      assert [a[0]] + a[1..] == a;
    }
  }

  /** Splitting a joined list of separator-free pieces gives the pieces back. */
  lemma {:induction false} SplitJoin<T>(parts: seq<seq<T>>, sep: T)
    requires |parts| >= 1
    requires forall k :: 0 <= k < |parts| ==> sep !in parts[k]
    ensures Split(Join(parts, sep), sep) == parts
  {
    if |parts| == 1 {
      SplitNoSeparator(parts[0], sep);
    } else {
      SplitJoin(parts[1..], sep);
      SplitAfterPiece(parts[0], sep, Join(parts[1..], sep));
      assert [parts[0]] + parts[1..] == parts;
    }
  }

  // ---------------------------------------------------------------------------
  // Scanning text

  /**
   * A left-to-right scan: the value `f` gives at the first position from `i`
   * up to `n` where it gives one (how a regular expression search tries each
   * start in turn).
   */
  function Leftmost<T>(f: nat -> Option<T>, i: nat, n: nat): Option<T>
    requires i <= n
    decreases n - i
  {
    if f(i).Some? then f(i) else if i == n then None else Leftmost(f, i + 1, n)
  }

  /** The scan finds nothing exactly when `f` gives nothing anywhere in `[i, n]`. */
  lemma {:induction false} LeftmostNone<T>(f: nat -> Option<T>, i: nat, n: nat)
    requires i <= n
    ensures Leftmost(f, i, n).None? <==> forall x :: i <= x <= n ==> f(x).None?
    decreases n - i
  {
    if f(i).None? && i < n {
      LeftmostNone(f, i + 1, n);
    }
  }

  /** The scan stops at the first position `x` where `f` gives a value. */
  lemma {:induction false} LeftmostFirst<T>(f: nat -> Option<T>, i: nat, x: nat, n: nat)
    requires i <= x <= n && f(x).Some?
    requires forall y :: i <= y < x ==> f(y).None?
    ensures Leftmost(f, i, n) == f(x)
    decreases x - i
  {
    if i < x {
      LeftmostFirst(f, i + 1, x, n);
    }
  }

  /** Length of the longest run of decimal digits starting at `i`. */
  function DigitRun(s: string, i: nat): (n: nat)
    requires i <= |s|
    ensures i + n <= |s|
    ensures forall k :: i <= k < i + n ==> IsDigit(s[k])
    ensures i + n < |s| ==> !IsDigit(s[i + n])
    decreases |s| - i
  {
    if i < |s| && IsDigit(s[i]) then 1 + DigitRun(s, i + 1) else 0
  }

  /** The literal `lit` occurs in `s` at position `i`. */
  predicate LiteralAt(s: string, i: nat, lit: string)
  {
    i + |lit| <= |s| && s[i..i + |lit|] == lit
  }

  /** A text that starts at some position of `s` is contained in `s`. */
  lemma {:induction false} ContainsAt(s: string, t: string, i: nat)
    requires i <= |s| && t <= s[i..]
    ensures Contains(s, t)
    decreases i
  {
    if i > 0 {
      assert s[1..][i - 1..] == s[i..];
      ContainsAt(s[1..], t, i - 1);
    }
  }

  /** A literal found at some position is contained. */
  lemma ContainsLiteral(s: string, i: nat, t: string)
    requires LiteralAt(s, i, t)
    ensures Contains(s, t)
  {
    assert s[i..][..|t|] == s[i..i + |t|];
    ContainsAt(s, t, i);
  }

  /** A slice of a slice is a slice. */
  lemma SliceOfSlice(s: string, p: nat, e: nat, a: nat, b: nat)
    requires p <= e <= |s| && a <= b <= e - p
    ensures s[p..e][a..b] == s[p + a..p + b]
  {
    assert forall k :: 0 <= k < b - a ==> s[p..e][a..b][k] == s[p + a + k];
  }

  /** A literal found at `i` holds each of its suffixes further on. */
  lemma LiteralSuffix(s: string, i: nat, lit: string, k: nat)
    requires LiteralAt(s, i, lit) && k <= |lit|
    ensures LiteralAt(s, i + k, lit[k..])
  {
    forall j | 0 <= j < |lit| - k
      ensures s[i + k..i + |lit|][j] == lit[k..][j]
    {
      assert s[i..i + |lit|][k + j] == lit[k + j];
    }
  }

  /** The text before the second piece of a concatenation holds the first piece. */
  lemma PiecesAt(x: string, a: string, b: string, c: string)
    requires x == a + b + c
    ensures LiteralAt(x, |a|, b)
  {
    assert forall j :: 0 <= j < |b| ==> x[|a|..|a| + |b|][j] == b[j];
  }

  /** Adjacent slices join up. */
  lemma SliceJoin(s: string, a: nat, b: nat, c: nat)
    requires a <= b <= c <= |s|
    ensures s[a..c] == s[a..b] + s[b..c]
  {
  }

  /** The pieces of a concatenation are its prefix and suffix. */
  lemma Pieces(x: string, a: string, b: string)
    requires x == a + b
    ensures x[..|a|] == a && x[|a|..] == b
  {
  }

  /** Dropping twice drops the sum. */
  lemma DropDrop(s: string, p: nat, k: nat)
    requires p + k <= |s|
    ensures s[p..][k..] == s[p + k..]
  {
  }

  /** A literal that starts the suffix of `s` at `k` occurs at `k`. */
  lemma LiteralOfSuffix(s: string, k: nat, lit: string, t: string)
    requires k <= |s| && s[k..] == t && lit <= t
    ensures LiteralAt(s, k, lit)
  {
    assert s[k..k + |lit|] == s[k..][..|lit|];
  }

  /** The digit run at `j` is exactly `d` when `d` is followed by a non-digit. */
  lemma {:induction false} DigitRunOf(s: string, j: nat, d: string, t: string)
    requires j <= |s| && s[j..] == d + t
    requires AllDigits(d)
    requires t != [] && !IsDigit(t[0])
    ensures DigitRun(s, j) == |d|
    decreases |d|
  {
    if d != [] {
      assert s[j] == d[0];
      assert s[j + 1..] == d[1..] + t;
      assert AllDigits(d[1..]) by {
        assert forall k :: 0 <= k < |d[1..]| ==> d[1..][k] == d[k + 1];
      }
      DigitRunOf(s, j + 1, d[1..], t);
    } else {
      assert s[j] == t[0];
    }
  }
}
