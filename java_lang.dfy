/**
 * The few java.lang behaviours the student-records code relies on, written out so that
 * their edge cases are explicit: String.trim, String.split on a one-character pattern,
 * String.hashCode with 32-bit wrap-around, Integer.toString, "%-Ns" padding, and the
 * comparison operators on double (NaN compares false with everything).
 */
module JavaLang {

  // ---------------------------------------------------------------- doubles

  /** A Java double: a finite value or one of the IEEE specials. Rounding is not modelled. */
  datatype JavaDouble = Finite(value: real) | NaN | PositiveInfinity | NegativeInfinity

  /** `d < c` in Java. */
  predicate Below(d: JavaDouble, c: real) {
    match d
    case Finite(v) => v < c
    case NaN => false
    case PositiveInfinity => false
    case NegativeInfinity => true
  }

  /** `d > c` in Java. */
  predicate Above(d: JavaDouble, c: real) {
    match d
    case Finite(v) => v > c
    case NaN => false
    case PositiveInfinity => true
    case NegativeInfinity => false
  }

  /** `d >= c` in Java. */
  predicate AtLeast(d: JavaDouble, c: real) {
    match d
    case Finite(v) => v >= c
    case NaN => false
    case PositiveInfinity => true
    case NegativeInfinity => false
  }

  /** `d <= c` in Java. */
  predicate AtMost(d: JavaDouble, c: real) {
    match d
    case Finite(v) => v <= c
    case NaN => false
    case PositiveInfinity => false
    case NegativeInfinity => true
  }

  // ---------------------------------------------------------------- trim

  /** String.trim strips every character whose code is at most U+0020. */
  predicate IsBlank(c: char) {
    c <= ' '
  }

  /** Number of blank characters at the start of `s`. */
  function LeadingBlanks(s: string): (n: nat)
    ensures n <= |s|
    ensures forall k :: 0 <= k < n ==> IsBlank(s[k])
    ensures n < |s| ==> !IsBlank(s[n])
  {
    if s == [] || !IsBlank(s[0]) then 0 else 1 + LeadingBlanks(s[1..])
  }

  /** Number of blank characters at the end of `s`. */
  function TrailingBlanks(s: string): (n: nat)
    ensures n <= |s|
    ensures forall k :: |s| - n <= k < |s| ==> IsBlank(s[k])
    ensures n < |s| ==> !IsBlank(s[|s| - 1 - n])
  {
    if s == [] || !IsBlank(s[|s| - 1]) then 0 else 1 + TrailingBlanks(s[..|s| - 1])
  }

  /** String.trim: `s` without its leading and trailing blanks. */
  function Trim(s: string): (t: string)
    ensures |t| <= |s|
    ensures t == [] <==> forall k :: 0 <= k < |s| ==> IsBlank(s[k])
    ensures t != [] ==> !IsBlank(t[0]) && !IsBlank(t[|t| - 1])
    ensures t != [] ==> t == s[LeadingBlanks(s)..|s| - TrailingBlanks(s)]
  {
    var i := LeadingBlanks(s);
    if i == |s| then [] else s[i..|s| - TrailingBlanks(s)]
  }

  lemma {:induction false} TrimIdempotent(s: string)
    ensures Trim(Trim(s)) == Trim(s)
  {
    var t := Trim(s);
    if t != [] {
      assert LeadingBlanks(t) == 0;
      assert TrailingBlanks(t) == 0;
    }
  }

  // ---------------------------------------------------------------- collections

  /** No element occurs twice (the keys of a Map, the items of a combo box built without repeats). */
  predicate Distinct<T(==)>(s: seq<T>) {
    forall i, j :: 0 <= i < j < |s| ==> s[i] != s[j]
  }

  /** A prefix one longer is the prefix and the next element. */
  lemma {:induction false} PrefixStep<T>(xs: seq<T>, i: nat)
    requires i < |xs|
    ensures xs[..i + 1] == xs[..i] + [xs[i]]
  {
  }

  // ---------------------------------------------------------------- split

  /** Index of the first `c` in `s`, or -1 (String.indexOf). */
  function IndexOf(s: string, c: char): (i: int)
    ensures -1 <= i < |s|
    ensures i == -1 <==> c !in s
    ensures i >= 0 ==> s[i] == c && forall k :: 0 <= k < i ==> s[k] != c
  {
    if s == [] then -1
    else if s[0] == c then 0
    else
      var j := IndexOf(s[1..], c);
      if j < 0 then -1 else j + 1
  }

  lemma {:induction false} IndexOfAfter(a: string, c: char, t: string)
    requires c !in a
    ensures IndexOf(a + [c] + t, c) == |a|
  {
    var s := a + [c] + t;
    var i := IndexOf(s, c);
    assert s[|a|] == c;
    assert s[..|a|] == a;
  }

  lemma {:induction false} PiecesAfter(a: string, c: char, t: string)
    requires c !in a
    ensures Pieces(a + [c] + t, c) == [a] + Pieces(t, c)
  {
    var s := a + [c] + t;
    IndexOfAfter(a, c, t);
    assert s[..|a|] == a;
    assert s[|a| + 1..] == t;
  }

  /** The pieces of `s` between occurrences of `sep`, empty pieces included. */
  function Pieces(s: string, sep: char): (p: seq<string>)
    ensures |p| >= 1
    decreases |s|
  {
    var i := IndexOf(s, sep);
    if i < 0 then [s] else [s[..i]] + Pieces(s[i + 1..], sep)
  }

  /** No piece holds the separator. */
  lemma {:induction false} PiecesAreSeparatorFree(s: string, sep: char)
    ensures forall k :: 0 <= k < |Pieces(s, sep)| ==> sep !in Pieces(s, sep)[k]
    decreases |s|
  {
    var i := IndexOf(s, sep);
    if i >= 0 {
      PiecesAreSeparatorFree(s[i + 1..], sep);
    }
  }

  /** Joining the pieces with the separator gives back the string. */
  lemma {:induction false} JoinPieces(s: string, sep: char)
    ensures Join(Pieces(s, sep), sep) == s
    decreases |s|
  {
    var i := IndexOf(s, sep);
    if i >= 0 {
      var rest := Pieces(s[i + 1..], sep);
      JoinCons(s[..i], rest, sep);
      JoinPieces(s[i + 1..], sep);
      assert s == s[..i] + [sep] + s[i + 1..];
    }
  }

  lemma {:induction false} JoinCons(x: string, rest: seq<string>, sep: char)
    requires |rest| >= 1
    ensures Join([x] + rest, sep) == x + [sep] + Join(rest, sep)
  {
    assert ([x] + rest)[1..] == rest;
  }

  /** `k` empty strings. */
  function Empties(k: nat): (r: seq<string>)
    ensures |r| == k && forall j :: 0 <= j < k ==> r[j] == []
  {
    if k == 0 then [] else [[]] + Empties(k - 1)
  }

  /** The pieces joined back with `sep` between consecutive ones. */
  function Join(p: seq<string>, sep: char): string
    decreases |p|
  {
    if p == [] then []
    else if |p| == 1 then p[0]
    else p[0] + [sep] + Join(p[1..], sep)
  }

  /** The list without its trailing empty strings. */
  function DropTrailingEmpty(p: seq<string>): (q: seq<string>)
    ensures q <= p
    ensures q == [] || q[|q| - 1] != []
    ensures forall k :: |q| <= k < |p| ==> p[k] == []
  {
    if p == [] || p[|p| - 1] != [] then p else DropTrailingEmpty(p[..|p| - 1])
  }

  /**
   * String.split with a one-character regular expression: the pieces between separators,
   * with trailing empty pieces removed; an input without the separator comes back whole.
   */
  function Split(s: string, sep: char): (p: seq<string>)
  {
    if sep !in s then [s] else DropTrailingEmpty(Pieces(s, sep))
  }

  /** `n` copies of `c`. */
  function Repeat(c: char, n: nat): (r: string)
    ensures |r| == n && forall k :: 0 <= k < n ==> r[k] == c
  {
    if n == 0 then [] else [c] + Repeat(c, n - 1)
  }

  lemma {:induction false} PiecesOfSeparators(b: string, sep: char, k: nat)
    requires sep !in b
    ensures Pieces(b + Repeat(sep, k), sep) == [b] + Empties(k)
    decreases k
  {
    var s := b + Repeat(sep, k);
    if k == 0 {
      assert s == b;
    } else {
      assert s == b + [sep] + Repeat(sep, k - 1);
      PiecesAfter(b, sep, Repeat(sep, k - 1));
      assert Repeat(sep, k - 1) == [] + Repeat(sep, k - 1);
      PiecesOfSeparators([], sep, k - 1);
      assert [b] + ([[]] + Empties(k - 1)) == [b] + Empties(k);
    }
  }

  lemma {:induction false} DropEmptyTail(p: seq<string>, k: nat)
    requires p == [] || p[|p| - 1] != []
    ensures DropTrailingEmpty(p + Empties(k)) == p
  {
    if k > 0 {
      var q := p + Empties(k);
      assert q[..|q| - 1] == p + Empties(k - 1);
      DropEmptyTail(p, k - 1);
    } else {
      assert p + Empties(0) == p;
    }
  }

  /**
   * Split yields exactly the two pieces [a, b] for `a + sep + b` followed by any number of
   * separators, when neither piece holds the separator and `b` is not empty.
   */
  lemma {:induction false} SplitTwoPieces(a: string, b: string, sep: char, k: nat)
    requires sep !in a && sep !in b && b != []
    ensures Split(a + [sep] + b + Repeat(sep, k), sep) == [a, b]
  {
    var tail := b + Repeat(sep, k);
    var s := a + [sep] + tail;
    assert s == a + [sep] + b + Repeat(sep, k);
    assert s[|a|] == sep;
    PiecesAfter(a, sep, tail);
    PiecesOfSeparators(b, sep, k);
    assert [a] + ([b] + Empties(k)) == [a, b] + Empties(k);
    DropEmptyTail([a, b], k);
  }

  /** Conversely, two pieces from Split are always arranged that way. */
  lemma {:induction false} SplitTwoShape(s: string, sep: char)
    requires |Split(s, sep)| == 2
    ensures var p := Split(s, sep);
      p[1] != [] && |s| >= |p[0]| + 1 + |p[1]| &&
      s == p[0] + [sep] + p[1] + Repeat(sep, |s| - |p[0]| - 1 - |p[1]|)
  {
    var p := Split(s, sep);
    assert sep in s;
    var all := Pieces(s, sep);
    assert p <= all;
    var k := |all| - 2;
    assert all == p + all[2..];
    assert forall j :: 0 <= j < k ==> all[2..][j] == [];
    assert all[2..] == Empties(k);
    JoinWithEmptyTail(p[0], p[1], sep, k);
    JoinPieces(s, sep);
  }

  lemma {:induction false} JoinWithEmptyTail(a: string, b: string, sep: char, k: nat)
    ensures Join([a, b] + Empties(k), sep) == a + [sep] + b + Repeat(sep, k)
  {
    if k == 0 {
      assert [a, b] + Empties(0) == [a, b];
      assert Join([b], sep) == b;
    } else {
      JoinEmpties(b, sep, k);
      var p := [a, b] + Empties(k);
      assert p[1..] == [b] + Empties(k);
    }
  }

  lemma {:induction false} JoinEmpties(b: string, sep: char, k: nat)
    ensures Join([b] + Empties(k), sep) == b + Repeat(sep, k)
    decreases k
  {
    if k == 0 {
      assert [b] + Empties(0) == [b];
    } else {
      var p := [b] + Empties(k);
      assert p[1..] == [[]] + Empties(k - 1);
      JoinEmpties([], sep, k - 1);
      assert Repeat(sep, k) == [sep] + Repeat(sep, k - 1);
    }
  }

  // ---------------------------------------------------------------- numbers and padding

  predicate IsDigit(c: char) {
    '0' <= c <= '9'
  }

  /** Decimal digits of a natural number, most significant first. */
  function NatToString(n: nat): (s: string)
    ensures |s| >= 1 && forall k :: 0 <= k < |s| ==> IsDigit(s[k])
  {
    var d := ['0', '1', '2', '3', '4', '5', '6', '7', '8', '9'][n % 10];
    if n < 10 then [d] else NatToString(n / 10) + [d]
  }

  /** Integer.toString / "%d": an optional minus sign, then the digits. */
  function IntToString(i: int): (s: string)
    ensures forall k :: 0 <= k < |s| ==> IsDigit(s[k]) || s[k] == '-'
  {
    if i < 0 then "-" + NatToString(-i) else NatToString(i)
  }

  /** The value of a string of decimal digits, most significant first (Integer.parseInt without a sign). */
  function DigitsValue(s: string): nat
  {
    if s == [] then 0 else DigitsValue(s[..|s| - 1]) * 10 + ((s[|s| - 1] as int - '0' as int) % 10)
  }

  /** Integer.parseInt: an optional minus sign, then the digits. */
  function ParseInt(s: string): int {
    if |s| > 0 && s[0] == '-' then -(DigitsValue(s[1..]) as int) else DigitsValue(s)
  }

  /** The digits NatToString writes read back as the number. */
  lemma {:induction false} NatToStringValue(n: nat)
    ensures DigitsValue(NatToString(n)) == n
    decreases n
  {
    var s := NatToString(n);
    var d := ['0', '1', '2', '3', '4', '5', '6', '7', '8', '9'][n % 10];
    assert d as int - '0' as int == n % 10;
    if n < 10 {
      assert s == [d] && s[..0] == [];
    } else {
      NatToStringValue(n / 10);
      assert s[..|s| - 1] == NatToString(n / 10) && s[|s| - 1] == d;
    }
  }

  /** Integer.toString and Integer.parseInt are inverse: the printed integer reads back as itself. */
  lemma {:induction false} IntToStringValue(i: int)
    ensures ParseInt(IntToString(i)) == i
  {
    var s := IntToString(i);
    if i < 0 {
      assert s[0] == '-' && s[1..] == NatToString(-i);
      NatToStringValue(-i);
    } else {
      assert IsDigit(NatToString(i)[0]);
      NatToStringValue(i);
    }
  }

  /** "%-ws": `s` left-justified and space-filled to width `w`; never cut. */
  function PadRight(s: string, w: nat): (r: string)
    ensures |r| == if |s| >= w then |s| else w
    ensures r[..|s|] == s
    ensures forall k :: |s| <= k < |r| ==> r[k] == ' '
  {
    if |s| >= w then s else s + Repeat(' ', w - |s|)
  }

  // ---------------------------------------------------------------- hashing

  /** Reduction of an integer to Java's 32-bit two's-complement `int`. */
  function ToInt32(x: int): (r: int)
    ensures -0x8000_0000 <= r < 0x8000_0000
    ensures (r - x) % 0x1_0000_0000 == 0
  {
    var m := x % 0x1_0000_0000;
    if m >= 0x8000_0000 then m - 0x1_0000_0000 else m
  }

  /** String.hashCode: h = 31 * h + c over the characters, in `int` arithmetic. */
  function StringHash(s: string): (h: int)
    ensures -0x8000_0000 <= h < 0x8000_0000
  {
    if s == [] then 0 else ToInt32(31 * StringHash(s[..|s| - 1]) + s[|s| - 1] as int)
  }
}
