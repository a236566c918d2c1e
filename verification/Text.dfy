/** Source text as the checkers see it: sequences of Unicode code points.
    Python strings may hold surrogate code points (`"\uD800"` decodes to one), which
    Dafny's `char` excludes, so code points are plain integers here. */
module Text {
  type Text = seq<int>

  datatype Option<+T> = None | Some(value: T)

  const LF := 10
  const CR := 13
  const SPACE := 32
  const DQUOTE := 34
  const HASH := 35
  const DOLLAR := 36
  const QUOTE := 39
  const STAR := 42
  const DOT := 46
  const SLASH := 47
  const LESS := 60
  const GREATER := 62
  const BACKSLASH := 92
  const BACKTICK := 96
  const LBRACE := 123
  const RBRACE := 125

  /** The code points of a literal. */
  function Lit(s: string): (t: Text)
    ensures |t| == |s|
    ensures forall i :: 0 <= i < |s| ==> t[i] == s[i] as int
  {
    seq(|s|, i requires 0 <= i < |s| => s[i] as int)
  }

  /** What Python's `strip` takes off: the white space characters of Unicode and the four
      information separators. */
  predicate WhiteSpace(c: int) {
    9 <= c <= 13 || 28 <= c <= 32 || c == 0x85 || c == 0xA0 || c == 0x1680 || 0x2000 <= c <= 0x200A ||
    c == 0x2028 || c == 0x2029 || c == 0x202F || c == 0x205F || c == 0x3000
  }

  predicate IsDigit(c: int) { 48 <= c <= 57 }

  /** Decimal digits of a natural number, most significant first. */
  function Decimal(n: nat): (t: Text)
    ensures |t| > 0
    ensures forall i :: 0 <= i < |t| ==> IsDigit(t[i])
  {
    if n < 10 then [48 + n] else Decimal(n / 10) + [48 + n % 10]
  }

  /** The number a run of decimal digits spells. */
  function DecimalValue(t: Text): nat
    requires forall i :: 0 <= i < |t| ==> IsDigit(t[i])
  {
    if t == [] then 0
    else
      assert IsDigit(t[|t| - 1]);
      10 * DecimalValue(t[..|t| - 1]) + (t[|t| - 1] - 48)
  }

  lemma {:induction false} DecimalRoundTrip(n: nat)
    ensures DecimalValue(Decimal(n)) == n
  {
    if n >= 10 {
      DecimalRoundTrip(n / 10);
      assert Decimal(n)[..|Decimal(n)| - 1] == Decimal(n / 10);
    }
  }

  /** Number of line feeds in `t[..n]`. */
  function LineFeeds(t: Text, n: nat): nat
    requires n <= |t|
  {
    if n == 0 then 0 else LineFeeds(t, n - 1) + (if t[n - 1] == LF then 1 else 0)
  }

  lemma {:induction false} LineFeedsMonotone(t: Text, m: nat, n: nat)
    requires m <= n <= |t|
    ensures LineFeeds(t, m) <= LineFeeds(t, n)
    decreases n - m
  {
    if m < n { LineFeedsMonotone(t, m, n - 1); }
  }

  lemma {:induction false} NoLineFeeds(t: Text, m: nat, n: nat)
    requires m <= n <= |t|
    requires forall k :: m <= k < n ==> t[k] != LF
    ensures LineFeeds(t, m) == LineFeeds(t, n)
    decreases n - m
  {
    if m < n { NoLineFeeds(t, m, n - 1); }
  }
}
