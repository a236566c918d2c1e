/** When the raw-text prefilter misses a request (scripts/frontend_imports.py): for every target
    at some offset of which a stringified constant can stand, a file is built that requests the
    target and is refused. */
module PrefilterLimits {
  import opened Text
  import opened JsStrings
  import opened Prefilter
  import opened Tokens
  import opened ConstEval
  import opened Assembly
  import opened LexerLines
  import opened Identifiers
  import opened LexerMachine
  import opened LexerSpec
  import opened PlainLexer
  import ExprTree
  import ExprEval

  /** What the Unicode character classes are to the characters used here. */
  ghost predicate Pythonic(o: Setting) {
    && Sensible(o)
    && (forall c {:trigger o.space(c)} :: o.space(c) ==> !IdentifierStart(o, c) && !OpensLiteral(c) && c != BACKSLASH)
    && (forall c {:trigger o.py.isDigit(c)} :: o.py.isDigit(c) ==> (IsDigit(c) || c >= 128) && !o.alpha(c) && !o.space(c))
    && (forall c :: 97 <= c <= 122 ==> o.alpha(c) && o.alnum(c))
    && (forall c :: c in {PLUS, OPEN, CLOSE, DOT} ==> !o.alpha(c) && !o.alnum(c) && !o.space(c))
    && o.space(SPACE) && o.space(LF) && !o.space(DQUOTE)
  }

  lemma PythonicIsSensible(o: Setting)
    requires Pythonic(o)
    ensures Sensible(o)
  {
  }

  // ------------------------------------------------------------------ quoting a string

  /** Characters that are written as escapes. */
  predicate Special(c: int) {
    c == BACKSLASH || c == DQUOTE || c == QUOTE || c == BACKTICK || c == RBRACE || c == SLASH || c == LESS
  }

  function HexChar(d: nat): (c: int)
    requires d < 16
    ensures IsHex(c) && HexDigit(c) == d
  {
    if d < 10 then 48 + d else 87 + d
  }

  function EncodeOne(c: int): (r: Text)
    ensures |r| > 0
  {
    if Special(c) then [BACKSLASH, 117, 48, 48, HexChar(c / 16), HexChar(c % 16)] else [c]
  }

  function Encode(s: Text): Text {
    if s == [] then [] else EncodeOne(s[0]) + Encode(s[1..])
  }

  predicate Holds(text: Text, i: nat, s: Text) {
    i + |s| <= |text| && text[i..i + |s|] == s
  }

  lemma HoldsParts(text: Text, i: nat, a: Text, b: Text)
    requires Holds(text, i, a + b)
    ensures Holds(text, i, a) && Holds(text, i + |a|, b)
  {
    var s := a + b;
    assert text[i..i + |a|] == text[i..i + |s|][..|a|] == a;
    assert text[i + |a|..i + |a| + |b|] == text[i..i + |s|][|a|..] == b;
  }

  lemma HoldsAt(text: Text, i: nat, s: Text, k: nat)
    requires Holds(text, i, s) && k < |s|
    ensures text[i + k] == s[k]
  {
    assert text[i..i + |s|][k] == text[i + k];
  }

  const QUOTED := Quoted(DQUOTE)

  lemma HexFour(a: int, b: int)
    requires IsHex(a) && IsHex(b)
    ensures AllHex([48, 48, a, b]) && HexValue([48, 48, a, b]) == 16 * HexDigit(a) + HexDigit(b)
  {
    var s := [48, 48, a, b];
    assert s[..3] == [48, 48, a] && [48, 48, a][..2] == [48, 48] && [48, 48][..1] == [48] && [48][..0] == [];
    assert HexValue([48]) == 0 && HexValue([48, 48]) == 0;
    assert HexValue([48, 48, a]) == HexDigit(a);
  }

  lemma EncodedOne(text: Text, i: nat, c: int)
    requires Holds(text, i, EncodeOne(c))
    ensures !AtDelimiter(text, i, QUOTED)
    ensures i + |EncodeOne(c)| < |text| ==> DecodeCharacter(text, i) == Decoded(Some(c), i + |EncodeOne(c)|)
    ensures RawEnd(text, i, QUOTED) == RawEnd(text, i + |EncodeOne(c)|, QUOTED) || i + |EncodeOne(c)| == |text|
  {
    var e := EncodeOne(c);
    forall k | 0 <= k < |e| ensures text[i + k] == e[k] { HoldsAt(text, i, e, k); }
    assert text[i + 0] == e[0];
    if Special(c) {
      assert text[i + 1] == 117 && text[i + 2] == 48 && text[i + 3] == 48 && text[i + 4] == e[4] && text[i + 5] == e[5];
      assert text[i + 2..i + 6] == [48, 48, e[4], e[5]];
      HexFour(e[4], e[5]);
      RawEndSkipsPlain(text, i + 2, i + 6, QUOTED);
    }
  }

  lemma ReadToQuote(text: Text, i: nat)
    requires i < |text| && text[i] == DQUOTE
    ensures InPlace(text, i, QUOTED) == [] && RawEnd(text, i, QUOTED) == i
  {
    assert AtDelimiter(text, i, QUOTED);
  }

  lemma HoldsInside(text: Text, i: nat, s: Text)
    requires Holds(text, i, s)
    ensures i + |s| <= |text|
  {
  }

  /** Reading a quoted body back. */
  lemma {:induction false} EncodedReads(text: Text, i: nat, s: Text)
    requires Holds(text, i, Encode(s)) && i + |Encode(s)| < |text| && text[i + |Encode(s)|] == DQUOTE
    ensures InPlace(text, i, QUOTED) == s && RawEnd(text, i, QUOTED) == i + |Encode(s)|
    decreases |s|
  {
    hide DecodeCharacter, EncodeOne, InPlace, RawEnd, Holds, AtDelimiter;
    if s == [] {
      ReadToQuote(text, i);
    } else {
      HoldsParts(text, i, EncodeOne(s[0]), Encode(s[1..]));
      EncodedOne(text, i, s[0]);
      HoldsInside(text, i, EncodeOne(s[0]));
      InPlaceUnfolds(text, i, QUOTED);
      EncodedReads(text, i + |EncodeOne(s[0])|, s[1..]);
      assert [s[0]] + s[1..] == s;
    }
  }

  lemma {:induction false} EncodedIsPlain(s: Text)
    ensures forall k :: 0 <= k < |Encode(s)| ==> PlainChar(Encode(s)[k])
  {
    if s != [] { EncodedIsPlain(s[1..]); }
  }

  /** No quote, backtick, brace, slash or angle. */
  predicate PlainChar(c: int) {
    c != DQUOTE && c != QUOTE && c != BACKTICK && c != RBRACE && c != SLASH && c != LESS
  }

  // ------------------------------------------------------------------ writing a constant

  /** Two operands around an operator, in brackets. */
  function Bracketed<T>(x: T, a: seq<T>, y: T, b: seq<T>, z: T): (r: seq<T>)
    ensures |r| == |a| + |b| + 3 && r[0] == x && r[1 + |a|] == y && r[2 + |a| + |b|] == z
    ensures r[1..1 + |a|] == a && r[2 + |a|..2 + |a| + |b|] == b
  {
    [x] + a + [y] + b + [z]
  }

  lemma BracketedAt<T>(x: T, a: seq<T>, y: T, b: seq<T>, z: T, k: nat)
    requires k < |a| + |b| + 3
    ensures var c := Bracketed(x, a, y, b, z)[k]; c == x || c == y || c == z || c in a || c in b
  {
    hide Bracketed;
    var r := Bracketed(x, a, y, b, z);
    if 1 <= k <= |a| { assert r[1..1 + |a|][k - 1] == r[k]; }
    else if 2 + |a| <= k < 2 + |a| + |b| { assert r[2 + |a|..2 + |a| + |b|][k - 2 - |a|] == r[k]; }
  }

  lemma BracketedIs<T>(s: seq<T>, m: nat)
    requires 1 <= m && m + 1 < |s|
    ensures s == Bracketed(s[0], s[1..m], s[m], s[m + 1..|s| - 1], s[|s| - 1])
  {
  }

  lemma BracketedNests<T>(x: T, a: seq<T>, y: T, b: seq<T>, z: T)
    ensures [x] + (a + [y] + b) + [z] == Bracketed(x, a, y, b, z)
  {
  }

  /** The constant in JavaScript, sums in parentheses. */
  function SourceText(s: Source): (t: Text) {
    if s.Sum? then Bracketed(OPEN, SourceText(s.l), PLUS, SourceText(s.r), CLOSE) else LeafText(s)
  }

  function LeafText(s: Source): Text
    requires !s.Sum?
  {
    match s
    case NullWord => Lit("null")
    case BoolWord(b) => if b then Lit("true") else Lit("false")
    case Numeral(t) => t
  }

  predicate Readable(py: Python, s: Source) {
    match s
    case Numeral(t) => IsNumeral(py, t)
    case Sum(l, r) => Readable(py, l) && Readable(py, r)
    case _ => true
  }

  lemma {:induction false} KnownIsReadable(py: Python, s: Source)
    requires SourceValue(py, s).Known?
    ensures Readable(py, s)
  {
    match s
    case Sum(l, r) => KnownIsReadable(py, l); KnownIsReadable(py, r);
    case _ =>
  }

  /** A character of a numeral. */
  predicate NumeralChar(py: Python, c: int) { c == DOT || py.isDigit(c) }

  lemma {:induction false} NumeralChars(py: Python, t: Text)
    requires forall i :: 0 <= i < |WithoutDots(t)| ==> py.isDigit(WithoutDots(t)[i])
    ensures forall i :: 0 <= i < |t| ==> NumeralChar(py, t[i])
  {
    if t != [] {
      var rest := WithoutDots(t[1..]);
      if t[0] != DOT {
        assert WithoutDots(t)[0] == t[0];
        assert forall i :: 0 <= i < |rest| ==> rest[i] == WithoutDots(t)[i + 1];
      } else {
        assert WithoutDots(t) == rest;
      }
      NumeralChars(py, t[1..]);
      assert forall i :: 0 < i < |t| ==> t[i] == t[1..][i - 1];
    }
  }

  function Word(w: Text, p: nat): Token { Token(Identifier, w, 0, p, p + |w|) }

  function Mark(c: int, p: nat): Token { Token(Punctuation, [c], 0, p, p + 1) }

  function Marks(t: Text, p: nat): (ts: seq<Token>)
    ensures |ts| == |t|
    ensures forall i :: 0 <= i < |t| ==> ts[i] == Mark(t[i], p + i)
  {
    if t == [] then [] else [Mark(t[0], p)] + Marks(t[1..], p + 1)
  }

  /** How many tokens a constant has. */
  function Size(s: Source): nat {
    match s
    case Numeral(t) => |t|
    case Sum(l, r) => Size(l) + Size(r) + 3
    case _ => 1
  }

  /** The tokens of the constant written from `p` on. */
  function SourceTokens(s: Source, p: nat): (ts: seq<Token>)
    ensures |ts| == Size(s)
  {
    if s.Sum? then
      var q := p + 1 + |SourceText(s.l)|;
      Bracketed(Mark(OPEN, p), SourceTokens(s.l, p + 1), Mark(PLUS, q), SourceTokens(s.r, q + 1), Mark(CLOSE, q + 1 + |SourceText(s.r)|))
    else LeafTokens(s, p)
  }

  function LeafTokens(s: Source, p: nat): (ts: seq<Token>)
    requires !s.Sum?
    ensures |ts| == Size(s)
  {
    if s.Numeral? then Marks(s.t, p) else [Word(LeafText(s), p)]
  }

  lemma MarkLexes(o: Setting, text: Text, p: nat)
    requires Pythonic(o) && p < |text|
    requires text[p] in {PLUS, OPEN, CLOSE, DOT} || o.py.isDigit(text[p])
    ensures Lexemes(o, text, p) == [Mark(text[p], p)] + Lexemes(o, text, p + 1)
  {
    EscapeNeedsBackslash(text, p);
  }

  lemma {:induction false} MarksLex(o: Setting, text: Text, p: nat, t: Text)
    requires Pythonic(o) && Holds(text, p, t) && forall i :: 0 <= i < |t| ==> NumeralChar(o.py, t[i])
    ensures Lexemes(o, text, p) == Marks(t, p) + Lexemes(o, text, p + |t|)
    decreases |t|
  {
    hide Lexemes, Pythonic;
    if t == [] {
      assert Marks(t, p) + Lexemes(o, text, p) == Lexemes(o, text, p);
    } else {
      HoldsAt(text, p, t, 0);
      assert NumeralChar(o.py, t[0]) && t == [t[0]] + t[1..];
      HoldsParts(text, p, [t[0]], t[1..]);
      MarkLexes(o, text, p);
      MarksLex(o, text, p + 1, t[1..]);
    }
  }

  predicate Lowercase(w: Text) { forall i :: 0 <= i < |w| ==> 97 <= w[i] <= 122 }

  lemma {:induction false} WordParts(o: Setting, text: Text, p: nat, w: Text)
    requires Pythonic(o) && Holds(text, p, w) && Lowercase(w)
    requires p + |w| < |text| ==> !ContinuesIdentifier(o, text, p + |w|)
    ensures PartsEnd(o, text, p) == p + |w| && PartsValue(o, text, p) == w
    decreases |w|
  {
    hide DecodeIdentifierEscape;
    if w != [] {
      HoldsAt(text, p, w, 0);
      EscapeNeedsBackslash(text, p);
      assert w == [w[0]] + w[1..];
      HoldsParts(text, p, [w[0]], w[1..]);
      WordParts(o, text, p + 1, w[1..]);
    }
  }

  lemma WordLexeme(o: Setting, text: Text, p: nat, w: Text)
    requires Pythonic(o) && Holds(text, p, w) && Lowercase(w) && w != []
    requires p + |w| < |text| ==> !ContinuesIdentifier(o, text, p + |w|)
    ensures p < |text| && !o.space(text[p]) && Lexeme(o, text, p) == Word(w, p)
  {
    hide DecodeIdentifierEscape, PartsEnd, PartsValue;
    HoldsAt(text, p, w, 0);
    EscapeNeedsBackslash(text, p);
    assert w == [w[0]] + w[1..];
    HoldsParts(text, p, [w[0]], w[1..]);
    WordParts(o, text, p + 1, w[1..]);
  }

  lemma WordLexes(o: Setting, text: Text, p: nat, w: Text)
    requires Pythonic(o) && Holds(text, p, w) && Lowercase(w) && w != []
    requires p + |w| < |text| ==> !ContinuesIdentifier(o, text, p + |w|)
    ensures Lexemes(o, text, p) == [Word(w, p)] + Lexemes(o, text, p + |w|)
  {
    hide Pythonic, Lowercase, ContinuesIdentifier, Lexeme;
    WordLexeme(o, text, p, w);
  }

  lemma MarkEndsWord(o: Setting, text: Text, q: nat)
    requires Pythonic(o) && q < |text| && text[q] in {PLUS, CLOSE}
    ensures !ContinuesIdentifier(o, text, q)
  {
    EscapeNeedsBackslash(text, q);
  }

  lemma WordsAreLowercase()
    ensures Lowercase(Lit("null")) && Lowercase(Lit("true")) && Lowercase(Lit("false"))
  {
  }

  /** The simple pass reads the tokens of a constant that an operator or a bracket follows. */
  lemma {:induction false} SourceLexes(o: Setting, text: Text, p: nat, s: Source)
    requires Pythonic(o) && Readable(o.py, s) && Holds(text, p, SourceText(s))
    requires p + |SourceText(s)| < |text| && text[p + |SourceText(s)|] in {PLUS, CLOSE}
    ensures Lexemes(o, text, p) == SourceTokens(s, p) + Lexemes(o, text, p + |SourceText(s)|)
    decreases s
  {
    hide Lexemes, Pythonic, ContinuesIdentifier, Bracketed, Size, Holds, LeafTokens, LeafText;
    if s.Sum? { SumLexes(o, text, p, s); } else { LeafLexes(o, text, p, s); }
  }

  lemma LeafLexes(o: Setting, text: Text, p: nat, s: Source)
    requires Pythonic(o) && Readable(o.py, s) && !s.Sum? && Holds(text, p, LeafText(s))
    requires p + |LeafText(s)| < |text| && text[p + |LeafText(s)|] in {PLUS, CLOSE}
    ensures Lexemes(o, text, p) == LeafTokens(s, p) + Lexemes(o, text, p + |LeafText(s)|)
  {
    hide Lexemes, Pythonic, ContinuesIdentifier, Lit, Lowercase, Marks, Holds;
    MarkEndsWord(o, text, p + |LeafText(s)|);
    WordsAreLowercase();
    if s.Numeral? {
      NumeralChars(o.py, s.t);
      MarksLex(o, text, p, s.t);
    } else {
      WordLexes(o, text, p, LeafText(s));
    }
  }

  lemma SumHolds(text: Text, p: nat, a: Text, b: Text)
    requires Holds(text, p, Bracketed(OPEN, a, PLUS, b, CLOSE))
    ensures Holds(text, p + 1, a) && Holds(text, p + 2 + |a|, b) && p + 3 + |a| + |b| <= |text|
    ensures text[p] == OPEN && text[p + 1 + |a|] == PLUS && text[p + 2 + |a| + |b|] == CLOSE
  {
    hide Bracketed;
    var s := Bracketed(OPEN, a, PLUS, b, CLOSE);
    HoldsAt(text, p, s, 0);
    HoldsAt(text, p, s, 1 + |a|);
    HoldsAt(text, p, s, 2 + |a| + |b|);
    HoldsSlice(text, p, s, 1, 1 + |a|);
    HoldsSlice(text, p, s, 2 + |a|, 2 + |a| + |b|);
  }

  lemma HoldsSlice(text: Text, p: nat, s: Text, i: nat, j: nat)
    requires Holds(text, p, s) && i <= j <= |s|
    ensures Holds(text, p + i, s[i..j])
  {
    forall k | 0 <= k < j - i ensures text[p + i..p + j][k] == s[i..j][k] { HoldsAt(text, p, s, i + k); }
  }

  lemma Chain(m0: Token, a: seq<Token>, m1: Token, b: seq<Token>, m2: Token, l2: seq<Token>, l4: seq<Token>, l5: seq<Token>)
    requires l2 == [m1] + (b + l4) && l4 == [m2] + l5
    ensures [m0] + (a + l2) == Bracketed(m0, a, m1, b, m2) + l5
  {
  }

  lemma {:induction false} SumLexes(o: Setting, text: Text, p: nat, s: Source)
    requires Pythonic(o) && s.Sum? && Readable(o.py, s.l) && Readable(o.py, s.r) && Holds(text, p, SourceText(s))
    ensures Lexemes(o, text, p) == SourceTokens(s, p) + Lexemes(o, text, p + |SourceText(s)|)
    decreases s, 0
  {
    hide Lexemes, Pythonic, Readable, Holds, Bracketed, SourceTokens, SourceText;
    SumTextIs(s);
    SumTokensAre(s, p);
    var a, b := SourceText(s.l), SourceText(s.r);
    var q := p + 1 + |a|;
    var e := q + 1 + |b|;
    SumHolds(text, p, a, b);
    MarkLexes(o, text, p);
    SourceLexes(o, text, p + 1, s.l);
    MarkLexes(o, text, q);
    SourceLexes(o, text, q + 1, s.r);
    MarkLexes(o, text, e);
    Chain(Mark(OPEN, p), SourceTokens(s.l, p + 1), Mark(PLUS, q), SourceTokens(s.r, q + 1), Mark(CLOSE, e),
          Lexemes(o, text, q), Lexemes(o, text, e), Lexemes(o, text, e + 1));
  }

  lemma SumTextIs(s: Source)
    requires s.Sum?
    ensures SourceText(s) == Bracketed(OPEN, SourceText(s.l), PLUS, SourceText(s.r), CLOSE)
  {
    hide LeafText, Bracketed;
  }

  lemma SumTokensAre(s: Source, p: nat)
    requires s.Sum?
    ensures var q := p + 1 + |SourceText(s.l)|;
            SourceTokens(s, p) ==
              Bracketed(Mark(OPEN, p), SourceTokens(s.l, p + 1), Mark(PLUS, q), SourceTokens(s.r, q + 1), Mark(CLOSE, q + 1 + |SourceText(s.r)|))
  {
    hide SourceText, LeafText, LeafTokens, Bracketed, Mark, Size;
  }

  // ------------------------------------------------------------------ the tree of a constant

  /** The tree that these tokens spell. */
  function TreeOf(s: Source, ts: seq<Token>): ExprTree.Expr
    requires |ts| == Size(s)
    decreases s
  {
    match s
    case NullWord => ExprTree.Word(ts[0], Null)
    case BoolWord(b) => ExprTree.Word(ts[0], Bool(b))
    case Numeral(t) => ExprTree.Number(ts)
    case Sum(l, r) =>
      var m := 1 + Size(l);
      ExprTree.Paren(ts[0],
                     ExprTree.Binary(ExprTree.PlusOp, TreeOf(l, ts[1..m]), [ts[m]], TreeOf(r, ts[m + 1..|ts| - 1])),
                     ts[|ts| - 1])
  }

  lemma SumPrints(x: Token, a: ExprTree.Expr, y: Token, b: ExprTree.Expr, z: Token)
    ensures var e := ExprTree.Paren(x, ExprTree.Binary(ExprTree.PlusOp, a, [y], b), z);
            && ExprTree.Outer(e) == Bracketed(x, ExprTree.Outer(a), y, ExprTree.Outer(b), z)
            && ExprTree.Printed(e) == Bracketed(x, ExprTree.Printed(a), y, ExprTree.Printed(b), z) && ExprTree.Level(e) == 6
  {
    hide Bracketed;
    PlusPrints(a, y, b);
    BracketedNests(x, ExprTree.Outer(a), y, ExprTree.Outer(b), z);
    BracketedNests(x, ExprTree.Printed(a), y, ExprTree.Printed(b), z);
  }

  lemma LeafPrints(s: Source, ts: seq<Token>)
    requires |ts| == Size(s) && !s.Sum?
    ensures ExprTree.Outer(TreeOf(s, ts)) == ts && ExprTree.Printed(TreeOf(s, ts)) == ts && ExprTree.Level(TreeOf(s, ts)) == 6
  {
  }

  /** The tree has no conditional. */
  lemma {:induction false} TreeIsUntouched(s: Source, ts: seq<Token>)
    requires |ts| == Size(s)
    ensures ExprTree.Untouched(TreeOf(s, ts))
    decreases s
  {
    if s.Sum? {
      var m := 1 + Size(s.l);
      TreeIsUntouched(s.l, ts[1..m]);
      TreeIsUntouched(s.r, ts[m + 1..|ts| - 1]);
    }
  }

  lemma {:induction false} TreeIsPrinted(s: Source, ts: seq<Token>)
    requires |ts| == Size(s)
    ensures ExprTree.Outer(TreeOf(s, ts)) == ts && ExprTree.Printed(TreeOf(s, ts)) == ts && ExprTree.Level(TreeOf(s, ts)) == 6
    decreases s
  {
    hide Bracketed, ExprTree.Outer, ExprTree.Printed, ExprTree.Level;
    if s.Sum? {
      var m := 1 + Size(s.l);
      TreeIsPrinted(s.l, ts[1..m]);
      TreeIsPrinted(s.r, ts[m + 1..|ts| - 1]);
      BracketedIs(ts, m);
      SumPrints(ts[0], TreeOf(s.l, ts[1..m]), ts[m], TreeOf(s.r, ts[m + 1..|ts| - 1]), ts[|ts| - 1]);
    } else {
      LeafPrints(s, ts);
    }
  }

  lemma {:induction false} JoinedMarks(ts: seq<Token>, t: Text)
    requires |ts| == |t| && forall i :: 0 <= i < |t| ==> ts[i].value == [t[i]]
    ensures JoinValues(ts) == t
  {
    if t != [] {
      JoinedMarks(ts[1..], t[1..]);
      assert t == [t[0]] + t[1..];
    }
  }

  /** The tree is well formed and has the value of the constant. */
  lemma {:induction false} TreeMeans(o: Setting, s: Source, ts: seq<Token>, p: nat)
    requires Pythonic(o) && Readable(o.py, s) && SameTokens(ts, SourceTokens(s, p))
    ensures ExprTree.WellFormed(o.py, TreeOf(s, ts)) && ExprTree.Partial(o.py, TreeOf(s, ts)) == SourceValue(o.py, s)
    decreases s
  {
    hide Bracketed, Pythonic, SourceTokens, SourceText, ExprTree.WellFormed, ExprTree.Partial, SourceValue, Unlined, TreeOf;
    if s.Sum? {
      var m := 1 + Size(s.l);
      SumTokens(s, ts, p);
      TreeMeans(o, s.l, ts[1..m], p + 1);
      TreeMeans(o, s.r, ts[m + 1..|ts| - 1], p + 2 + |SourceText(s.l)|);
      SumMeans(o, s, ts);
    } else if s.Numeral? {
      NumberMeans(o, s, ts, p);
    } else {
      WordMeans(o, s, ts, p);
    }
  }

  lemma WordMeans(o: Setting, s: Source, ts: seq<Token>, p: nat)
    requires (s.NullWord? || s.BoolWord?) && SameTokens(ts, SourceTokens(s, p))
    ensures ExprTree.WellFormed(o.py, TreeOf(s, ts)) && ExprTree.Partial(o.py, TreeOf(s, ts)) == SourceValue(o.py, s)
  {
    assert Unlined(ts[0]) == Unlined(SourceTokens(s, p)[0]);
  }

  lemma SumMeans(o: Setting, s: Source, ts: seq<Token>)
    requires s.Sum? && |ts| == Size(s)
    requires var m := 1 + Size(s.l);
             && ExprTree.WellFormed(o.py, TreeOf(s.l, ts[1..m])) && ExprTree.WellFormed(o.py, TreeOf(s.r, ts[m + 1..|ts| - 1]))
             && ExprTree.Partial(o.py, TreeOf(s.l, ts[1..m])) == SourceValue(o.py, s.l)
             && ExprTree.Partial(o.py, TreeOf(s.r, ts[m + 1..|ts| - 1])) == SourceValue(o.py, s.r)
             && IsPunct(ts[0], OPEN) && IsPunct(ts[m], PLUS) && IsPunct(ts[|ts| - 1], CLOSE)
    ensures ExprTree.WellFormed(o.py, TreeOf(s, ts)) && ExprTree.Partial(o.py, TreeOf(s, ts)) == SourceValue(o.py, s)
  {
    hide ExprTree.WellFormed, ExprTree.Partial, SourceValue, Plus, ExprTree.Outer, ExprTree.Printed, ExprTree.Level;
    var m := 1 + Size(s.l);
    var a, b := TreeOf(s.l, ts[1..m]), TreeOf(s.r, ts[m + 1..|ts| - 1]);
    TreeIsPrinted(s.l, ts[1..m]);
    TreeIsPrinted(s.r, ts[m + 1..|ts| - 1]);
    PlusMeans(o.py, a, ts[m], b);
    ParenMeans(o.py, ts[0], ExprTree.Binary(ExprTree.PlusOp, a, [ts[m]], b), ts[|ts| - 1]);
    SumValue(o.py, s);
  }

  lemma ParenMeans(py: Python, open: Token, e: ExprTree.Expr, close: Token)
    requires ExprTree.WellFormed(py, e) && IsPunct(open, OPEN) && IsPunct(close, CLOSE)
    ensures var p := ExprTree.Paren(open, e, close); ExprTree.WellFormed(py, p) && ExprTree.Partial(py, p) == ExprTree.Partial(py, e)
  {
  }

  lemma SumValue(py: Python, s: Source)
    requires s.Sum?
    ensures SourceValue(py, s) == Plus(py, SourceValue(py, s.l), SourceValue(py, s.r))
  {
  }

  lemma PlusMeans(py: Python, a: ExprTree.Expr, plus: Token, b: ExprTree.Expr)
    requires ExprTree.WellFormed(py, a) && ExprTree.WellFormed(py, b) && IsPunct(plus, PLUS)
    requires ExprTree.Level(a) >= 5 && ExprTree.Level(b) == 6
    ensures var e := ExprTree.Binary(ExprTree.PlusOp, a, [plus], b);
            ExprTree.WellFormed(py, e) && ExprTree.Partial(py, e) == Plus(py, ExprTree.Partial(py, a), ExprTree.Partial(py, b))
  {
  }

  lemma NumberMeans(o: Setting, s: Source, ts: seq<Token>, p: nat)
    requires Pythonic(o) && s.Numeral? && Readable(o.py, s) && SameTokens(ts, SourceTokens(s, p))
    ensures ExprTree.WellFormed(o.py, TreeOf(s, ts)) && ExprTree.Partial(o.py, TreeOf(s, ts)) == SourceValue(o.py, s)
  {
    hide SourceText, Pythonic;
    var t := s.t;
    forall i | 0 <= i < |t| ensures Unlined(ts[i]) == Mark(t[i], p + i) {
      assert Unlined(ts[i]) == Unlined(Marks(t, p)[i]);
    }
    JoinedMarks(ts, t);
    NumeralChars(o.py, t);
    forall i | 0 <= i < |ts| ensures ExprTree.Digit(o.py, ts[i]) {
      NumeralIsAscii(o, t[i]);
    }
    AdjacentMarks(ts, t, p);
  }

  lemma NumeralIsAscii(o: Setting, c: int)
    requires Pythonic(o) && NumeralChar(o.py, c)
    ensures c == DOT || (o.py.isDigit(c) && (IsDigit(c) || c >= 128))
  {
  }

  lemma AdjacentMarks(ts: seq<Token>, t: Text, p: nat)
    requires |ts| == |t| && forall i :: 0 <= i < |t| ==> Unlined(ts[i]) == Mark(t[i], p + i)
    ensures Adjacent(ts)
  {
    forall i | 0 < i < |ts| ensures ts[i - 1].end == ts[i].start {
      assert Unlined(ts[i - 1]) == Mark(t[i - 1], p + i - 1) && Unlined(ts[i]) == Mark(t[i], p + i);
    }
  }

  lemma SumTokens(s: Source, ts: seq<Token>, p: nat)
    requires s.Sum? && SameTokens(ts, SourceTokens(s, p))
    ensures |ts| == Size(s)
    ensures var m := 1 + Size(s.l);
            && SameTokens(ts[1..m], SourceTokens(s.l, p + 1)) && SameTokens(ts[m + 1..|ts| - 1], SourceTokens(s.r, p + 2 + |SourceText(s.l)|))
            && IsPunct(ts[0], OPEN) && IsPunct(ts[m], PLUS) && IsPunct(ts[|ts| - 1], CLOSE)
  {
    hide Bracketed, SourceTokens, SourceText;
    SumTokensAre(s, p);
    var m, n, all := 1 + Size(s.l), |ts| - 1, SourceTokens(s, p);
    assert Unlined(ts[0]) == Unlined(all[0]) && Unlined(ts[m]) == Unlined(all[m]) && Unlined(ts[n]) == Unlined(all[n]);
    SameSlice(ts, all, 1, m);
    SameSlice(ts, all, m + 1, n);
  }

  lemma SameSlice(a: seq<Token>, b: seq<Token>, i: nat, j: nat)
    requires SameTokens(a, b) && i <= j <= |a|
    ensures SameTokens(a[i..j], b[i..j])
  {
    forall k | 0 <= k < j - i ensures Unlined(a[i..j][k]) == Unlined(b[i..j][k]) {
      assert Unlined(a[i + k]) == Unlined(b[i + k]);
    }
  }

  // ------------------------------------------------------------------ the file

  /** What is written between the first string and the constant: a plus sign, behind white
      space when the target would read the plus. */
  function Joint(x: int, y: int): (r: Text)
    ensures 1 <= |r| <= 2 && r[|r| - 1] == PLUS && r[0] != x && r[0] != y
    ensures |r| == 2 ==> r[0] == SPACE || r[0] == LF
  {
    if x != PLUS && y != PLUS then [PLUS] else if x != SPACE && y != SPACE then [SPACE, PLUS] else [LF, PLUS]
  }

  /** The file `"a"+constant+"b"`, with where its parts are. */
  datatype File = File(text: Text, a: Text, joint: Text, s: Source, b: Text) {
    const e0: nat := 1 + |Encode(a)|
    const p2: nat := e0 + 1 + |joint|
    const p3: nat := p2 + |SourceText(s)|
    const e1: nat := p3 + 2 + |Encode(b)|

    predicate Valid() {
      && |text| == e1 + 1
      && Holds(text, 1, Encode(a)) && Holds(text, e0 + 1, joint) && Holds(text, p2, SourceText(s)) && Holds(text, p3 + 2, Encode(b))
      && text[0] == DQUOTE && text[e0] == DQUOTE && text[p3] == PLUS && text[p3 + 1] == DQUOTE && text[e1] == DQUOTE
      && 1 <= |joint| <= 2 && joint[|joint| - 1] == PLUS && (|joint| == 2 ==> joint[0] == SPACE || joint[0] == LF)
    }
  }

  function FileOf(a: Text, joint: Text, s: Source, b: Text): File {
    File([DQUOTE] + (Encode(a) + ([DQUOTE] + (joint + (SourceText(s) + ([PLUS, DQUOTE] + (Encode(b) + [DQUOTE])))))), a, joint, s, b)
  }

  lemma HoldsAll(text: Text)
    ensures Holds(text, 0, text)
  {
  }

  lemma InParts(t: Text, a: Text, j: Text, s: Text, b: Text)
    requires t == [DQUOTE] + (a + ([DQUOTE] + (j + (s + ([PLUS, DQUOTE] + (b + [DQUOTE]))))))
    ensures Holds(t, 0, [DQUOTE]) && Holds(t, 1, a) && Holds(t, 1 + |a|, [DQUOTE]) && Holds(t, 2 + |a|, j)
    ensures var p := 2 + |a| + |j|;
            && Holds(t, p, s) && Holds(t, p + |s|, [PLUS, DQUOTE]) && Holds(t, p + |s| + 2, b) && Holds(t, p + |s| + 2 + |b|, [DQUOTE])
            && |t| == p + |s| + 3 + |b|
  {
    hide Holds;
    var t6 := b + [DQUOTE];
    var t5 := [PLUS, DQUOTE] + t6;
    var t4 := s + t5;
    var t3 := j + t4;
    var p := 2 + |a| + |j|;
    HoldsAll(t);
    HoldsParts(t, 0, [DQUOTE], a + ([DQUOTE] + t3));
    HoldsParts(t, 1, a, [DQUOTE] + t3);
    HoldsParts(t, 1 + |a|, [DQUOTE], t3);
    HoldsParts(t, 2 + |a|, j, t4);
    HoldsParts(t, p, s, t5);
    HoldsParts(t, p + |s|, [PLUS, DQUOTE], t6);
    HoldsParts(t, p + |s| + 2, b, [DQUOTE]);
  }

  lemma FileIsValid(a: Text, joint: Text, s: Source, b: Text)
    requires 1 <= |joint| <= 2 && joint[|joint| - 1] == PLUS && (|joint| == 2 ==> joint[0] == SPACE || joint[0] == LF)
    ensures FileOf(a, joint, s, b).Valid()
  {
    hide Encode, SourceText, Holds;
    var f := FileOf(a, joint, s, b);
    InParts(f.text, Encode(a), joint, SourceText(s), Encode(b));
    PartsAreValid(f);
  }

  lemma PartsAreValid(f: File)
    requires 1 <= |f.joint| <= 2 && f.joint[|f.joint| - 1] == PLUS && (|f.joint| == 2 ==> f.joint[0] == SPACE || f.joint[0] == LF)
    requires |f.text| == f.e1 + 1 && Holds(f.text, 1, Encode(f.a)) && Holds(f.text, f.e0 + 1, f.joint)
    requires Holds(f.text, f.p2, SourceText(f.s)) && Holds(f.text, f.p3 + 2, Encode(f.b))
    requires Holds(f.text, 0, [DQUOTE]) && Holds(f.text, f.e0, [DQUOTE]) && Holds(f.text, f.p3, [PLUS, DQUOTE]) && Holds(f.text, f.e1, [DQUOTE])
    ensures f.Valid()
  {
    hide Encode, SourceText, Holds;
    HoldsChars(f.text, f.e0, f.p3, f.e1);
  }

  lemma HoldsChars(text: Text, e0: nat, p3: nat, e1: nat)
    requires Holds(text, 0, [DQUOTE]) && Holds(text, e0, [DQUOTE]) && Holds(text, p3, [PLUS, DQUOTE]) && Holds(text, e1, [DQUOTE])
    ensures p3 + 1 < |text| && e0 < |text| && e1 < |text|
    ensures text[0] == DQUOTE && text[e0] == DQUOTE && text[p3] == PLUS && text[p3 + 1] == DQUOTE && text[e1] == DQUOTE
  {
    HoldsAt(text, 0, [DQUOTE], 0);
    HoldsAt(text, e0, [DQUOTE], 0);
    HoldsAt(text, p3, [PLUS, DQUOTE], 0);
    HoldsAt(text, p3, [PLUS, DQUOTE], 1);
    HoldsAt(text, e1, [DQUOTE], 0);
  }

  predicate Bare(c: int) { PlainChar(c) && c != BACKSLASH }

  lemma LeafIsPlain(o: Setting, s: Source)
    requires Pythonic(o) && Readable(o.py, s) && !s.Sum?
    ensures forall c :: c in LeafText(s) ==> Bare(c)
  {
    hide Pythonic;
    match s
    case Numeral(t) =>
      NumeralChars(o.py, t);
      forall c | c in t ensures Bare(c) {
        var k :| 0 <= k < |t| && t[k] == c;
        NumeralCharIsBare(o, t[k]);
      }
    case _ =>
  }

  lemma {:induction false} SourceIsPlain(o: Setting, s: Source)
    requires Pythonic(o) && Readable(o.py, s)
    ensures forall c :: c in SourceText(s) ==> Bare(c)
    decreases s
  {
    hide Bracketed, Pythonic, LeafText, Bare;
    if s.Sum? {
      SourceIsPlain(o, s.l);
      SourceIsPlain(o, s.r);
      MarksAreBare();
      forall c | c in SourceText(s) ensures Bare(c) {
        var k :| 0 <= k < |SourceText(s)| && SourceText(s)[k] == c;
        BracketedAt(OPEN, SourceText(s.l), PLUS, SourceText(s.r), CLOSE, k);
      }
    } else {
      LeafIsPlain(o, s);
    }
  }

  lemma MarksAreBare()
    ensures Bare(OPEN) && Bare(PLUS) && Bare(CLOSE)
  {
  }

  lemma NumeralCharIsBare(o: Setting, c: int)
    requires Pythonic(o) && NumeralChar(o.py, c)
    ensures Bare(c)
  {
  }

  /** Only the four quotes open a piece, and no slash, backtick or angle occurs. */
  lemma FileChars(o: Setting, f: File)
    requires Pythonic(o) && Readable(o.py, f.s) && f.Valid()
    ensures forall k :: 0 <= k < |f.text| && k != 0 && k != f.e0 && k != f.p3 + 1 && k != f.e1 ==> PlainChar(f.text[k])
  {
    hide Encode, SourceText, PlainChar, Pythonic, Readable, Holds;
    EncodedIsPlain(f.a);
    EncodedIsPlain(f.b);
    forall k | 0 <= k < |f.text| && k != 0 && k != f.e0 && k != f.p3 + 1 && k != f.e1 ensures PlainChar(f.text[k]) {
      if k < f.e0 { HoldsAt(f.text, 1, Encode(f.a), k - 1); }
      else if k < f.p2 { HoldsAt(f.text, f.e0 + 1, f.joint, k - f.e0 - 1); JointIsPlain(f, k - f.e0 - 1); }
      else if k < f.p3 { HoldsAt(f.text, f.p2, SourceText(f.s), k - f.p2); SourceCharIsPlain(o, f.s, k - f.p2); }
      else if k == f.p3 { PlusIsPlain(); }
      else { HoldsAt(f.text, f.p3 + 2, Encode(f.b), k - f.p3 - 2); }
    }
  }

  lemma SourceCharIsPlain(o: Setting, s: Source, k: nat)
    requires Pythonic(o) && Readable(o.py, s) && k < |SourceText(s)|
    ensures PlainChar(SourceText(s)[k])
  {
    hide Pythonic, SourceText, Readable;
    SourceIsPlain(o, s);
    assert Bare(SourceText(s)[k]);
  }

  lemma JointIsPlain(f: File, k: nat)
    requires f.Valid() && k < |f.joint|
    ensures PlainChar(f.joint[k])
  {
    hide Encode, SourceText, Holds;
  }

  lemma PlusIsPlain()
    ensures PlainChar(PLUS)
  {
  }

  lemma FileIsPlain(o: Setting, f: File)
    requires Pythonic(o) && Readable(o.py, f.s) && f.Valid()
    ensures PlainText(o, f.text)
  {
    hide Encode, SourceText, Readable;
    FileChars(o, f);
  }

  /** The tokens of the file, lines aside. */
  function FileTokens(f: File): seq<Token> {
    [Token(StringToken, f.a, 0, 0, f.e0 + 1), Mark(PLUS, f.p2 - 1)] + SourceTokens(f.s, f.p2) +
    [Mark(PLUS, f.p3), Token(StringToken, f.b, 0, f.p3 + 1, f.e1 + 1)]
  }

  lemma StringLexes(o: Setting, text: Text, p: nat, s: Text)
    requires Pythonic(o) && Holds(text, p + 1, Encode(s)) && p + 1 + |Encode(s)| < |text|
    requires text[p] == DQUOTE && text[p + 1 + |Encode(s)|] == DQUOTE
    ensures var e := p + 2 + |Encode(s)|; Lexemes(o, text, p) == [Token(StringToken, s, 0, p, e)] + Lexemes(o, text, e)
  {
    hide Encode, InPlace, RawEnd, Holds;
    EncodedReads(text, p + 1, s);
  }

  lemma JointLexes(o: Setting, f: File)
    requires Pythonic(o) && f.Valid()
    ensures Lexemes(o, f.text, f.e0 + 1) == [Mark(PLUS, f.p2 - 1)] + Lexemes(o, f.text, f.p2)
  {
    hide Encode, SourceText, Lexeme;
    HoldsAt(f.text, f.e0 + 1, f.joint, 0);
    HoldsAt(f.text, f.e0 + 1, f.joint, |f.joint| - 1);
    MarkLexes(o, f.text, f.p2 - 1);
  }

  lemma FileLexes(o: Setting, f: File)
    requires Pythonic(o) && Readable(o.py, f.s) && f.Valid()
    ensures Lexemes(o, f.text, 0) == FileTokens(f)
  {
    hide Encode, SourceText, Lexeme, Pythonic, Readable, SourceTokens, Lexemes;
    StringLexes(o, f.text, 0, f.a);
    JointLexes(o, f);
    SourceLexes(o, f.text, f.p2, f.s);
    MarkLexes(o, f.text, f.p3);
    StringLexes(o, f.text, f.p3 + 1, f.b);
    NoLexemes(o, f.text);
    Ends(Token(StringToken, f.a, 0, 0, f.e0 + 1), Mark(PLUS, f.p2 - 1), SourceTokens(f.s, f.p2), Mark(PLUS, f.p3),
         Token(StringToken, f.b, 0, f.p3 + 1, f.e1 + 1));
  }

  lemma NoLexemes(o: Setting, text: Text)
    ensures Lexemes(o, text, |text|) == []
  {
  }

  lemma Ends(x: Token, y: Token, mid: seq<Token>, z: Token, w: Token)
    ensures [x] + ([y] + (mid + ([z] + ([w] + [])))) == [x, y] + mid + [z, w]
  {
  }

  /** The file evaluates to the first string, the constant and the second string. */
  lemma FileEvaluates(o: Setting, f: File, passed: seq<Stretch>, tokens: seq<Token>)
    requires Pythonic(o) && f.Valid() && Result(o, f.text, passed, tokens)
    requires SourceValue(o.py, f.s).Known? && JavascriptString(o.py, SourceValue(o.py, f.s).v).Some?
    ensures ConstantExpressionValue(o.py, tokens) ==
              Known(Str(f.a + JavascriptString(o.py, SourceValue(o.py, f.s).v).value + f.b))
  {
    hide Result, Encode, SourceText, Readable, ConstantExpressionValue, Lexemes, SourceTokens, PlainText, Pythonic;
    KnownIsReadable(o.py, f.s);
    FileIsPlain(o, f);
    PlainTextIsLexemes(o, f.text, passed, tokens);
    FileLexes(o, f);
    LexemesAscend(o, f.text, 0);
    SameIsLaidOut(o, f.text, tokens, FileTokens(f));
    FileTreeEvaluates(o, f, tokens);
  }

  lemma SameIsLaidOut(o: Setting, text: Text, tokens: seq<Token>, ts: seq<Token>)
    requires SameTokens(tokens, ts) && Ascending(o, text, ts, 0)
    ensures ExprEval.LaidOut(tokens)
  {
    hide IsLexeme;
    forall i | 0 <= i < |tokens| ensures tokens[i].start == ts[i].start && tokens[i].end == ts[i].end {
      assert Unlined(tokens[i]) == Unlined(ts[i]);
    }
  }

  function Around(x: ExprTree.Expr, y: Token, e: ExprTree.Expr, z: Token, w: ExprTree.Expr): ExprTree.Expr {
    ExprTree.Binary(ExprTree.PlusOp, ExprTree.Binary(ExprTree.PlusOp, x, [y], e), [z], w)
  }

  lemma AroundMeans(py: Python, x: Token, y: Token, e: ExprTree.Expr, z: Token, w: Token)
    requires x.kind.StringToken? && w.kind.StringToken? && IsPunct(y, PLUS) && IsPunct(z, PLUS)
    requires ExprTree.WellFormed(py, e) && ExprTree.Level(e) == 6
    ensures var all := Around(ExprTree.StringLiteral(x), y, e, z, ExprTree.StringLiteral(w));
            && ExprTree.WellFormed(py, all)
            && ExprTree.Partial(py, all) == Plus(py, Plus(py, Known(Str(x.value)), ExprTree.Partial(py, e)), Known(Str(w.value)))
            && ExprTree.Outer(all) == [x] + [y] + ExprTree.Outer(e) + [z] + [w]
            && ExprTree.Printed(all) == [x] + [y] + ExprTree.Printed(e) + [z] + [w]
  {
    hide ExprTree.WellFormed, ExprTree.Partial, ExprTree.Outer, ExprTree.Printed, ExprTree.Level;
    var first, last := ExprTree.StringLiteral(x), ExprTree.StringLiteral(w);
    var sum := ExprTree.Binary(ExprTree.PlusOp, first, [y], e);
    StringMeans(py, x);
    StringMeans(py, w);
    PlusMeans(py, first, y, e);
    PlusPrints(first, y, e);
    PlusMeans(py, sum, z, last);
    PlusPrints(sum, z, last);
  }

  lemma StringMeans(py: Python, t: Token)
    requires t.kind.StringToken?
    ensures var e := ExprTree.StringLiteral(t);
            && ExprTree.WellFormed(py, e) && ExprTree.Partial(py, e) == Known(Str(t.value)) && ExprTree.Level(e) == 6
            && ExprTree.Outer(e) == [t] && ExprTree.Printed(e) == [t]
  {
  }

  lemma PlusPrints(a: ExprTree.Expr, plus: Token, b: ExprTree.Expr)
    ensures var e := ExprTree.Binary(ExprTree.PlusOp, a, [plus], b);
            && ExprTree.Outer(e) == ExprTree.Outer(a) + [plus] + ExprTree.Outer(b)
            && ExprTree.Printed(e) == ExprTree.Printed(a) + [plus] + ExprTree.Printed(b) && ExprTree.Level(e) == 5
  {
  }

  lemma FileTreeEvaluates(o: Setting, f: File, tokens: seq<Token>)
    requires Pythonic(o) && Readable(o.py, f.s) && SameTokens(tokens, FileTokens(f)) && ExprEval.LaidOut(tokens)
    requires SourceValue(o.py, f.s).Known? && JavascriptString(o.py, SourceValue(o.py, f.s).v).Some?
    ensures ConstantExpressionValue(o.py, tokens) ==
              Known(Str(f.a + JavascriptString(o.py, SourceValue(o.py, f.s).v).value + f.b))
  {
    hide Encode, SourceText, Readable, ConstantExpressionValue, SourceTokens, Pythonic, ExprEval.LaidOut, JavascriptString, SourceValue,
         ExprTree.WellFormed, ExprTree.Untouched, ExprTree.Partial, Around, SameTokens, FileTokens, TreeOf, ExprTree.Printed, ExprTree.Outer, Plus;
    FileSlices(f, tokens);
    var n := |tokens|;
    var mid := tokens[2..n - 2];
    TreeMeans(o, f.s, mid, f.p2);
    TreeIsPrinted(f.s, mid);
    var tree := TreeOf(f.s, mid);
    AroundMeans(o.py, tokens[0], tokens[1], tree, tokens[n - 2], tokens[n - 1]);
    TreeIsUntouched(f.s, mid);
    AroundIsUntouched(tokens[0], tokens[1], tree, tokens[n - 2], tokens[n - 1]);
    assert tokens == [tokens[0]] + [tokens[1]] + mid + [tokens[n - 2]] + [tokens[n - 1]];
    ExprEval.PrintedEvaluates(o.py, Around(ExprTree.StringLiteral(tokens[0]), tokens[1], tree, tokens[n - 2], ExprTree.StringLiteral(tokens[n - 1])));
    StringsAround(o.py, f.a, SourceValue(o.py, f.s).v, f.b);
  }

  lemma AroundIsUntouched(x: Token, y: Token, e: ExprTree.Expr, z: Token, w: Token)
    requires ExprTree.Untouched(e)
    ensures ExprTree.Untouched(Around(ExprTree.StringLiteral(x), y, e, z, ExprTree.StringLiteral(w)))
  {
  }

  lemma StringsAround(py: Python, a: Text, v: Value, b: Text)
    requires JavascriptString(py, v).Some?
    ensures Plus(py, Plus(py, Known(Str(a)), Known(v)), Known(Str(b))) == Known(Str(a + JavascriptString(py, v).value + b))
  {
  }

  lemma FileSlices(f: File, tokens: seq<Token>)
    requires SameTokens(tokens, FileTokens(f))
    ensures |tokens| == Size(f.s) + 4 && SameTokens(tokens[2..|tokens| - 2], SourceTokens(f.s, f.p2))
    ensures tokens[0].kind.StringToken? && tokens[0].value == f.a && IsPunct(tokens[1], PLUS)
    ensures IsPunct(tokens[|tokens| - 2], PLUS) && tokens[|tokens| - 1].kind.StringToken? && tokens[|tokens| - 1].value == f.b
  {
    hide SourceTokens, Encode, SourceText;
    var all, n := FileTokens(f), |tokens|;
    assert Unlined(tokens[0]) == Unlined(all[0]) && Unlined(tokens[1]) == Unlined(all[1]);
    assert Unlined(tokens[n - 2]) == Unlined(all[n - 2]) && Unlined(tokens[n - 1]) == Unlined(all[n - 1]);
    SameSlice(tokens, all, 2, n - 2);
    assert all[2..n - 2] == SourceTokens(f.s, f.p2);
  }

  // ------------------------------------------------------------------ the prefilter refuses it

  /** The two differ somewhere. */
  ghost predicate Off(target: Text, x: Text) { exists k :: 0 <= k < |target| && k < |x| && x[k] != target[k] }

  lemma OffStays(target: Text, x: Text, y: Text)
    requires Off(target, x)
    ensures Off(target, x + y)
  {
    var k :| 0 <= k < |target| && k < |x| && x[k] != target[k];
    assert (x + y)[k] == x[k];
  }

  lemma OffIsNoPrefix(target: Text, x: Text)
    requires Off(target, x)
    ensures !(target <= x)
  {
  }

  lemma FilePieces(f: File)
    requires f.Valid()
    ensures Piece(f.text, 0) == f.a && Piece(f.text, f.p3 + 1) == f.b && Piece(f.text, f.e1) == []
    ensures |Piece(f.text, f.e0)| > 0 && Piece(f.text, f.e0)[0] == f.joint[0]
  {
    hide Encode, SourceText, Holds, InPlace, DecodeCharacter;
    EncodedReads(f.text, 1, f.a);
    EncodedReads(f.text, f.p3 + 2, f.b);
    HoldsAt(f.text, f.e0 + 1, f.joint, 0);
    PieceStarts(f.text, f.e0);
    PieceAtEnd(f.text, f.e1);
  }

  lemma PieceStarts(text: Text, j: nat)
    requires j + 1 < |text| && text[j] == DQUOTE && text[j + 1] != DQUOTE && text[j + 1] != BACKSLASH
    ensures |Piece(text, j)| > 0 && Piece(text, j)[0] == text[j + 1]
  {
    assert DecodeCharacter(text, j + 1) == Decoded(Some(text[j + 1]), j + 2);
  }

  lemma PieceAtEnd(text: Text, j: nat)
    requires j + 1 == |text|
    ensures Piece(text, j) == []
  {
  }

  /** What a choice of pieces joins to: it is off, or it took only the two strings. */
  ghost predicate Harmless(f: File, target: Text, js: seq<nat>, x: Text) {
    if f.e0 in js then Off(target, x)
    else
      && (x == [] || x == f.a || x == f.b || x == f.a + f.b)
      && (Below(js, f.p3 + 1) ==> x == [] || x == f.a)
  }

  lemma SomeIsNotBelow(js: seq<nat>)
    requires js != []
    ensures !Below(js, 0)
  {
    assert js[0] >= 0;
  }

  lemma HarmlessStep(f: File, target: Text, front: seq<nat>, j: Text, last: nat, x: Text)
    requires Harmless(f, target, front, j) && Below(front, last) && f.e0 < f.p3 + 1 < f.e1
    requires |f.joint| > 0 && |f.a| < |target| && f.joint[0] != target[0] && f.joint[0] != target[|f.a|]
    requires last == 0 || last == f.e0 || last == f.p3 + 1 || last == f.e1
    requires last == 0 ==> x == f.a
    requires last == f.e0 ==> x != [] && x[0] == f.joint[0]
    requires last == f.p3 + 1 ==> x == f.b
    requires last == f.e1 ==> x == []
    requires front == [] ==> j == []
    ensures Harmless(f, target, front + [last], j + x)
  {
    hide Off;
    var js := front + [last];
    if f.e0 in front {
      OffStays(target, j, x);
    } else if last == f.e0 {
      assert Below(front, f.p3 + 1);
      OffAtJoint(target, j, x);
    } else if last == 0 {
      if front != [] { SomeIsNotBelow(front); }
      assert j + x == f.a;
    } else if last == f.p3 + 1 {
      assert Below(front, f.p3 + 1) && !(js[|js| - 1] < f.p3 + 1);
    } else {
      assert j + x == j && !(js[|js| - 1] < f.p3 + 1);
    }
  }

  lemma FileOpener(o: Setting, f: File, j: nat)
    requires Pythonic(o) && Readable(o.py, f.s) && f.Valid() && j < |f.text| && Opens(f.text[j])
    ensures j == 0 || j == f.e0 || j == f.p3 + 1 || j == f.e1
  {
    hide Encode, SourceText, Holds, Readable, Pythonic, PlainChar;
    FileChars(o, f);
    OpensIsNotPlain(f.text[j]);
  }

  lemma SelectionFront(text: Text, js: seq<nat>)
    requires Selection(text, js) && js != []
    ensures var front, last := js[..|js| - 1], js[|js| - 1];
            && js == front + [last] && Selection(text, front) && Below(front, last) && last < |text| && Opens(text[last])
            && Joined(text, js) == Joined(text, front) + Piece(text, last)
  {
    hide Piece;
    var front := js[..|js| - 1];
    assert forall i :: 0 <= i < |front| ==> front[i] == js[i];
  }

  /** What the quotes of the file can be joined to. */
  lemma {:induction false} FileJoins(o: Setting, f: File, target: Text, js: seq<nat>)
    requires Pythonic(o) && Readable(o.py, f.s) && f.Valid() && Selection(f.text, js)
    requires |f.a| < |target| && f.joint[0] != target[0] && f.joint[0] != target[|f.a|]
    ensures Harmless(f, target, js, Joined(f.text, js))
    decreases |js|
  {
    hide Encode, SourceText, Holds, Readable, Pythonic, Piece, PlainChar, Off, Harmless, Selection;
    if js == [] {
      HarmlessNothing(f, target);
    } else {
      SelectionFront(f.text, js);
      var front, last := js[..|js| - 1], js[|js| - 1];
      FileOpener(o, f, last);
      FilePieces(f);
      FileJoins(o, f, target, front);
      HarmlessStep(f, target, front, Joined(f.text, front), last, Piece(f.text, last));
    }
  }

  lemma HarmlessNothing(f: File, target: Text)
    ensures Harmless(f, target, [], [])
  {
  }

  lemma OpensIsNotPlain(c: int)
    requires Opens(c)
    ensures !PlainChar(c)
  {
  }

  lemma OffAtJoint(target: Text, j: Text, x: Text)
    requires |j| < |target| && x != [] && x[0] != target[|j|]
    ensures Off(target, j + x)
  {
    assert (j + x)[|j|] == x[0];
  }

  lemma HarmlessIsNoPrefix(f: File, target: Text, js: seq<nat>, x: Text)
    requires Harmless(f, target, js, x) && |f.a| + |f.b| < |target|
    ensures !(target <= x)
  {
    if f.e0 in js { OffIsNoPrefix(target, x); }
  }

  lemma FileIsRefused(o: Setting, f: File, target: Text)
    requires Pythonic(o) && Readable(o.py, f.s) && f.Valid()
    requires |f.a| + |f.b| < |target| && f.joint[0] != target[0] && f.joint[0] != target[|f.a|]
    ensures !SpellsPrefix(f.text, |f.text|, target)
  {
    hide Encode, SourceText, Holds, Readable, Pythonic, Joined, Off;
    forall js | Selection(f.text, js) ensures !(target <= Joined(f.text, js)) {
      FileJoins(o, f, target, js);
      HarmlessIsNoPrefix(f, target, js, Joined(f.text, js));
    }
  }

  /** A stringified constant stands in the target. */
  ghost predicate Stands(py: Python, target: Text, at: nat, s: Source) {
    && at < |target| && SourceValue(py, s).Known? && Stringifies(py, SourceValue(py, s).v)
    && Agree(target[at..], JavascriptString(py, SourceValue(py, s).v).value)
  }

  lemma StandsIffNotFree(py: Python, target: Text)
    ensures !PrimitiveFree(py, target) <==> exists at: nat, s :: Stands(py, target, at, s)
  {
    hide JavascriptString, Agree, SourceValue;
    if !PrimitiveFree(py, target) {
      var at: nat, v: Value :| at < |target| && Stringifies(py, v) && Agree(target[at..], JavascriptString(py, v).value);
      var s :| SourceValue(py, s) == Known(v);
      assert Stands(py, target, at, s);
    }
  }

  /** The file whose first string, constant and second string spell the target. */
  function MissedFile(py: Python, target: Text, at: nat, s: Source): File
    requires at < |target| && SourceValue(py, s).Known? && JavascriptString(py, SourceValue(py, s).v).Some?
  {
    var str, tail := JavascriptString(py, SourceValue(py, s).v).value, target[at..];
    FileOf(target[..at], Joint(target[0], target[at]), s, if |tail| <= |str| then [] else tail[|str|..])
  }

  /** It requests the target, however it is lexed, and the prefilter refuses it. */
  lemma RequestIsMissed(o: Setting, target: Text, at: nat, s: Source)
    requires Pythonic(o) && Stands(o.py, target, at, s)
    ensures var text := MissedFile(o.py, target, at, s).text;
            && PlainText(o, text) && !SpellsPrefix(text, |text|, target)
            && forall passed, tokens :: Result(o, text, passed, tokens) ==> SlowPathFinds(o.py, tokens, target)
  {
    hide JavascriptString, SourceValue, Encode, SourceText, Holds, Readable, Pythonic, Result, SpellsPrefix, PlainText, ConstantExpressionValue;
    var str := JavascriptString(o.py, SourceValue(o.py, s).v).value;
    KnownIsReadable(o.py, s);
    var f := MissedFile(o.py, target, at, s);
    FileIsValid(f.a, f.joint, s, f.b);
    FileIsPlain(o, f);
    FileIsRefused(o, f, target);
    AgreeSpells(target, at, str);
    forall passed, tokens | Result(o, f.text, passed, tokens) ensures SlowPathFinds(o.py, tokens, target) {
      FileEvaluates(o, f, passed, tokens);
      assert tokens[0..|tokens|] == tokens;
      assert RequestAt(o.py, tokens, 0, |tokens|, target);
    }
  }

  lemma AgreeSpells(target: Text, at: nat, str: Text)
    requires at < |target| && Agree(target[at..], str)
    ensures var tail := target[at..]; target <= target[..at] + str + (if |tail| <= |str| then [] else tail[|str|..])
  {
    var tail := target[at..];
    assert target == target[..at] + tail;
    if |tail| > |str| { assert tail == str + tail[|str|..]; }
  }

  /** The prefilter misses no request for the target, in any file, exactly when no stringified
      constant can stand at an offset of the target. */
  lemma MissesNothingIff(o: Setting, target: Text)
    requires Pythonic(o)
    ensures PrimitiveFree(o.py, target) <==>
            forall text, passed, tokens ::
              Result(o, text, passed, tokens) && SlowPathFinds(o.py, tokens, target) ==> SpellsPrefix(text, |text|, target)
  {
    hide PrimitiveFree, SlowPathFinds, SpellsPrefix, MissedFile, JavascriptString, SourceValue, Reaches, StretchesOk, LineOk,
         AllExplained, Pythonic, Sourced;
    if PrimitiveFree(o.py, target) {
      forall text, passed, tokens | Result(o, text, passed, tokens) && SlowPathFinds(o.py, tokens, target)
        ensures SpellsPrefix(text, |text|, target) {
        PrefilterMissesNothing(o.py, text, tokens, target);
      }
    } else {
      StandsIffNotFree(o.py, target);
      var at: nat, s :| Stands(o.py, target, at, s);
      RequestIsMissed(o, target, at, s);
      var text := MissedFile(o.py, target, at, s).text;
      PythonicIsSensible(o);
      var passed, tokens := PlainTextIsLexed(o, text);
      assert Result(o, text, passed, tokens) && SlowPathFinds(o.py, tokens, target) && !SpellsPrefix(text, |text|, target);
    }
  }
}
