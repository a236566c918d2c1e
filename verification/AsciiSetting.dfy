/** A setting of the TypeScript lexer that knows ASCII: the arbitrary parameters of the model
    have values. */
module AsciiSetting {
  import opened Text
  import opened JsStrings
  import opened Tokens
  import opened ConstEval
  import opened LexerLines

  predicate AsciiLetter(c: int) { 65 <= c <= 90 || 97 <= c <= 122 }

  /** A setting that knows ASCII, and that the superscript two is a digit; regexes start
      wherever a slash stands, and nothing is JSX. */
  const ASCII: Setting := Setting(
    false,
    c => AsciiLetter(c),
    c => AsciiLetter(c) || IsDigit(c),
    c => 9 <= c <= 13 || c == SPACE,
    (tokens, n) => true,
    (tokens, i, n) => false,
    Python(
      c => IsDigit(c) || c == 0xB2,
      t => if t == [49] then Some(1) else None,
      t => None,
      (n: nat) => Some(Decimal(n)),
      id => Lit("0.0"),
      id => true,
      (l, r) => None))
}
