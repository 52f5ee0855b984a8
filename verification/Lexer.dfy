/** The lexer: the longest match of the token rules at each position, the earlier rule on a tie.
    White space separates tokens; a character that no rule matches is reported and skipped. */
module Lexer {
  import opened Numbers
  import opened Options
  import opened Seqs
  import opened Syntax

  predicate IsLetter(c: char) { 'a' <= c <= 'z' || 'A' <= c <= 'Z' || c == '_' }

  predicate IsWord(c: char) { IsLetter(c) || IsDigit(c) }

  predicate IsSpace(c: char) { c == ' ' || c == '\t' || c == '\n' }

  /** The length of the longest prefix of characters of one kind. */
  function Span(s: string, p: char -> bool): (n: nat)
    ensures n <= |s| && (forall i :: 0 <= i < n ==> p(s[i])) && (n < |s| ==> !p(s[n]))
  {
    if s != "" && p(s[0]) then 1 + Span(s[1..], p) else 0
  }

  /** The end of a string literal whose text continues at `i`: a backslash takes the next character
      (not a line end) with it, and the first other quote ends the literal. */
  function LiteralEnd(s: string, i: nat): (r: Option<nat>)
    ensures r.Some? ==> i < r.value <= |s|
    decreases |s| - i
  {
    if i >= |s| then None
    else if s[i] == '\'' then Some(i + 1)
    else if s[i] == '\\' then
      if i + 1 < |s| && s[i + 1] != '\n' then LiteralEnd(s, i + 2) else None
    else LiteralEnd(s, i + 1)
  }

  function Word(w: string): Token {
    if w == "null" then NullWord
    else if w == "true" then TrueWord
    else if w == "false" then FalseWord
    else Identifier(w)
  }

  function Two(s: string): Option<Token> {
    if |s| < 2 then None
    else if s[..2] == "==" then Some(Operator(Eq))
    else if s[..2] == "!=" then Some(Operator(Ne))
    else if s[..2] == ">=" then Some(Operator(Ge))
    else if s[..2] == "<=" then Some(Operator(Le))
    else if s[..2] == "&&" then Some(Operator(And))
    else if s[..2] == "||" then Some(Operator(BitOr))
    else None
  }

  function OneChar(c: char): Option<Token> {
    match c
    case '(' => Some(LeftPar) case ')' => Some(RightPar)
    case '[' => Some(LeftSquare) case ']' => Some(RightSquare)
    case '{' => Some(LeftBrace) case '}' => Some(RightBrace)
    case '>' => Some(Operator(Gt)) case '<' => Some(Operator(Lt))
    case '&' => Some(Operator(BitAnd)) case '|' => Some(Operator(BitOr))
    case '+' => Some(Operator(Add)) case '-' => Some(Operator(Sub))
    case '*' => Some(Operator(Mul)) case '/' => Some(Operator(Div))
    case ':' => Some(Colon) case ',' => Some(Comma) case '$' => Some(Dollar)
    case '!' => Some(Bang) case '?' => Some(Question) case '.' => Some(Dot)
    case _ => None
  }

  /** The token at the start of the input, if there is one, and the characters taken. */
  function Match(s: string): (r: (Option<Token>, nat))
    requires s != ""
    ensures 1 <= r.1 <= |s|
  {
    if IsLetter(s[0]) then
      var n := Span(s, IsWord);
      (Some(Word(s[..n])), n)
    else if IsDigit(s[0]) then
      var n := Span(s, IsDigit);
      var m := if n < |s| && s[n] == '.' then Span(s[n + 1..], IsDigit) else 0;
      if m > 0 then (Some(Decimals(s[..n + 1 + m])), n + 1 + m) else (Some(Whole(s[..n])), n)
    else if s[0] == '\'' && LiteralEnd(s, 1).Some? then
      var n := LiteralEnd(s, 1).value;
      (Some(Quoted(s[..n])), n)
    else if Two(s).Some? then (Two(s), 2)
    else (OneChar(s[0]), 1)
  }

  function Lex(s: string): (r: seq<Token>)
    ensures r != [] && r[|r| - 1] == End
    decreases |s|
  {
    if s == "" then [End]
    else if IsSpace(s[0]) then Lex(s[1..])
    else
      var (t, n) := Match(s);
      (if t.Some? then [t.value] else []) + Lex(s[n..])
  }

  // ---- writing tokens down ----

  function OpText(op: Op): string {
    match op
    case Add => "+" case Sub => "-" case Mul => "*" case Div => "/"
    case BitAnd => "&" case BitOr => "|" case And => "&&" case Or => "||"
    case Eq => "==" case Ne => "!=" case Gt => ">" case Lt => "<" case Ge => ">=" case Le => "<="
  }

  function Text(t: Token): string {
    match t
    case LeftPar => "(" case RightPar => ")"
    case LeftSquare => "[" case RightSquare => "]"
    case LeftBrace => "{" case RightBrace => "}"
    case Operator(op) => OpText(op)
    case Question => "?" case Colon => ":" case Comma => "," case Dollar => "$"
    case Bang => "!" case Dot => "."
    case NullWord => "null" case TrueWord => "true" case FalseWord => "false"
    case Identifier(name) => name
    case Quoted(raw) => raw
    case Whole(digits) => digits
    case Decimals(digits) => digits
    case End => ""
  }

  /** Tokens are separated by blanks. */
  function Render(ts: seq<Token>): string {
    if ts == [] then "" else Text(ts[0]) + " " + Render(ts[1..])
  }

  predicate IsName(s: string) {
    s != "" && IsLetter(s[0]) && (forall i :: 0 <= i < |s| ==> IsWord(s[i])) && Word(s) == Identifier(s)
  }

  predicate IsNumeral(s: string) {
    s != "" && forall i :: 0 <= i < |s| ==> IsDigit(s[i])
  }

  predicate IsDecimals(s: string) {
    exists n :: 0 < n < |s| - 1 && s[n] == '.' && IsNumeral(s[..n]) && IsNumeral(s[n + 1..])
  }

  /** Text between quotes whose own quotes and backslashes are escaped. */
  predicate IsLiteral(raw: string) {
    raw != "" && raw[0] == '\'' && LiteralEnd(raw, 1) == Some(|raw|)
  }

  predicate Lexable(t: Token) {
    match t
    case Identifier(name) => IsName(name)
    case Quoted(raw) => IsLiteral(raw)
    case Whole(digits) => IsNumeral(digits)
    case Decimals(digits) => IsDecimals(digits)
    case Operator(op) => op != Or
    case End => false
    case _ => true
  }

  lemma SpanIs(s: string, p: char -> bool, n: nat)
    requires n <= |s| && (forall i :: 0 <= i < n ==> p(s[i])) && (n < |s| ==> !p(s[n]))
    ensures Span(s, p) == n
  {
  }

  lemma {:induction false} LiteralEndPrefix(s: string, more: string, i: nat)
    requires LiteralEnd(s, i).Some?
    ensures LiteralEnd(s + more, i) == LiteralEnd(s, i)
    decreases |s| - i
  {
    if s[i] == '\\' { LiteralEndPrefix(s, more, i + 2); }
    else if s[i] != '\'' { LiteralEndPrefix(s, more, i + 1); }
  }

  lemma MatchSymbol(t: Token, rest: string)
    requires Lexable(t) && !t.Identifier? && !t.Quoted? && !t.Whole? && !t.Decimals?
    requires !IsReserved(t)
    ensures !IsSpace(Text(t)[0]) && Match(Text(t) + " " + rest) == (Some(t), |Text(t)|)
  {
    if |Text(t)| == 2 { MatchPair(t.op, rest); } else { MatchSingle(t, rest); }
  }

  lemma MatchPair(op: Op, rest: string)
    requires op != Or && |OpText(op)| == 2
    ensures !IsSpace(OpText(op)[0]) && Match(OpText(op) + " " + rest) == (Some(Operator(op)), 2)
  {
    assert (OpText(op) + " " + rest)[..2] == OpText(op);
  }

  lemma MatchSingle(t: Token, rest: string)
    requires |Text(t)| == 1 && !t.Identifier? && !t.Quoted? && !t.Whole? && !t.Decimals?
    ensures !IsSpace(Text(t)[0]) && Match(Text(t) + " " + rest) == (Some(t), 1)
  {
    var s := Text(t) + " " + rest;
    assert s[..2][1] == ' ' && s[0] == Text(t)[0];
    assert Two(s).None?;
  }

  lemma MatchWord(w: string, rest: string)
    requires w != "" && IsLetter(w[0]) && forall i :: 0 <= i < |w| ==> IsWord(w[i])
    ensures Match(w + " " + rest) == (Some(Word(w)), |w|)
  {
    SpanIs(w + " " + rest, IsWord, |w|);
    assert (w + " " + rest)[..|w|] == w;
  }

  lemma MatchWhole(d: string, rest: string)
    requires IsNumeral(d)
    ensures Match(d + " " + rest) == (Some(Whole(d)), |d|)
  {
    var s := d + " " + rest;
    assert s[..|d|] == d && s[|d|] == ' ';
    SpanIs(s, IsDigit, |d|);
  }

  lemma DecimalParts(a: string, b: string, rest: string)
    ensures var s := a + "." + b + " " + rest;
      && s[..|a|] == a && s[|a|] == '.' && s[|a| + 1..] == b + " " + rest && s[..|a| + 1 + |b|] == a + "." + b
  {
  }

  lemma MatchDecimals(a: string, b: string, rest: string)
    requires IsNumeral(a) && IsNumeral(b)
    ensures Match(a + "." + b + " " + rest) == (Some(Decimals(a + "." + b)), |a + "." + b|)
  {
    var s := a + "." + b + " " + rest;
    DecimalParts(a, b, rest);
    assert forall i :: 0 <= i < |a| ==> s[i] == a[i];
    SpanIs(s, IsDigit, |a|);
    SpanIs(b + " " + rest, IsDigit, |b|);
  }

  lemma MatchNumber(d: string, rest: string)
    requires IsDecimals(d)
    ensures IsDigit(d[0]) && Match(d + " " + rest) == (Some(Decimals(d)), |d|)
  {
    var n :| 0 < n < |d| - 1 && d[n] == '.' && IsNumeral(d[..n]) && IsNumeral(d[n + 1..]);
    assert d == d[..n] + "." + d[n + 1..] && d[0] == d[..n][0];
    MatchDecimals(d[..n], d[n + 1..], rest);
  }

  lemma MatchQuoted(raw: string, rest: string)
    requires IsLiteral(raw)
    ensures Match(raw + " " + rest) == (Some(Quoted(raw)), |raw|)
  {
    LiteralEndPrefix(raw, " " + rest, 1);
    assert raw + " " + rest == raw + (" " + rest);
    assert (raw + " " + rest)[..|raw|] == raw;
  }

  predicate IsReserved(t: Token) {
    t == NullWord || t == TrueWord || t == FalseWord
  }

  lemma MatchReserved(t: Token, rest: string)
    requires IsReserved(t)
    ensures IsLetter(Text(t)[0]) && Match(Text(t) + " " + rest) == (Some(t), |Text(t)|)
  {
    MatchWord(Text(t), rest);
  }

  lemma MatchToken(t: Token, rest: string)
    requires Lexable(t)
    ensures Text(t) != "" && !IsSpace(Text(t)[0])
    ensures Match(Text(t) + " " + rest) == (Some(t), |Text(t)|)
  {
    if IsReserved(t) {
      MatchReserved(t, rest);
    } else {
      match t
      case Identifier(name) => MatchWord(name, rest);
      case Whole(d) => MatchWhole(d, rest);
      case Decimals(d) => MatchNumber(d, rest);
      case Quoted(raw) => MatchQuoted(raw, rest);
      case _ => MatchSymbol(t, rest);
    }
  }

  /** The lexer takes a token that was written down, and the blank after it. */
  lemma LexOne(t: Token, rest: string)
    requires Lexable(t)
    ensures Lex(Text(t) + " " + rest) == [t] + Lex(rest)
  {
    var s := Text(t) + " " + rest;
    MatchToken(t, rest);
    assert s[0] == Text(t)[0];
    assert s[|Text(t)|..] == " " + rest;
    assert (" " + rest)[1..] == rest;
  }

  /** Lexing what was written down gives the tokens back. */
  lemma {:induction false} LexInvertsRender(ts: seq<Token>)
    requires forall t :: t in ts ==> Lexable(t)
    ensures Lex(Render(ts)) == ts + [End]
  {
    if ts != [] {
      LexOne(ts[0], Render(ts[1..]));
      LexInvertsRender(ts[1..]);
      Assoc([ts[0]], ts[1..], [End]);
      assert ts == [ts[0]] + ts[1..];
    }
  }

  // ---- the match is the longest ----

  predicate IsWordText(text: string) {
    text != "" && IsLetter(text[0]) && forall i :: 0 <= i < |text| ==> IsWord(text[i])
  }

  /** The texts that some rule matches; any single character has a rule. */
  predicate IsLexeme(text: string) {
    IsWordText(text) || IsNumeral(text) || IsDecimals(text) || IsLiteral(text) || (|text| == 2 && Two(text).Some?) ||
    |text| == 1
  }

  lemma SpanAtLeast(s: string, p: char -> bool, m: nat)
    requires m <= |s| && forall i :: 0 <= i < m ==> p(s[i])
    ensures m <= Span(s, p)
  {
  }

  lemma WordFits(s: string, m: nat)
    requires 0 < m <= |s| && IsWordText(s[..m])
    ensures m <= Match(s).1
  {
    assert s[..m][0] == s[0];
    forall i | 0 <= i < m ensures IsWord(s[i]) { assert s[..m][i] == s[i]; }
    SpanAtLeast(s, IsWord, m);
  }

  lemma NumeralFits(s: string, m: nat)
    requires 0 < m <= |s| && IsNumeral(s[..m])
    ensures m <= Match(s).1
  {
    forall i | 0 <= i < m ensures IsDigit(s[i]) { assert s[..m][i] == s[i]; }
    SpanAtLeast(s, IsDigit, m);
  }

  lemma DecimalsFit(s: string, m: nat)
    requires 0 < m <= |s| && IsDecimals(s[..m])
    ensures m <= Match(s).1
  {
    var t := s[..m];
    var k :| 0 < k < |t| - 1 && t[k] == '.' && IsNumeral(t[..k]) && IsNumeral(t[k + 1..]);
    forall i | 0 <= i < k ensures IsDigit(s[i]) { assert t[..k][i] == s[i]; }
    SpanIs(s, IsDigit, k);
    var tail, digits := s[k + 1..], t[k + 1..];
    forall i | 0 <= i < |digits| ensures IsDigit(tail[i]) { assert digits[i] == tail[i]; }
    SpanAtLeast(tail, IsDigit, |digits|);
  }

  lemma LiteralFits(s: string, m: nat)
    requires 0 < m <= |s| && IsLiteral(s[..m])
    ensures m <= Match(s).1
  {
    LiteralEndPrefix(s[..m], s[m..], 1);
    assert s[..m] + s[m..] == s;
    assert s[..m][0] == s[0];
  }

  lemma PairFits(s: string)
    requires |s| >= 2 && Two(s[..2]).Some?
    ensures 2 <= Match(s).1
  {
    assert s[..2][..2] == s[..2] && s[..2][0] == s[0];
  }

  /** The text taken is matched by a rule, and no longer start of the input is. */
  lemma MatchIsLongest(s: string)
    requires s != ""
    ensures IsLexeme(s[..Match(s).1])
    ensures forall m :: 0 < m <= |s| && IsLexeme(s[..m]) ==> m <= Match(s).1
  {
    MatchIsLexeme(s);
    forall m | 0 < m <= |s| && IsLexeme(s[..m]) ensures m <= Match(s).1 {
      if IsWordText(s[..m]) { WordFits(s, m); }
      else if IsNumeral(s[..m]) { NumeralFits(s, m); }
      else if IsDecimals(s[..m]) { DecimalsFit(s, m); }
      else if IsLiteral(s[..m]) { LiteralFits(s, m); }
      else if m == 2 { PairFits(s); }
    }
  }

  lemma MatchIsLexeme(s: string)
    requires s != ""
    ensures IsLexeme(s[..Match(s).1])
  {
    var n, t := Match(s).1, s[..Match(s).1];
    assert forall i :: 0 <= i < n ==> t[i] == s[i];
    if IsDigit(s[0]) {
      NumberIsLexeme(s);
    } else if s[0] == '\'' && LiteralEnd(s, 1).Some? {
      LiteralEndWithin(s, n, 1);
    } else if !IsLetter(s[0]) && Two(s).Some? {
      assert s[..2][..2] == s[..2];
    }
  }

  lemma NumberIsLexeme(s: string)
    requires s != "" && IsDigit(s[0])
    ensures IsLexeme(s[..Match(s).1])
  {
    var n, t := Span(s, IsDigit), s[..Match(s).1];
    assert t[..n] == s[..n] && IsNumeral(s[..n]);
    if |t| > n {
      assert t[n] == '.' && t[n + 1..] == s[n + 1..][..|t| - n - 1];
      assert IsNumeral(t[n + 1..]);
      assert IsDecimals(t);
    } else {
      assert t == s[..n];
    }
  }

  lemma {:induction false} LiteralEndWithin(s: string, n: nat, i: nat)
    requires LiteralEnd(s, i) == Some(n)
    ensures LiteralEnd(s[..n], i) == Some(n)
    decreases |s| - i
  {
    if s[i] == '\\' { LiteralEndWithin(s, n, i + 2); }
    else if s[i] != '\'' { LiteralEndWithin(s, n, i + 1); }
  }

  /** The lexer never produces the token of `||`: both bars together are read as `|`. */
  lemma {:induction false} NoOrToken(s: string)
    ensures forall t :: t in Lex(s) ==> t != Operator(Or)
    decreases |s|
  {
    if s != "" {
      NoOrToken(if IsSpace(s[0]) then s[1..] else s[Match(s).1..]);
    }
  }

  lemma TwoAlone(s: string)
    requires |s| == 2 && !IsSpace(s[0]) && Match(s) == (Two(s), 2) && Two(s).Some?
    ensures Lex(s) == [Two(s).value, End]
  {
    assert s[2..] == "";
  }

  lemma OneAlone(s: string)
    requires |s| == 1 && !IsSpace(s[0]) && Match(s) == (OneChar(s[0]), 1) && OneChar(s[0]).Some?
    ensures Lex(s) == [OneChar(s[0]).value, End]
  {
    assert s[1..] == "";
  }

  /** The texts of two characters; `||` is the operator of `|`. */
  lemma TwoCharacterTexts()
    ensures Lex("==") == [Operator(Eq), End] && Lex("!=") == [Operator(Ne), End]
    ensures Lex(">=") == [Operator(Ge), End] && Lex("<=") == [Operator(Le), End]
    ensures Lex("&&") == [Operator(And), End] && Lex("||") == [Operator(BitOr), End]
  {
    TwoAlone("==");
    TwoAlone("!=");
    TwoAlone(">=");
    TwoAlone("<=");
    TwoAlone("&&");
    TwoAlone("||");
  }

  lemma OperatorTexts()
    ensures Lex("+") == [Operator(Add), End] && Lex("-") == [Operator(Sub), End]
    ensures Lex("*") == [Operator(Mul), End] && Lex("/") == [Operator(Div), End]
    ensures Lex("&") == [Operator(BitAnd), End] && Lex("|") == [Operator(BitOr), End]
    ensures Lex(">") == [Operator(Gt), End] && Lex("<") == [Operator(Lt), End]
  {
    OneAlone("+");
    OneAlone("-");
    OneAlone("*");
    OneAlone("/");
    OneAlone("&");
    OneAlone("|");
    OneAlone(">");
    OneAlone("<");
  }

  lemma SignTexts()
    ensures Lex("(") == [LeftPar, End] && Lex(")") == [RightPar, End]
    ensures Lex("[") == [LeftSquare, End] && Lex("]") == [RightSquare, End]
    ensures Lex("{") == [LeftBrace, End] && Lex("}") == [RightBrace, End]
    ensures Lex("!") == [Bang, End] && Lex("?") == [Question, End] && Lex(":") == [Colon, End]
    ensures Lex(",") == [Comma, End] && Lex("$") == [Dollar, End] && Lex(".") == [Dot, End]
  {
    OneAlone("(");
    OneAlone(")");
    OneAlone("[");
    OneAlone("]");
    OneAlone("{");
    OneAlone("}");
    OneAlone("!");
    OneAlone("?");
    OneAlone(":");
    OneAlone(",");
    OneAlone("$");
    OneAlone(".");
  }

  lemma LexStep(s: string, t: Token, n: nat)
    requires s != "" && !IsSpace(s[0]) && Match(s) == (Some(t), n)
    ensures n <= |s| && Lex(s) == [t] + Lex(s[n..])
  {
  }

  lemma WordAlone(s: string)
    requires s != "" && !IsSpace(s[0]) && Match(s) == (Some(Word(s)), |s|)
    ensures Lex(s) == [Word(s), End]
  {
    LexStep(s, Word(s), |s|);
    assert s[|s|..] == "" && Lex("") == [End];
  }

  lemma LettersMatch(s: string)
    requires s != "" && IsLetter(s[0]) && forall i :: 0 <= i < |s| ==> IsWord(s[i])
    ensures Match(s) == (Some(Word(s)), |s|)
  {
    SpanIs(s, IsWord, |s|);
    assert s[..|s|] == s;
  }

  lemma KeywordTexts()
    ensures Lex("null") == [NullWord, End] && Lex("true") == [TrueWord, End] && Lex("false") == [FalseWord, End]
  {
    LettersMatch("null");
    WordAlone("null");
    LettersMatch("true");
    WordAlone("true");
    LettersMatch("false");
    WordAlone("false");
  }
}
