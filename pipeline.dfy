/**
 * The assembler and the virtual machine together, on the programs of the
 * repository's own unit tests: what the lexer, the parser, the program
 * encoder and the machine make of them.
 *
 * The end-to-end `endianess` test expects `LOAD $1 #500` to load 500, but the
 * encoder writes the first operand three times, so the bytecode is
 * `[1, 1, 1, 1]` and register 1 receives 257. `EndiannessAsWritten` shows
 * this; `EndiannessIntended` shows that the encoder that writes each operand
 * once loads 500.
 */
module Pipeline {
  import opened Wrappers
  import opened Numeric
  import opened Instruction
  import opened Lexer
  import opened Parser
  import opened Program
  import opened Vm

  /** A run of `tokenize` with one more token in front. */
  function Prepend(t: Token, r: LexRun): LexRun
  {
    match r
    case LexPanic => LexPanic
    case Lexed(ts, p, l, sol) => Lexed([t] + ts, p, l, sol)
  }

  /** A token other than `Eof` is followed by the rest of the stream. */
  lemma LexAfterScan(s: string, pos: nat, line: nat, startOfLine: nat, kind: TokenKind, e: nat, l: nat, sol: nat)
    requires pos <= |s| && ScanKind(s, pos, line, startOfLine) == Scanned(kind, e, l, sol) && kind != Eof
    ensures pos < e <= |s|
    ensures LexFrom(s, pos, line, startOfLine) == Prepend(Token(kind, pos, e, e - pos), LexFrom(s, e, l, sol))
  {
  }

  /**
   * A token other than `Eof` after the separators from `q`: its span starts
   * at `q`, and the separators move the line count.
   */
  lemma LexTokenAfter(s: string, q: nat, p: nat, line: nat, startOfLine: nat, kind: TokenKind, e: nat)
    requires q <= p <= |s| && forall i :: q <= i < p ==> IsSeparator(s[i])
    requires var l, sol := line + CountNewlines(s, q, p), LineStartAfter(s, q, p, startOfLine);
             ScanKind(s, p, l, sol) == Scanned(kind, e, l, sol) && kind != Eof
    ensures q < e <= |s|
    ensures var l, sol := line + CountNewlines(s, q, p), LineStartAfter(s, q, p, startOfLine);
            LexFrom(s, q, line, startOfLine) == Prepend(Token(kind, q, e, e - q), LexFrom(s, e, l, sol))
  {
    var l, sol := line + CountNewlines(s, q, p), LineStartAfter(s, q, p, startOfLine);
    SkipSeparators(s, q, p, line, startOfLine);
    LexAfterScan(s, q, line, startOfLine, kind, e, l, sol);
  }

  /** `LexTokenAfter` with the rest of the stream already known. */
  lemma LexPrependAfter(s: string, q: nat, p: nat, line: nat, startOfLine: nat, kind: TokenKind, e: nat, tail: LexRun)
    requires q <= p <= |s| && forall i :: q <= i < p ==> IsSeparator(s[i])
    requires var l, sol := line + CountNewlines(s, q, p), LineStartAfter(s, q, p, startOfLine);
             && ScanKind(s, p, l, sol) == Scanned(kind, e, l, sol) && kind != Eof
             && e <= |s| && LexFrom(s, e, l, sol) == tail
    ensures LexFrom(s, q, line, startOfLine) == Prepend(Token(kind, q, e, e - q), tail)
  {
    LexTokenAfter(s, q, p, line, startOfLine, kind, e);
  }

  /** Three tokens put in front of a finished stream, one at a time. */
  lemma PrependThree(pre: seq<Token>, ts: seq<Token>, p: nat, l: nat, sol: nat)
    requires |pre| == 3
    ensures Prepend(pre[0], Prepend(pre[1], Prepend(pre[2], Lexed(ts, p, l, sol)))) == Lexed(pre + ts, p, l, sol)
  {
    assert [pre[0]] + ([pre[1]] + ([pre[2]] + ts)) == pre + ts;
  }

  /** Four tokens put in front of a finished stream, one at a time. */
  lemma PrependFour(pre: seq<Token>, ts: seq<Token>, p: nat, l: nat, sol: nat)
    requires |pre| == 4
    ensures Prepend(pre[0], Prepend(pre[1], Prepend(pre[2], Prepend(pre[3], Lexed(ts, p, l, sol))))) == Lexed(pre + ts, p, l, sol)
  {
    assert [pre[0]] + ([pre[1]] + ([pre[2]] + ([pre[3]] + ts))) == pre + ts;
  }

  /** The decimal numerals of the tests. */
  lemma Decimals()
    ensures AllDigits("0", 10) && DigitsValue("0", 10) == 0
    ensures AllDigits("1", 10) && DigitsValue("1", 10) == 1
    ensures AllDigits("2", 10) && DigitsValue("2", 10) == 2
    ensures AllDigits("500", 10) && DigitsValue("500", 10) == 500
  {
    assert "500"[1..] == "00" && "00"[1..] == "0" && "0"[1..] == [];
    assert Pow(10, 2) == 100 && Pow(10, 1) == 10;
  }

  /** The text of a line `LOAD $d #500`. */
  function LoadLineText(d: nat): string
    requires d < 10
  {
    "LOAD $" + [DigitChar(d)] + " #500"
  }

  /** The three tokens of `LOAD $d #500` at offset `p`; the first starts at `q`, before the separators that precede it. */
  function LoadLineTokens(q: nat, p: nat, d: nat): seq<Token>
    requires q <= p && d < 10
  {
    [Token(Operation(LOAD), q, p + 4, p + 4 - q), Token(Register(d), p + 4, p + 7, 3), Token(IntegerOperand(500), p + 7, p + 12, 5)]
  }

  /** The characters of `LOAD $d #500` at offset `p`, one by one. */
  lemma LoadLineChars(s: string, p: nat, d: nat)
    requires d < 10 && p + 12 <= |s| && s[p..p + 12] == LoadLineText(d)
    ensures s[p..p + 4] == "LOAD" && s[p + 4] == ' ' && s[p + 5] == '$' && s[p + 6] == DigitChar(d)
    ensures s[p + 7] == ' ' && s[p + 8] == '#' && s[p + 9..p + 12] == "500"
  {
    var w := s[p..p + 12];
    assert s[p..p + 4] == w[..4];
    assert s[p + 4] == w[4] && s[p + 5] == w[5] && s[p + 6] == w[6];
    assert s[p + 7] == w[7] && s[p + 8] == w[8];
    assert s[p + 9..p + 12] == [w[9], w[10], w[11]];
  }

  /** One space changes neither the line count nor the line's start. */
  lemma OneSpace(s: string, p: nat, startOfLine: nat)
    requires p < |s| && s[p] == ' '
    ensures CountNewlines(s, p, p + 1) == 0 && LineStartAfter(s, p, p + 1, startOfLine) == startOfLine
  {
  }

  /** The integer token ` #500` after one space. */
  lemma LexSpaced500(s: string, p: nat, line: nat, startOfLine: nat)
    requires p + 5 <= |s| && s[p] == ' ' && s[p + 1] == '#' && s[p + 2..p + 5] == "500"
    requires p + 5 == |s| || IsSeparator(s[p + 5])
    ensures LexFrom(s, p, line, startOfLine) ==
              Prepend(Token(IntegerOperand(500), p, p + 5, 5), LexFrom(s, p + 5, line, startOfLine))
  {
    Decimals();
    ScanIntegerLiteral(s, p + 1, p + 5, line, startOfLine);
    OneSpace(s, p, startOfLine);
    LexTokenAfter(s, p, p + 1, line, startOfLine, IntegerOperand(500), p + 5);
  }

  /** The line `LOAD $d #500` at offset `p`, ended by a separator or the end of the text, is three tokens. */
  lemma LexLoadLine(s: string, p: nat, d: nat, line: nat, startOfLine: nat)
    requires d < 10 && p + 12 <= |s| && s[p..p + 12] == LoadLineText(d)
    requires p + 12 == |s| || IsSeparator(s[p + 12])
    ensures ScanKind(s, p, line, startOfLine) == Scanned(Operation(LOAD), p + 4, line, startOfLine)
    ensures LexFrom(s, p + 4, line, startOfLine) ==
              Prepend(Token(Register(d), p + 4, p + 7, 3),
                Prepend(Token(IntegerOperand(500), p + 7, p + 12, 5), LexFrom(s, p + 12, line, startOfLine)))
  {
    LoadLineChars(s, p, d);
    ScanMnemonic(s, p, LOAD, line, startOfLine);
    LexSpaced500(s, p + 7, line, startOfLine);
    LexSpacedRegister(s, p + 4, d, line, startOfLine);
  }

  /**
   * The same line after the separators from `q`: the first token's span
   * begins at `q`, and the separators move the line count.
   */
  lemma LexLoadLineAfter(s: string, q: nat, p: nat, d: nat, line: nat, startOfLine: nat)
    requires d < 10 && q <= p && p + 12 <= |s| && s[p..p + 12] == LoadLineText(d)
    requires forall i :: q <= i < p ==> IsSeparator(s[i])
    requires p + 12 == |s| || IsSeparator(s[p + 12])
    ensures var l, sol := line + CountNewlines(s, q, p), LineStartAfter(s, q, p, startOfLine);
            var ts := LoadLineTokens(q, p, d);
            LexFrom(s, q, line, startOfLine) ==
              Prepend(ts[0], Prepend(ts[1], Prepend(ts[2], LexFrom(s, p + 12, l, sol))))
  {
    var l, sol := line + CountNewlines(s, q, p), LineStartAfter(s, q, p, startOfLine);
    var ts := LoadLineTokens(q, p, d);
    var tail := Prepend(ts[1], Prepend(ts[2], LexFrom(s, p + 12, l, sol)));
    assert ScanKind(s, p, l, sol) == Scanned(Operation(LOAD), p + 4, l, sol) && LexFrom(s, p + 4, l, sol) == tail by {
      LexLoadLine(s, p, d, l, sol);
    }
    assert ts[0] == Token(Operation(LOAD), q, p + 4, p + 4 - q);
    LexPrependAfter(s, q, p, line, startOfLine, Operation(LOAD), p + 4, tail);
  }

  /** A text that is exactly one `LOAD $1 #500` line: three tokens, then `Eof` at its end. */
  lemma LexLoadLineAlone(s: string)
    requires |s| == 12 && s[0..12] == LoadLineText(1)
    ensures Lex(s) == Lexed(LoadLineTokens(0, 0, 1) + [Token(Eof, 12, 12, 0)], 12, 0, 0)
  {
    assert CountNewlines(s, 0, 0) == 0 && LineStartAfter(s, 0, 0, 0) == 0;
    LexLoadLineAfter(s, 0, 0, 1, 0, 0);
    var eof := [Token(Eof, 12, 12, 0)];
    assert LexFrom(s, 12, 0, 0) == Lexed(eof, 12, 0, 0);
    PrependThree(LoadLineTokens(0, 0, 1), eof, 12, 0, 0);
  }

  /** The `opcode_token`, `register_token` and `integer_operand_token` tests: `LOAD $1 #500` is `LOAD`, register 1, 500. */
  lemma LexLoadTest(s: string)
    requires s == "LOAD $1 #500"
    ensures Lex(s) == Lexed(LoadLineTokens(0, 0, 1) + [Token(Eof, 12, 12, 0)], 12, 0, 0)
    ensures Lex(s).tokens[0].kind == Operation(LOAD)
    ensures Lex(s).tokens[1].kind == Register(1)
    ensures Lex(s).tokens[2].kind == IntegerOperand(500)
  {
    LineTexts();
    LexLoadLineAlone(s);
  }

  /** A `LOAD $1 #500` line and its newline: the newline moves the line count before `Eof`. */
  lemma LexLoadLineBreakAlone(s: string)
    requires |s| == 13 && s[0..12] == LoadLineText(1) && s[12] == '\n'
    ensures Lex(s) == Lexed(LoadLineTokens(0, 0, 1) + [Token(Eof, 12, 13, 1)], 13, 1, 13)
  {
    assert CountNewlines(s, 0, 0) == 0 && LineStartAfter(s, 0, 0, 0) == 0;
    LexLoadLineAfter(s, 0, 0, 1, 0, 0);
    var eof := [Token(Eof, 12, 13, 1)];
    assert ScanKind(s, 12, 0, 0) == ScanKind(s, 13, 1, 13) == Scanned(Eof, 13, 1, 13);
    assert LexFrom(s, 12, 0, 0) == Lexed(eof, 13, 1, 13);
    PrependThree(LoadLineTokens(0, 0, 1), eof, 13, 1, 13);
  }

  /** `LOAD $1 #500` followed by a newline, as the `parse_load` test writes it. */
  lemma LexLoadLineBreak(s: string)
    requires s == "LOAD $1 #500\n"
    ensures Lex(s) == Lexed(LoadLineTokens(0, 0, 1) + [Token(Eof, 12, 13, 1)], 13, 1, 13)
  {
    LineTexts();
    assert s[0..12] == "LOAD $1 #500";
    LexLoadLineBreakAlone(s);
  }

  /** The `parse_load` test: the first instruction parsed from `LOAD $1 #500` and a newline is a `LOAD`. */
  method ParseLoadTest() returns (instructions: seq<AssemblyInstruction>)
    ensures |instructions| == 1 && instructions[0].opcode.kind == Operation(LOAD)
    ensures instructions[0] == AssemblyInstruction(Token(Operation(LOAD), 0, 4, 4),
                                 Some(Token(Register(1), 4, 7, 3)), Some(Token(IntegerOperand(500), 7, 12, 5)), None)
  {
    var content := "LOAD $1 #500\n";
    var lexer := new Lexer(content, |content|);
    LexLoadLineBreak(content);
    lexer.Tokenize();
    var parser := new Parser(lexer.tokens);
    assert parser.tokensToParse == LoadLineTokens(0, 0, 1) + [Token(Eof, 12, 13, 1)];
    assert ParseFrom(parser.tokensToParse, 3) == Some([]);
    instructions := parser.Parse();
  }

  /** The two texts of `StaleLineStart`: `"\n\n"` ends on line 2 starting at offset 2, and `"x y"` lexed from there panics. */
  lemma StaleLineStartLex(first: string, second: string)
    requires first == "\n\n" && second == "x y"
    ensures LexFrom(first, 0, 0, 0) == Lexed([Token(Eof, 0, 2, 2)], 2, 2, 2)
    ensures LexFrom(second, 0, 2, 2) == LexPanic
  {
    assert ScanKind(first, 2, 2, 2) == Scanned(Eof, 2, 2, 2);
    assert ScanKind(first, 0, 0, 0) == ScanKind(first, 1, 1, 1) == ScanKind(first, 2, 2, 2);
    assert WordEnd(second, 1) == 1;
    assert second[0..1] == "x";
    assert FromMnemonic("x") == NOP;
  }

  /**
   * `set_content` keeps the start of line: after tokenizing `"\n\n"` it is 2,
   * and in `"x y"` the unknown word `x` is a lexical error at offset 1, whose
   * column `1 - 2` underflows, so the next `tokenize` panics.
   */
  method StaleLineStart() returns (lexer: Lexer)
    ensures lexer.content == "x y" && lexer.cursor == 0 && lexer.line == 2 && lexer.startOfLine == 2
    ensures LexFrom(lexer.content, lexer.cursor, lexer.line, lexer.startOfLine) == LexPanic
  {
    var first, second := "\n\n", "x y";
    StaleLineStartLex(first, second);
    lexer := new Lexer(first, |first|);
    lexer.Tokenize();
    lexer.SetContent(second);
  }

  /** The layout of the `program_length` text: two lines of `LOAD $1 #500`, each ended by a newline. */
  lemma TwoLoadLinesText(s: string)
    requires s == "LOAD $1 #500\nLOAD $1 #500\n"
    ensures |s| == 26 && s[0..12] == LoadLineText(1) && s[12] == '\n'
    ensures s[13..25] == LoadLineText(1) && s[25] == '\n'
  {
    LineTexts();
    assert s[13..] == "LOAD $1 #500\n";
  }

  /** The second of two lines of `LOAD $1 #500`, from the first line's newline. */
  lemma LexSecondLoadLine(s: string)
    requires |s| == 26 && s[12] == '\n' && s[13..25] == LoadLineText(1) && s[25] == '\n'
    ensures LexFrom(s, 12, 0, 0) == Lexed(LoadLineTokens(12, 13, 1) + [Token(Eof, 25, 26, 1)], 26, 2, 26)
  {
    assert CountNewlines(s, 12, 13) == 1 && LineStartAfter(s, 12, 13, 0) == 13;
    LexLoadLineAfter(s, 12, 13, 1, 0, 0);
    var eof := [Token(Eof, 25, 26, 1)];
    assert ScanKind(s, 25, 1, 13) == ScanKind(s, 26, 2, 26) == Scanned(Eof, 26, 2, 26);
    assert LexFrom(s, 25, 1, 13) == Lexed(eof, 26, 2, 26);
    PrependThree(LoadLineTokens(12, 13, 1), eof, 26, 2, 26);
  }

  /** Two lines of `LOAD $1 #500`, each ended by a newline, are six tokens and `Eof` on the third line. */
  lemma LexTwoLoadLines(s: string)
    requires |s| == 26 && s[0..12] == LoadLineText(1) && s[12] == '\n'
    requires s[13..25] == LoadLineText(1) && s[25] == '\n'
    ensures Lex(s) == Lexed(LoadLineTokens(0, 0, 1) + LoadLineTokens(12, 13, 1) + [Token(Eof, 25, 26, 1)], 26, 2, 26)
  {
    var first := LoadLineTokens(0, 0, 1);
    assert Lex(s) == Prepend(first[0], Prepend(first[1], Prepend(first[2], LexFrom(s, 12, 0, 0)))) by {
      assert CountNewlines(s, 0, 0) == 0 && LineStartAfter(s, 0, 0, 0) == 0;
      LexLoadLineAfter(s, 0, 0, 1, 0, 0);
    }
    var rest := LoadLineTokens(12, 13, 1) + [Token(Eof, 25, 26, 1)];
    LexSecondLoadLine(s);
    PrependThree(first, rest, 26, 2, 26);
  }

  /** The decimal digit `d`. */
  function DigitChar(d: nat): char
    requires d < 10
  {
    "0123456789"[d]
  }

  /** A register token ` $d` after one space: the space changes neither the line nor its start. */
  lemma LexSpacedRegister(s: string, p: nat, d: nat, line: nat, startOfLine: nat)
    requires d < 10 && p + 3 <= |s| && s[p] == ' ' && s[p + 1] == '$' && s[p + 2] == DigitChar(d)
    requires p + 3 == |s| || IsSeparator(s[p + 3])
    ensures LexFrom(s, p, line, startOfLine) ==
              Prepend(Token(Register(d), p, p + 3, 3), LexFrom(s, p + 3, line, startOfLine))
  {
    assert s[p + 2..p + 3] == [DigitChar(d)];
    assert [DigitChar(d)][1..] == [];
    assert DigitsValue([DigitChar(d)], 10) == d;
    ScanRegisterLiteral(s, p + 1, p + 3, line, startOfLine);
    OneSpace(s, p, startOfLine);
    LexTokenAfter(s, p, p + 1, line, startOfLine, Register(d), p + 3);
  }

  /** The four tokens of a line `OP $a $b $c` with a three-letter mnemonic at `p`, the first token starting at `q`. */
  function RegisterLineTokens(q: nat, p: nat, op: Opcode, a: nat, b: nat, c: nat): seq<Token>
    requires q <= p && a < 10 && b < 10 && c < 10
  {
    [Token(Operation(op), q, p + 3, p + 3 - q), Token(Register(a), p + 3, p + 6, 3),
     Token(Register(b), p + 6, p + 9, 3), Token(Register(c), p + 9, p + 12, 3)]
  }

  /** The text of a line `OP $a $b $c`. */
  function RegisterLineText(op: Opcode, a: nat, b: nat, c: nat): string
    requires a < 10 && b < 10 && c < 10
  {
    Mnemonic(op) + [' ', '$', DigitChar(a), ' ', '$', DigitChar(b), ' ', '$', DigitChar(c)]
  }

  /** Three register operands ` $a $b $c` from offset `p`. */
  lemma LexThreeRegisters(s: string, p: nat, a: nat, b: nat, c: nat, line: nat, startOfLine: nat)
    requires a < 10 && b < 10 && c < 10 && p + 9 <= |s|
    requires s[p] == ' ' && s[p + 1] == '$' && s[p + 2] == DigitChar(a)
    requires s[p + 3] == ' ' && s[p + 4] == '$' && s[p + 5] == DigitChar(b)
    requires s[p + 6] == ' ' && s[p + 7] == '$' && s[p + 8] == DigitChar(c)
    requires p + 9 == |s| || IsSeparator(s[p + 9])
    ensures LexFrom(s, p, line, startOfLine) ==
              Prepend(Token(Register(a), p, p + 3, 3),
                Prepend(Token(Register(b), p + 3, p + 6, 3),
                  Prepend(Token(Register(c), p + 6, p + 9, 3), LexFrom(s, p + 9, line, startOfLine))))
  {
    LexSpacedRegister(s, p + 6, c, line, startOfLine);
    LexSpacedRegister(s, p + 3, b, line, startOfLine);
    LexSpacedRegister(s, p, a, line, startOfLine);
  }

  /** A line `OP $a $b $c` at `p`, ended by a separator or the end of the text: the operation, then three registers. */
  lemma LexRegisterLine(s: string, p: nat, op: Opcode, a: nat, b: nat, c: nat, line: nat, startOfLine: nat)
    requires Decodable(op) && |Mnemonic(op)| == 3 && a < 10 && b < 10 && c < 10
    requires p + 12 <= |s| && s[p..p + 12] == RegisterLineText(op, a, b, c)
    requires p + 12 == |s| || IsSeparator(s[p + 12])
    ensures ScanKind(s, p, line, startOfLine) == Scanned(Operation(op), p + 3, line, startOfLine)
    ensures LexFrom(s, p + 3, line, startOfLine) ==
              Prepend(Token(Register(a), p + 3, p + 6, 3),
                Prepend(Token(Register(b), p + 6, p + 9, 3),
                  Prepend(Token(Register(c), p + 9, p + 12, 3), LexFrom(s, p + 12, line, startOfLine))))
  {
    var w := s[p..p + 12];
    assert s[p..p + 3] == w[..3] == Mnemonic(op);
    assert s[p + 3] == w[3] && s[p + 4] == w[4] && s[p + 5] == w[5];
    assert s[p + 6] == w[6] && s[p + 7] == w[7] && s[p + 8] == w[8];
    assert s[p + 9] == w[9] && s[p + 10] == w[10] && s[p + 11] == w[11];
    ScanMnemonic(s, p, op, line, startOfLine);
    LexThreeRegisters(s, p + 3, a, b, c, line, startOfLine);
  }

  /** The same line after the separators from `q`: four tokens, the first spanning from `q`. */
  lemma LexRegisterLineAfter(s: string, q: nat, p: nat, op: Opcode, a: nat, b: nat, c: nat, line: nat, startOfLine: nat)
    requires Decodable(op) && |Mnemonic(op)| == 3 && a < 10 && b < 10 && c < 10
    requires q <= p && p + 12 <= |s| && s[p..p + 12] == RegisterLineText(op, a, b, c)
    requires forall i :: q <= i < p ==> IsSeparator(s[i])
    requires p + 12 == |s| || IsSeparator(s[p + 12])
    ensures var l, sol := line + CountNewlines(s, q, p), LineStartAfter(s, q, p, startOfLine);
            var ts := RegisterLineTokens(q, p, op, a, b, c);
            LexFrom(s, q, line, startOfLine) ==
              Prepend(ts[0], Prepend(ts[1], Prepend(ts[2], Prepend(ts[3], LexFrom(s, p + 12, l, sol)))))
  {
    var l, sol := line + CountNewlines(s, q, p), LineStartAfter(s, q, p, startOfLine);
    var ts := RegisterLineTokens(q, p, op, a, b, c);
    var tail := Prepend(ts[1], Prepend(ts[2], Prepend(ts[3], LexFrom(s, p + 12, l, sol))));
    assert ScanKind(s, p, l, sol) == Scanned(Operation(op), p + 3, l, sol) && LexFrom(s, p + 3, l, sol) == tail by {
      LexRegisterLine(s, p, op, a, b, c, l, sol);
    }
    assert ts[0] == Token(Operation(op), q, p + 3, p + 3 - q);
    LexPrependAfter(s, q, p, line, startOfLine, Operation(op), p + 3, tail);
  }

  /** The lines of the tests, spelled out. */
  lemma LineTexts()
    ensures LoadLineText(0) == "LOAD $0 #500" && LoadLineText(1) == "LOAD $1 #500"
    ensures RegisterLineText(ADD, 0, 1, 2) == "ADD $0 $1 $2" && RegisterLineText(DIV, 0, 1, 2) == "DIV $0 $1 $2"
  {
  }

  /** The `multiple_lines` text is its three lines, the first two ended by a newline. */
  lemma MultipleLinesJoined(s: string)
    requires s == "LOAD $0 #500\nADD $0 $1 $2\nDIV $0 $1 $2"
    ensures s == "LOAD $0 #500\n" + ("ADD $0 $1 $2\n" + "DIV $0 $1 $2")
  {
  }

  /** The `multiple_lines` text cut at its two newlines. */
  lemma MultipleLinesSlices(s: string)
    requires s == "LOAD $0 #500\n" + ("ADD $0 $1 $2\n" + "DIV $0 $1 $2")
    ensures |s| == 38 && s[0..12] == "LOAD $0 #500" && s[12] == '\n'
    ensures s[13..25] == "ADD $0 $1 $2" && s[25] == '\n' && s[26..38] == "DIV $0 $1 $2"
  {
    var first, second, third := "LOAD $0 #500\n", "ADD $0 $1 $2\n", "DIV $0 $1 $2";
    assert s[0..12] == first[..12];
    var t := s[13..];
    assert t == second + third;
    assert s[13..25] == t[..12] == second[..12];
    assert s[26..38] == t[13..] == third;
  }

  /** The layout of the `multiple_lines` text: a `LOAD` line, an `ADD` line and a `DIV` line. */
  lemma MultipleLinesText(s: string)
    requires s == "LOAD $0 #500\nADD $0 $1 $2\nDIV $0 $1 $2"
    ensures |s| == 38 && s[0..12] == LoadLineText(0) && s[12] == '\n'
    ensures s[13..25] == RegisterLineText(ADD, 0, 1, 2) && s[25] == '\n'
    ensures s[26..38] == RegisterLineText(DIV, 0, 1, 2)
  {
    MultipleLinesJoined(s);
    MultipleLinesSlices(s);
    LineTexts();
  }

  /** The third line of the `multiple_lines` text: `DIV $0 $1 $2` after the second newline, then `Eof`. */
  lemma MultipleLinesThird(s: string)
    requires |s| == 38 && s[25] == '\n' && s[26..38] == RegisterLineText(DIV, 0, 1, 2)
    ensures LexFrom(s, 25, 1, 13) ==
              Lexed(RegisterLineTokens(25, 26, DIV, 0, 1, 2) + [Token(Eof, 38, 38, 0)], 38, 2, 26)
  {
    assert CountNewlines(s, 25, 26) == 1 && LineStartAfter(s, 25, 26, 13) == 26;
    LexRegisterLineAfter(s, 25, 26, DIV, 0, 1, 2, 1, 13);
    var eof := [Token(Eof, 38, 38, 0)];
    assert LexFrom(s, 38, 2, 26) == Lexed(eof, 38, 2, 26);
    PrependFour(RegisterLineTokens(25, 26, DIV, 0, 1, 2), eof, 38, 2, 26);
  }

  /** The second line of the `multiple_lines` text: `ADD $0 $1 $2` after the first newline, and the rest. */
  lemma MultipleLinesSecond(s: string)
    requires |s| == 38 && s[12] == '\n' && s[13..25] == RegisterLineText(ADD, 0, 1, 2)
    requires s[25] == '\n' && s[26..38] == RegisterLineText(DIV, 0, 1, 2)
    ensures LexFrom(s, 12, 0, 0) ==
              Lexed(RegisterLineTokens(12, 13, ADD, 0, 1, 2) + RegisterLineTokens(25, 26, DIV, 0, 1, 2) + [Token(Eof, 38, 38, 0)], 38, 2, 26)
  {
    assert CountNewlines(s, 12, 13) == 1 && LineStartAfter(s, 12, 13, 0) == 13;
    LexRegisterLineAfter(s, 12, 13, ADD, 0, 1, 2, 0, 0);
    MultipleLinesThird(s);
    var rest := RegisterLineTokens(25, 26, DIV, 0, 1, 2) + [Token(Eof, 38, 38, 0)];
    PrependFour(RegisterLineTokens(12, 13, ADD, 0, 1, 2), rest, 38, 2, 26);
  }

  /** The three lines of the `multiple_lines` text lex to twelve tokens, with `Eof` on the third line. */
  lemma LexMultipleLines(s: string)
    requires |s| == 38 && s[0..12] == LoadLineText(0) && s[12] == '\n'
    requires s[13..25] == RegisterLineText(ADD, 0, 1, 2) && s[25] == '\n'
    requires s[26..38] == RegisterLineText(DIV, 0, 1, 2)
    ensures Lex(s) == Lexed(LoadLineTokens(0, 0, 0) + RegisterLineTokens(12, 13, ADD, 0, 1, 2)
                              + RegisterLineTokens(25, 26, DIV, 0, 1, 2) + [Token(Eof, 38, 38, 0)], 38, 2, 26)
  {
    assert CountNewlines(s, 0, 0) == 0 && LineStartAfter(s, 0, 0, 0) == 0;
    LexLoadLineAfter(s, 0, 0, 0, 0, 0);
    MultipleLinesSecond(s);
    var rest := RegisterLineTokens(12, 13, ADD, 0, 1, 2) + RegisterLineTokens(25, 26, DIV, 0, 1, 2) + [Token(Eof, 38, 38, 0)];
    PrependThree(LoadLineTokens(0, 0, 0), rest, 38, 2, 26);
  }

  /**
   * The `multiple_lines` test: the fourth token is `ADD`, the sixth register 1
   * and the eighth `DIV`.
   */
  lemma MultipleLinesTest(s: string)
    requires s == "LOAD $0 #500\nADD $0 $1 $2\nDIV $0 $1 $2"
    ensures Lex(s).Lexed? && |Lex(s).tokens| == 12
    ensures Lex(s).tokens[3].kind == Operation(ADD)
    ensures Lex(s).tokens[5].kind == Register(1)
    ensures Lex(s).tokens[7].kind == Operation(DIV)
  {
    MultipleLinesText(s);
    LexMultipleLines(s);
  }

  /** The tokens of two `LOAD $1 #500` lines parse to two instructions that encode to eight bytes. */
  lemma TwoLoadsAssemble(ts: seq<Token>)
    requires ts == LoadLineTokens(0, 0, 1) + LoadLineTokens(12, 13, 1) + [Token(Eof, 25, 26, 1)]
    ensures ParseFrom(ts, 0) == Some([LoadAt(ts, 0), LoadAt(ts, 3)])
    ensures ProgramBytes([LoadAt(ts, 0), LoadAt(ts, 3)]) == Some([1, 1, 1, 1, 1, 1, 1, 1])
  {
    assert |ts| == 7 && ts[6].kind == Eof;
    assert IsLoad(ts[0]) && IsLoad(ts[3]) && !IsLoad(ts[1]) && !IsLoad(ts[2]) && !IsLoad(ts[4]) && !IsLoad(ts[5]);
    assert ParseFrom(ts, 6) == Some([]);
    assert [LoadAt(ts, 3)] + [] == [LoadAt(ts, 3)];
    assert ParseFrom(ts, 3) == Some([LoadAt(ts, 3)]);
    assert ParseFrom(ts, 0) == Some([LoadAt(ts, 0)] + [LoadAt(ts, 3)]);
    forall h | h == 0 || h == 3
      ensures Encode(LoadAt(ts, h)) == Some([1, 1, 1, 1])
    {
      assert ts[h].kind == Operation(LOAD) && ts[h + 1].kind == Register(1);
      assert OperandBytes(Some(ts[h + 1])) == Some([1]);
      assert [Code(LOAD)] + [1] + [1] + [1] == [1, 1, 1, 1];
    }
    var ins := [LoadAt(ts, 0), LoadAt(ts, 3)];
    assert ins[..1] == [LoadAt(ts, 0)] && ins[..0] == [];
    assert ProgramBytes([LoadAt(ts, 0)]) == Some([] + [1, 1, 1, 1]);
    assert [] + [1, 1, 1, 1] == [1, 1, 1, 1];
    assert ins[1] == LoadAt(ts, 3) && ins[..|ins| - 1] == [LoadAt(ts, 0)];
    assert [1, 1, 1, 1] + [1, 1, 1, 1] == [1, 1, 1, 1, 1, 1, 1, 1];
    assert Encode(ins[|ins| - 1]) == Some([1, 1, 1, 1]);
    assert ProgramBytes(ins[..|ins| - 1]) == Some([1, 1, 1, 1]);
    assert ProgramBytes(ins) == Some([1, 1, 1, 1] + [1, 1, 1, 1]);
    assert [LoadAt(ts, 0)] + [LoadAt(ts, 3)] == ins;
  }

  /**
   * The `program_length` test: two lines of `LOAD $1 #500` assemble to two
   * instructions and eight bytes.
   */
  method ProgramLengthTest() returns (count: nat, bytes: seq<u8>)
    ensures count == 2 && |bytes| == 8
    ensures bytes == [1, 1, 1, 1, 1, 1, 1, 1]
  {
    var content := "LOAD $1 #500\nLOAD $1 #500\n";
    var lexer := new Lexer(content, |content|);
    TwoLoadLinesText(content);
    LexTwoLoadLines(content);
    lexer.Tokenize();
    var parser := new Parser(lexer.tokens);
    TwoLoadsAssemble(parser.tokensToParse);
    var instructions := parser.Parse();
    var program := new Program.Default();
    program.SetInstructions(instructions);
    count := |program.instructions|;
    bytes := program.AsBytes();
  }

  /** A fresh machine with some registers set and the given bytecode loaded, as the machine tests start. */
  function Loaded(registers: Registers, bytecode: Bytecode): Machine
  {
    Fresh().(registers := registers, bytecode := bytecode)
  }

  /** Every register zero but `a` and `b`, which hold `x` and `y`. */
  function Set2(a: nat, x: i32, b: nat, y: i32): Registers
    requires a < REGISTER_COUNT && b < REGISTER_COUNT
  {
    Fresh().registers[a := x][b := y]
  }

  /** The `load` test: `[1, 1, 1, 244]` loads 500 into register 1 and the machine then stops at the end. */
  lemma LoadTest()
    ensures var r := RunFor(Loaded(Fresh().registers, [1, 1, 1, 244]), 2);
            r.Halted? && r.final.registers[1] == 500 && r.final.pc == 4
  {
  }

  /** The `add`, `sub` and `mul` tests. */
  lemma ArithTests()
    ensures var r := RunFor(Loaded(Set2(0, 6, 1, 6), [2, 0, 1, 2]), 2);
            r.Halted? && r.final.registers[2] == 12
    ensures var r := RunFor(Loaded(Set2(0, 5, 1, 4), [3, 0, 1, 2]), 2);
            r.Halted? && r.final.registers[2] == 1
    ensures var r := RunFor(Loaded(Set2(0, 5, 1, 2), [4, 0, 1, 2]), 2);
            r.Halted? && r.final.registers[2] == 10
  {
  }

  /** The `div` test: 10 / 3 leaves 3 in register 2 and 1 as the remainder. */
  lemma DivTest()
    ensures var r := RunFor(Loaded(Set2(0, 10, 1, 3), [5, 0, 1, 2]), 2);
            r.Halted? && r.final.registers[2] == 3 && r.final.divRemainder == 1
  {
    assert TruncDiv(10, 3) == 3 && TruncRem(10, 3) == 1;
  }

  /** The `div_by_0` test: dividing by zero stops the machine at once with the flag still false. */
  lemma DivByZeroTest()
    ensures var m := Loaded(Set2(0, 2, 1, 0), [5, 0, 1, 2]);
            var r := RunFor(m, 1);
            r.Halted? && !r.final.eqFlag && r.final == m.(pc := 4)
  {
  }

  /** The `jmp`, `jmpf` and `jeq` tests: the counter ends at 5, 7 and 5. */
  lemma JumpTests()
    ensures var r := RunFor(Loaded(Set2(0, 5, 1, 0), [14, 0, 0, 0]), 2);
            r.Halted? && r.final.pc == 5
    ensures var r := RunFor(Loaded(Set2(0, 5, 1, 0), [15, 0, 0, 0]), 2);
            r.Halted? && r.final.pc == 7
    ensures var r := RunFor(Loaded(Set2(0, 5, 1, 0), [12, 0, 0, 0]).(eqFlag := true), 2);
            r.Halted? && r.final.pc == 5
  {
  }

  /**
   * As written, `LOAD` with register `r` as its first operand is encoded as
   * `[1, r, r, r]`, whatever its second operand: run, it loads `257 * r` into
   * register `r` instead of the integer operand.
   */
  lemma LoadAsWritten(load: Token, reg: Token, imm: Token)
    requires load.kind == Operation(LOAD) && reg.kind.Register? && reg.kind.regIndex < REGISTER_COUNT
    requires imm.kind.IntegerOperand?
    ensures var r := reg.kind.regIndex;
            var ins := AssemblyInstruction(load, Some(reg), Some(imm), None);
            && Encode(ins) == Some([1, r, r, r])
            && Execute(Loaded(Fresh().registers, [1, r, r, r])).Stepped?
            && Execute(Loaded(Fresh().registers, [1, r, r, r])).next.registers[r] == 257 * r
  {
    var r := reg.kind.regIndex;
    assert [Code(LOAD)] + [r] + [r] + [r] == [1, r, r, r];
  }

  /**
   * The `endianess` test as the code stands: `LOAD $1 #500` parses to one
   * instruction and the program's bytes are `[1, 1, 1, 1]`, so register 1
   * ends at 257, not the 500 the test expects.
   */
  lemma EndiannessAsWritten(s: string)
    requires s == "LOAD $1 #500"
    ensures Lex(s) == Lexed(LoadLineTokens(0, 0, 1) + [Token(Eof, 12, 12, 0)], 12, 0, 0)
    ensures var ts := LoadLineTokens(0, 0, 1) + [Token(Eof, 12, 12, 0)];
            && ParseFrom(ts, 0) == Some([LoadAt(ts, 0)])
            && ProgramBytes([LoadAt(ts, 0)]) == Some([1, 1, 1, 1])
            && RunFor(Loaded(Fresh().registers, [1, 1, 1, 1]), 2).Halted?
            && RunFor(Loaded(Fresh().registers, [1, 1, 1, 1]), 2).final.registers[1] == 257 != 500
  {
    LexLoadTest(s);
    var ts := LoadLineTokens(0, 0, 1) + [Token(Eof, 12, 12, 0)];
    assert ParseFrom(ts, 3) == Some([]);
    assert [LoadAt(ts, 0)] + [] == [LoadAt(ts, 0)];
    LoadAsWritten(ts[0], ts[1], ts[2]);
    assert [LoadAt(ts, 0)][..0] == [];
    assert [] + [1, 1, 1, 1] == [1, 1, 1, 1];
  }

  /**
   * With each operand written once, `LOAD` of register `r < 32` and an
   * integer `v` in `0..=0xFFFF` is `[1, r, hi, lo]`, and running it loads `v`
   * into register `r`: the 16-bit round trip from the assembler to the machine.
   */
  lemma LoadIntended(load: Token, reg: Token, imm: Token)
    requires load.kind == Operation(LOAD) && reg.kind.Register? && reg.kind.regIndex < REGISTER_COUNT
    requires imm.kind.IntegerOperand? && 0 <= imm.kind.value <= 0xFFFF
    ensures var r, v := reg.kind.regIndex, imm.kind.value;
            var ins := AssemblyInstruction(load, Some(reg), Some(imm), None);
            var bytes := [1, r, v / 0x100, v % 0x100];
            && EncodeIntended(ins) == Some(bytes)
            && Execute(Loaded(Fresh().registers, bytes)).Stepped?
            && Execute(Loaded(Fresh().registers, bytes)).next.registers[r] == v
  {
    var r, v := reg.kind.regIndex, imm.kind.value;
    IntegerOperandBytes(imm);
    assert OperandBytes(Some(imm)) == Some([v / 0x100, v % 0x100]);
    assert [Code(LOAD)] + [r] + [v / 0x100, v % 0x100] + [] == [1, r, v / 0x100, v % 0x100];
  }

  /**
   * The `endianess` test with each operand written once: `LOAD $1 #500`
   * parses to one instruction whose bytes are `[1, 1, 1, 244]`, and register
   * 1 ends at 500.
   */
  lemma EndiannessIntended(s: string)
    requires s == "LOAD $1 #500"
    ensures Lex(s) == Lexed(LoadLineTokens(0, 0, 1) + [Token(Eof, 12, 12, 0)], 12, 0, 0)
    ensures var ts := LoadLineTokens(0, 0, 1) + [Token(Eof, 12, 12, 0)];
            && ParseFrom(ts, 0) == Some([LoadAt(ts, 0)])
            && EncodeIntended(LoadAt(ts, 0)) == Some([1, 1, 1, 244])
            && RunFor(Loaded(Fresh().registers, [1, 1, 1, 244]), 2).Halted?
            && RunFor(Loaded(Fresh().registers, [1, 1, 1, 244]), 2).final.registers[1] == 500
  {
    LexLoadTest(s);
    var ts := LoadLineTokens(0, 0, 1) + [Token(Eof, 12, 12, 0)];
    assert ParseFrom(ts, 3) == Some([]);
    assert [LoadAt(ts, 0)] + [] == [LoadAt(ts, 0)];
    LoadIntended(ts[0], ts[1], ts[2]);
    LoadTest();
  }
}
