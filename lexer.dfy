/**
 * The assembler's lexer: a cursor over the source text that cuts it into
 * tokens. The first character of a token decides its kind: `#` starts a
 * decimal `i32` literal, `$` a decimal `usize` register index, and anything
 * else but a space or a newline a mnemonic. A token ends before the next
 * space or newline, or at the end of the input. Spaces are skipped; a newline
 * also advances the line counter. A lexical error is reported and the stream
 * ends with `Eof`.
 *
 * The text is ASCII, so a character is a byte and the `Chars` iterator is a
 * cursor: the number of characters it has already yielded.
 *
 * The pure functions `ScanKind` (one call of `match_kind`) and `LexFrom`
 * (the loop of `tokenize`) specify the class `Lexer`, whose methods mirror the
 * source's loops; the lemmas state what the token stream looks like.
 */
module Lexer {
  import opened Wrappers
  import opened Numeric
  import opened Instruction

  datatype TokenKind =
    | Operation(code: Opcode)
    | Register(regIndex: usize)
    | IntegerOperand(value: i32)
    | Eof

  /** A token and its span: the offsets before and after the `next_token` call that produced it. */
  datatype Token = Token(kind: TokenKind, start: nat, end: nat, length: nat)

  /** `Token::new`; `end - start` is a `usize` subtraction, so `end` may not precede `start`. */
  function NewToken(kind: TokenKind, start: nat, end: nat): Token
    requires start <= end
  {
    Token(kind, start, end, end - start)
  }

  /** The two characters that end a token. */
  predicate IsSeparator(c: char)
  {
    c == ' ' || c == '\n'
  }

  /** Where the token whose characters start at `p` ends: the first separator at or after `p`, or the end of the text. */
  function WordEnd(s: string, p: nat): (e: nat)
    requires p <= |s|
    ensures p <= e <= |s|
    ensures forall i :: p <= i < e ==> !IsSeparator(s[i])
    ensures e == |s| || IsSeparator(s[e])
    decreases |s| - p
  {
    if p == |s| || IsSeparator(s[p]) then p else WordEnd(s, p + 1)
  }

  /**
   * The outcome of one `match_kind` call: the kind and the new cursor, line
   * and start of line; or a panic, either of an `unwrap` or of the `usize`
   * subtraction that computes the column of a lexical error.
   */
  datatype Scan = Scanned(kind: TokenKind, pos: nat, line: nat, startOfLine: nat) | ScanPanic

  /** A lexical error with the cursor on separator `e`: `Eof`, unless its column `e - startOfLine` underflows. */
  function LexicalError(e: nat, line: nat, startOfLine: nat): Scan
  {
    if e < startOfLine then ScanPanic else Scanned(Eof, e, line, startOfLine)
  }

  /**
   * One call of `match_kind` from cursor `pos`. Spaces and newlines are
   * skipped. A literal or a word that stops at a separator and does not
   * decode is a lexical error: the result is `Eof` with the cursor on the
   * separator. The error's column is the cursor minus the start of line, a
   * `usize` subtraction: after `set_content` the start of line may lie beyond
   * the cursor, and the subtraction then panics (a debug build). One that
   * runs to the end of the input is not checked the same way: a literal that
   * does not parse makes the `unwrap` panic, and a word that does not decode
   * becomes `Operation(NOP)`.
   */
  function ScanKind(s: string, pos: nat, line: nat, startOfLine: nat): (r: Scan)
    requires pos <= |s|
    ensures r.Scanned? ==> pos <= r.pos <= |s| && line <= r.line
    ensures r.Scanned? && r.kind != Eof ==> pos < r.pos
    decreases |s| - pos
  {
    if pos == |s| then Scanned(Eof, pos, line, startOfLine)
    else
      var c := s[pos];
      if c == '#' then
        var e := WordEnd(s, pos + 1);
        match ParseI32(s[pos + 1..e])
        case Ok(v) => Scanned(IntegerOperand(v), e, line, startOfLine)
        case Err(_) => if e == |s| then ScanPanic else LexicalError(e, line, startOfLine)
      else if c == '$' then
        var e := WordEnd(s, pos + 1);
        match ParseUsize(s[pos + 1..e])
        case Ok(v) => Scanned(Register(v), e, line, startOfLine)
        case Err(_) => if e == |s| then ScanPanic else LexicalError(e, line, startOfLine)
      else if c == ' ' then
        ScanKind(s, pos + 1, line, startOfLine)
      else if c == '\n' then
        ScanKind(s, pos + 1, line + 1, pos + 1)
      else
        var e := WordEnd(s, pos + 1);
        var op := FromMnemonic(s[pos..e]);
        if op == NOP && e < |s| then LexicalError(e, line, startOfLine)
        else Scanned(Operation(op), e, line, startOfLine)
  }

  /** The outcome of `tokenize` from a cursor: the tokens pushed and the final cursor, line and start of line; or a panic. */
  datatype LexRun = Lexed(tokens: seq<Token>, pos: nat, line: nat, startOfLine: nat) | LexPanic

  /** `tokenize` from cursor `pos`: `next_token` until it yields `Eof`, which is pushed too. */
  function LexFrom(s: string, pos: nat, line: nat, startOfLine: nat): (r: LexRun)
    requires pos <= |s|
    ensures r.Lexed? ==> pos <= r.pos <= |s|
    decreases |s| - pos
  {
    match ScanKind(s, pos, line, startOfLine)
    case ScanPanic => LexPanic
    case Scanned(kind, p, l, sol) =>
      var t := NewToken(kind, pos, p);
      if kind == Eof then Lexed([t], p, l, sol)
      else
        match LexFrom(s, p, l, sol)
        case LexPanic => LexPanic
        case Lexed(ts, p', l', sol') => Lexed([t] + ts, p', l', sol')
  }

  /** One round of `tokenize`: the token of one `match_kind`, then, unless it is `Eof`, the rest of the stream. */
  lemma LexStep(s: string, pos: nat, line: nat, startOfLine: nat)
    requires pos <= |s| && LexFrom(s, pos, line, startOfLine).Lexed?
    ensures ScanKind(s, pos, line, startOfLine).Scanned?
    ensures var sc := ScanKind(s, pos, line, startOfLine);
            var t := NewToken(sc.kind, pos, sc.pos);
            var r := LexFrom(s, pos, line, startOfLine);
            if sc.kind == Eof then r == Lexed([t], sc.pos, sc.line, sc.startOfLine)
            else && LexFrom(s, sc.pos, sc.line, sc.startOfLine).Lexed?
                 && r == Lexed([t] + LexFrom(s, sc.pos, sc.line, sc.startOfLine).tokens, LexFrom(s, sc.pos, sc.line, sc.startOfLine).pos,
                               LexFrom(s, sc.pos, sc.line, sc.startOfLine).line, LexFrom(s, sc.pos, sc.line, sc.startOfLine).startOfLine)
  {
  }

  /** The token stream of a fresh lexer over `s`. */
  function Lex(s: string): LexRun
  {
    LexFrom(s, 0, 0, 0)
  }

  /** The number of newlines among `s[pos..q]`. */
  function CountNewlines(s: string, pos: nat, q: nat): nat
    requires pos <= q <= |s|
    decreases q - pos
  {
    if q == pos then 0 else CountNewlines(s, pos, q - 1) + (if s[q - 1] == '\n' then 1 else 0)
  }

  /** The offset just past the last newline in `s[pos..q]`, or `startOfLine` when there is none. */
  function LineStartAfter(s: string, pos: nat, q: nat, startOfLine: nat): nat
    requires pos <= q <= |s|
    decreases q - pos
  {
    if q == pos then startOfLine
    else if s[q - 1] == '\n' then q
    else LineStartAfter(s, pos, q - 1, startOfLine)
  }

  /** `WordEnd` is the only end a token can have: the first separator. */
  lemma {:induction false} WordEndUnique(s: string, p: nat, e: nat)
    requires p <= e <= |s|
    requires forall i :: p <= i < e ==> !IsSeparator(s[i])
    requires e == |s| || IsSeparator(s[e])
    ensures WordEnd(s, p) == e
    decreases e - p
  {
    if p < e {
      WordEndUnique(s, p + 1, e);
    }
  }

  /**
   * Spaces and newlines produce no token: scanning from `pos` is scanning
   * from `q` once the run of separators between them is skipped, with `line`
   * advanced by the number of newlines and `startOfLine` just past the last one.
   */
  lemma {:induction false} SkipSeparators(s: string, pos: nat, q: nat, line: nat, startOfLine: nat)
    requires pos <= q <= |s|
    requires forall i :: pos <= i < q ==> IsSeparator(s[i])
    ensures ScanKind(s, pos, line, startOfLine)
         == ScanKind(s, q, line + CountNewlines(s, pos, q), LineStartAfter(s, pos, q, startOfLine))
    decreases q - pos
  {
    if q > pos {
      SkipSeparators(s, pos, q - 1, line, startOfLine);
    }
  }

  /** `#` followed by a run of decimal digits that ends at a separator or the end of input is that `i32`. */
  lemma ScanIntegerLiteral(s: string, pos: nat, e: nat, line: nat, startOfLine: nat)
    requires pos < e <= |s| && s[pos] == '#'
    requires e == |s| || IsSeparator(s[e])
    requires |s[pos + 1..e]| > 0 && AllDigits(s[pos + 1..e], 10)
    requires DigitsValue(s[pos + 1..e], 10) <= I32_MAX
    ensures ScanKind(s, pos, line, startOfLine)
         == Scanned(IntegerOperand(DigitsValue(s[pos + 1..e], 10)), e, line, startOfLine)
  {
    var lit := s[pos + 1..e];
    assert forall i :: pos + 1 <= i < e ==> !IsSeparator(s[i]) by {
      forall i | pos + 1 <= i < e ensures !IsSeparator(s[i]) {
        assert s[i] == lit[i - pos - 1];
      }
    }
    WordEndUnique(s, pos + 1, e);
    ParseI32Digits(lit);
  }

  /** `$` followed by a run of decimal digits that ends at a separator or the end of input is that register index. */
  lemma ScanRegisterLiteral(s: string, pos: nat, e: nat, line: nat, startOfLine: nat)
    requires pos < e <= |s| && s[pos] == '$'
    requires e == |s| || IsSeparator(s[e])
    requires |s[pos + 1..e]| > 0 && AllDigits(s[pos + 1..e], 10)
    requires DigitsValue(s[pos + 1..e], 10) <= USIZE_MAX
    ensures ScanKind(s, pos, line, startOfLine)
         == Scanned(Register(DigitsValue(s[pos + 1..e], 10)), e, line, startOfLine)
  {
    var lit := s[pos + 1..e];
    assert forall i :: pos + 1 <= i < e ==> !IsSeparator(s[i]) by {
      forall i | pos + 1 <= i < e ensures !IsSeparator(s[i]) {
        assert s[i] == lit[i - pos - 1];
      }
    }
    WordEndUnique(s, pos + 1, e);
    ParseUsizeDigits(lit);
  }

  /** A word that names an opcode, from its first character to `WordEnd`, is that operation. */
  lemma ScanWord(s: string, pos: nat, e: nat, op: Opcode, line: nat, startOfLine: nat)
    requires pos < e <= |s| && !IsSeparator(s[pos]) && s[pos] != '#' && s[pos] != '$'
    requires WordEnd(s, pos + 1) == e && FromMnemonic(s[pos..e]) == op && op != NOP
    ensures ScanKind(s, pos, line, startOfLine) == Scanned(Operation(op), e, line, startOfLine)
  {
  }

  /** A word of capital letters found in the text puts capital letters there. */
  lemma CapitalsInText(s: string, pos: nat, w: string)
    requires pos + |w| <= |s| && s[pos..pos + |w|] == w
    requires forall k :: 0 <= k < |w| ==> 'A' <= w[k] <= 'Z'
    ensures forall i :: pos <= i < pos + |w| ==> 'A' <= s[i] <= 'Z'
  {
    forall i | pos <= i < pos + |w| ensures 'A' <= s[i] <= 'Z' {
      assert s[i] == w[i - pos];
    }
  }

  /** A mnemonic in the text, ended by a separator or the end of input, is a word that decodes to its opcode. */
  lemma MnemonicWord(s: string, pos: nat, op: Opcode)
    requires Decodable(op)
    requires pos + |Mnemonic(op)| <= |s| && s[pos..pos + |Mnemonic(op)|] == Mnemonic(op)
    requires pos + |Mnemonic(op)| == |s| || IsSeparator(s[pos + |Mnemonic(op)|])
    ensures var e := pos + |Mnemonic(op)|;
            && pos < e && !IsSeparator(s[pos]) && s[pos] != '#' && s[pos] != '$'
            && WordEnd(s, pos + 1) == e && FromMnemonic(s[pos..e]) == op && op != NOP
  {
    var e := pos + |Mnemonic(op)|;
    MnemonicLetters(op);
    CapitalsInText(s, pos, Mnemonic(op));
    WordEndUnique(s, pos + 1, e);
    MnemonicRoundTrip(op);
  }

  /** A word spelling one of the twenty mnemonics, ended by a separator or the end of input, is that operation. */
  lemma ScanMnemonic(s: string, pos: nat, op: Opcode, line: nat, startOfLine: nat)
    requires Decodable(op)
    requires pos + |Mnemonic(op)| <= |s| && s[pos..pos + |Mnemonic(op)|] == Mnemonic(op)
    requires pos + |Mnemonic(op)| == |s| || IsSeparator(s[pos + |Mnemonic(op)|])
    ensures ScanKind(s, pos, line, startOfLine)
         == Scanned(Operation(op), pos + |Mnemonic(op)|, line, startOfLine)
  {
    MnemonicWord(s, pos, op);
    ScanWord(s, pos, pos + |Mnemonic(op)|, op, line, startOfLine);
  }

  /** A word that runs to the end of the input is not rejected: one that names no opcode becomes `Operation(NOP)`. */
  lemma ScanUnknownWordAtEnd(s: string, pos: nat, line: nat, startOfLine: nat)
    requires pos < |s| && !IsSeparator(s[pos]) && s[pos] != '#' && s[pos] != '$'
    requires forall i :: pos <= i < |s| ==> !IsSeparator(s[i])
    requires FromMnemonic(s[pos..]) == NOP
    ensures ScanKind(s, pos, line, startOfLine) == Scanned(Operation(NOP), |s|, line, startOfLine)
  {
    WordEndUnique(s, pos + 1, |s|);
    assert s[pos..WordEnd(s, pos + 1)] == s[pos..];
  }

  /** A literal that does not parse, or a word that names no opcode, stopped by a separator: a lexical error. */
  predicate IsLexicalError(s: string, pos: nat)
    requires pos < |s|
  {
    var e := WordEnd(s, pos + 1);
    var word := s[pos + 1..e];
    && !IsSeparator(s[pos]) && e < |s|
    && (|| (s[pos] == '#' && ParseI32(word).Err?)
        || (s[pos] == '$' && ParseUsize(word).Err?)
        || (s[pos] != '#' && s[pos] != '$' && FromMnemonic(s[pos..e]) == NOP))
  }

  /**
   * A lexical error ends the stream: `tokenize` pushes a single `Eof` and
   * stops with the cursor on the separator, provided the start of line does
   * not lie beyond that separator.
   */
  lemma LexicalErrorEndsStream(s: string, pos: nat, line: nat, startOfLine: nat)
    requires pos < |s| && IsLexicalError(s, pos)
    requires startOfLine <= WordEnd(s, pos + 1)
    ensures var e := WordEnd(s, pos + 1);
            LexFrom(s, pos, line, startOfLine) == Lexed([NewToken(Eof, pos, e)], e, line, startOfLine)
  {
  }

  /** When the start of line lies beyond the separator, computing the error's column panics instead. */
  lemma LexicalErrorUnderflows(s: string, pos: nat, line: nat, startOfLine: nat)
    requires pos < |s| && IsLexicalError(s, pos)
    requires WordEnd(s, pos + 1) < startOfLine
    ensures LexFrom(s, pos, line, startOfLine) == LexPanic
  {
  }

  /** A successful `tokenize` pushes a non-empty stream whose last token, and only that one, is `Eof`. */
  lemma {:induction false} StreamEndsWithEof(s: string, pos: nat, line: nat, startOfLine: nat)
    requires pos <= |s| && LexFrom(s, pos, line, startOfLine).Lexed?
    ensures var ts := LexFrom(s, pos, line, startOfLine).tokens;
            && |ts| > 0
            && ts[|ts| - 1].kind == Eof
            && forall i :: 0 <= i < |ts| - 1 ==> ts[i].kind != Eof
    decreases |s| - pos
  {
    var sc := ScanKind(s, pos, line, startOfLine);
    if sc.kind != Eof {
      StreamEndsWithEof(s, sc.pos, sc.line, sc.startOfLine);
    }
  }

  /**
   * Token spans tile the scanned text in order: each token's span is
   * `[start, end)` with `length == end - start`; the first starts at the
   * cursor, each starts where the previous one ended, the last ends at the
   * final cursor, and every token but `Eof` covers at least one character.
   */
  lemma {:induction false} TokenSpans(s: string, pos: nat, line: nat, startOfLine: nat)
    requires pos <= |s| && LexFrom(s, pos, line, startOfLine).Lexed?
    ensures var r := LexFrom(s, pos, line, startOfLine);
            var ts := r.tokens;
            && |ts| > 0
            && ts[0].start == pos
            && ts[|ts| - 1].end == r.pos
            && (forall i :: 0 <= i < |ts| ==> ts[i].start <= ts[i].end <= |s| && ts[i].length == ts[i].end - ts[i].start)
            && (forall i :: 0 <= i < |ts| ==> ts[i].kind != Eof ==> ts[i].start < ts[i].end)
            && (forall i :: 0 <= i < |ts| - 1 ==> ts[i].end == ts[i + 1].start)
    decreases |s| - pos
  {
    var sc := ScanKind(s, pos, line, startOfLine);
    if sc.kind != Eof {
      TokenSpans(s, sc.pos, sc.line, sc.startOfLine);
    }
  }

  /** The lexer: the text, the cursor standing for the `Chars` iterator, the line bookkeeping and the tokens pushed so far. */
  class Lexer {
    var content: string
    var contentLen: nat
    var cursor: nat
    var line: nat
    var startOfLine: nat
    var tokens: seq<Token>

    ghost predicate Valid()
      reads this
    {
      cursor <= |content|
    }

    /** `Lexer::new`: the length is the caller's, stored as given. */
    constructor (content: string, contentLen: nat)
      ensures Valid()
      ensures this.content == content && this.contentLen == contentLen
      ensures cursor == 0 && line == 0 && startOfLine == 0 && tokens == []
    {
      this.content := content;
      this.contentLen := contentLen;
      cursor := 0;
      line := 0;
      startOfLine := 0;
      tokens := [];
    }

    /** `set_content`: a new text and a fresh iterator; the line bookkeeping and the tokens are kept. */
    method SetContent(newContent: string)
      modifies this
      ensures Valid()
      ensures content == newContent && contentLen == |newContent| && cursor == 0
      ensures line == old(line) && startOfLine == old(startOfLine) && tokens == old(tokens)
    {
      contentLen := |newContent|;
      content := newContent;
      cursor := 0;
    }

    /** `offset`: the length of the text minus the length of what the iterator has not yielded yet. */
    function Offset(): (o: nat)
      reads this
      requires Valid()
      ensures o == cursor
    {
      |content| - |content[cursor..]|
    }

    /** `peek`: the character the iterator would yield next, without advancing it. */
    function Peek(): (c: Option<char>)
      reads this
      requires Valid()
      ensures c.Some? <==> Offset() < |content|
      ensures c.Some? ==> c.value == content[Offset()]
    {
      if cursor < |content| then Some(content[cursor]) else None
    }

    /** `is_at_end`: whether the whole text has been consumed, which is exactly when `peek` has nothing. */
    function IsAtEnd(): (b: bool)
      reads this
      requires Valid()
      ensures b <==> Peek().None?
    {
      Offset() >= |content|
    }

    /** `match_kind`: skip separators, then read one literal or word (each arm is a method below). */
    method MatchKind() returns (kind: TokenKind)
      requires Valid() && ScanKind(content, cursor, line, startOfLine).Scanned?
      modifies this`cursor, this`line, this`startOfLine
      ensures Valid()
      ensures old(ScanKind(content, cursor, line, startOfLine)) == Scanned(kind, cursor, line, startOfLine)
    {
      ghost var outcome := ScanKind(content, cursor, line, startOfLine);
      while cursor < |content|
        invariant Valid()
        invariant ScanKind(content, cursor, line, startOfLine) == outcome
        decreases |content| - cursor
      {
        var c := content[cursor];
        cursor := cursor + 1;
        if c == '#' {
          kind := MatchIntegerOperand();
          return;
        } else if c == '$' {
          kind := MatchRegister();
          return;
        } else if c == ' ' {
        } else if c == '\n' {
          line := line + 1;
          startOfLine := Offset();
        } else {
          kind := MatchOperation();
          return;
        }
      }
      return Eof;
    }

    /** The `#` arm of `match_kind`: read up to a separator or the end, then parse an `i32`. */
    method MatchIntegerOperand() returns (kind: TokenKind)
      requires Valid() && 0 < cursor && content[cursor - 1] == '#'
      requires ScanKind(content, cursor - 1, line, startOfLine).Scanned?
      modifies this`cursor
      ensures Valid()
      ensures old(ScanKind(content, cursor - 1, line, startOfLine)) == Scanned(kind, cursor, line, startOfLine)
    {
      var start := Offset();
      while true
        invariant Valid() && start <= cursor
        invariant WordEnd(content, cursor) == WordEnd(content, start)
        decreases |content| - cursor
      {
        match Peek()
        case Some(cc) =>
          if cc == ' ' || cc == '\n' || IsAtEnd() {
            match ParseI32(content[start..Offset()])
            case Ok(v) => return IntegerOperand(v);
            case Err(_) => {
              var column: nat := Offset() - startOfLine; // "failed to tokenize integer operand"
              return Eof;
            }
          }
          cursor := cursor + 1;
        case None =>
          var value := ParseI32(content[start..Offset()]);
          return IntegerOperand(value.value);
      }
    }

    /** The `$` arm of `match_kind`: read up to a separator or the end, then parse a `usize`. */
    method MatchRegister() returns (kind: TokenKind)
      requires Valid() && 0 < cursor && content[cursor - 1] == '$'
      requires ScanKind(content, cursor - 1, line, startOfLine).Scanned?
      modifies this`cursor
      ensures Valid()
      ensures old(ScanKind(content, cursor - 1, line, startOfLine)) == Scanned(kind, cursor, line, startOfLine)
    {
      var start := Offset();
      while true
        invariant Valid() && start <= cursor
        invariant WordEnd(content, cursor) == WordEnd(content, start)
        decreases |content| - cursor
      {
        match Peek()
        case Some(cc) =>
          if cc == ' ' || cc == '\n' || IsAtEnd() {
            match ParseUsize(content[start..Offset()])
            case Ok(v) => return Register(v);
            case Err(_) => {
              var column: nat := Offset() - startOfLine; // "failed to tokenize register index"
              return Eof;
            }
          }
          cursor := cursor + 1;
        case None =>
          var value := ParseUsize(content[start..Offset()]);
          return Register(value.value);
      }
    }

    /** The catch-all arm of `match_kind`: read a word from the character just consumed, then decode it. */
    method MatchOperation() returns (kind: TokenKind)
      requires Valid() && 0 < cursor
      requires var c := content[cursor - 1]; c != '#' && c != '$' && !IsSeparator(c)
      requires ScanKind(content, cursor - 1, line, startOfLine).Scanned?
      modifies this`cursor
      ensures Valid()
      ensures old(ScanKind(content, cursor - 1, line, startOfLine)) == Scanned(kind, cursor, line, startOfLine)
    {
      var start := Offset();
      while true
        invariant Valid() && 1 <= start <= cursor
        invariant WordEnd(content, cursor) == WordEnd(content, start)
        decreases |content| - cursor
      {
        match Peek()
        case Some(cc) =>
          if cc == ' ' || cc == '\n' || IsAtEnd() {
            var op := FromMnemonic(content[start - 1..Offset()]);
            match op
            case NOP =>
              var column: nat := Offset() - startOfLine; // "failed to tokenize opcode literal"
              return Eof;
            case _ => return Operation(op);
          }
          cursor := cursor + 1;
        case None =>
          var op := FromMnemonic(content[start - 1..Offset()]);
          return Operation(op);
      }
    }

    /** `next_token`: one `match_kind`, spanned by the offsets before and after it. */
    method NextToken() returns (t: Token)
      requires Valid() && ScanKind(content, cursor, line, startOfLine).Scanned?
      modifies this`cursor, this`line, this`startOfLine
      ensures Valid()
      ensures var r := old(ScanKind(content, cursor, line, startOfLine));
              && t == NewToken(r.kind, old(cursor), r.pos)
              && cursor == r.pos && line == r.line && startOfLine == r.startOfLine
    {
      var start := Offset();
      var kind := MatchKind();
      var end := Offset();
      t := NewToken(kind, start, end);
    }

    /** One round of `tokenize`'s loop: `next_token`, then push the token. */
    method PushNextToken() returns (token: Token)
      requires Valid() && LexFrom(content, cursor, line, startOfLine).Lexed?
      modifies this`cursor, this`line, this`startOfLine, this`tokens
      ensures Valid() && tokens == old(tokens) + [token]
      ensures token.kind != Eof ==> old(cursor) < cursor
      ensures var r := old(LexFrom(content, cursor, line, startOfLine));
              if token.kind == Eof then r == Lexed([token], cursor, line, startOfLine)
              else var rest := LexFrom(content, cursor, line, startOfLine);
                   rest.Lexed? && r == Lexed([token] + rest.tokens, rest.pos, rest.line, rest.startOfLine)
    {
      LexStep(content, cursor, line, startOfLine);
      token := NextToken();
      tokens := tokens + [token];
    }

    /** `tokenize`: push tokens until, and including, the first `Eof`. */
    method Tokenize()
      requires Valid() && LexFrom(content, cursor, line, startOfLine).Lexed?
      modifies this`cursor, this`line, this`startOfLine, this`tokens
      ensures Valid()
      ensures var r := old(LexFrom(content, cursor, line, startOfLine));
              && tokens == old(tokens) + r.tokens
              && cursor == r.pos && line == r.line && startOfLine == r.startOfLine
    {
      ghost var text := content;
      ghost var run := LexFrom(text, cursor, line, startOfLine);
      ghost var rest := run;
      ghost var pushed: seq<Token> := [];
      var done := false;  // set where the source breaks out of its `loop`
      while !done
        invariant Valid() && content == text
        invariant tokens == old(tokens) + pushed
        invariant done ==> run == Lexed(pushed, cursor, line, startOfLine)
        invariant !done ==> rest == LexFrom(text, cursor, line, startOfLine) && rest.Lexed?
        invariant !done ==> run == Lexed(pushed + rest.tokens, rest.pos, rest.line, rest.startOfLine)
        decreases |text| - cursor, if done then 0 else 1
      {
        var token := PushNextToken();
        if token.kind == Eof {
          done := true;
        } else {
          ghost var next := LexFrom(text, cursor, line, startOfLine);
          assert pushed + rest.tokens == (pushed + [token]) + next.tokens;
          rest := next;
        }
        pushed := pushed + [token];
      }
    }
  }
}
