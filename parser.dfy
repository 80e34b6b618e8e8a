/**
 * The assembler's parser and instruction encoder. `parse` walks the token
 * stream and recognises only `LOAD`, which takes the next two tokens, of any
 * kind, as its operands; every other token is skipped. `as_bytes` writes an
 * instruction as its opcode byte followed by the bytes of its operands: a
 * register as one byte, an integer as two bytes, high byte first.
 *
 * `ParseFrom` and `Encode` are the specifications; `Parser.Parse` and
 * `AssemblyInstruction.AsBytes` are the source's loops, proved against them.
 * As written, the operand loop of `as_bytes` visits `operand_1` three times,
 * and `Encode` and `AsBytes` keep it so; `EncodeIntended` and
 * `AsBytesIntended` are the loop that visits each operand once.
 * A missing operand after `LOAD` (an `unwrap` on an exhausted iterator) and a
 * token of the wrong kind in `as_bytes` (`process::exit`) are `None` in the
 * specifications and preconditions of the methods.
 */
module Parser {
  import opened Wrappers
  import opened Numeric
  import opened Instruction
  import opened Lexer

  /** An instruction: its opcode token and up to three operand tokens. */
  datatype AssemblyInstruction = AssemblyInstruction(
    opcode: Token,
    operand1: Option<Token>,
    operand2: Option<Token>,
    operand3: Option<Token>)
  {
    /**
     * `as_bytes` with its loop visiting `operand_1`, `operand_2` and
     * `operand_3` once each: the opcode byte, then each operand's bytes.
     */
    method AsBytesIntended() returns (bytes: seq<u8>)
      requires EncodeIntended(this).Some?
      ensures Some(bytes) == EncodeIntended(this)
    {
      match opcode.kind {
        case Operation(code) =>
          bytes := [Code(code)];
        case _ =>
          assert false;
      }
      var visited := [operand1, operand2, operand3];
      EncodeIntendedBySlots(this);
      for k := 0 to 3
        invariant bytes == [Code(opcode.kind.code)] + SlotsBytes(visited[..k])
      {
        var written := OperandAsBytes(visited[k]);
        assert visited[..k + 1][..k] == visited[..k];
        bytes := bytes + written;
      }
      assert visited[..3] == visited;
    }

    /** `as_bytes` as the source's loop stands: it visits `operand_1` three times. */
    method AsBytes() returns (bytes: seq<u8>)
      requires Encode(this).Some?
      ensures Some(bytes) == Encode(this)
    {
      match opcode.kind {
        case Operation(code) =>
          bytes := [Code(code)];
        case _ =>
          assert false;
      }
      var visited := [operand1, operand1, operand1];
      for k := 0 to 3
        invariant OperandBytes(operand1).Some?
        invariant bytes == [Code(opcode.kind.code)] + Repeat(OperandBytes(operand1).value, k)
      {
        var written := OperandAsBytes(visited[k]);
        bytes := bytes + written;
        RepeatStep(OperandBytes(operand1).value, k);
      }
      ghost var b := OperandBytes(operand1).value;
      assert Repeat(b, 3) == b + b + b by {
        RepeatStep(b, 0);
        RepeatStep(b, 1);
        RepeatStep(b, 2);
      }
      assert Encode(this) == Some([Code(opcode.kind.code)] + b + b + b);
      assert bytes == [Code(opcode.kind.code)] + b + b + b;
    }
  }

  /**
   * One turn of the operand loop in `as_bytes`: an integer's `value as u16`
   * split into its high and then its low byte, a register's `reg_index as u8`,
   * nothing for an empty slot.
   */
  method OperandAsBytes(slot: Option<Token>) returns (bytes: seq<u8>)
    requires OperandBytes(slot).Some?
    ensures Some(bytes) == OperandBytes(slot)
  {
    bytes := [];
    match slot {
      case Some(t) =>
        match t.kind {
          case IntegerOperand(value) =>
            var buffer := I32AsU16(value);
            var high := buffer / 0x100;
            var low := buffer % 0x100;
            bytes := [high as u8, low as u8];
          case Register(regIndex) =>
            bytes := [(regIndex % 0x100) as u8];
          case _ =>
            assert false;
        }
      case None =>
    }
  }

  /** `s` written `n` times in a row. */
  function Repeat(s: seq<u8>, n: nat): (r: seq<u8>)
    ensures |r| == n * |s|
  {
    if n == 0 then [] else Repeat(s, n - 1) + s
  }

  lemma RepeatStep(s: seq<u8>, n: nat)
    ensures Repeat(s, n + 1) == Repeat(s, n) + s
  {
  }

  /**
   * The bytes of one operand slot: nothing for an empty slot, `reg_index as u8`
   * for a register, the two bytes of `value as u16` (high byte first) for an
   * integer; any other kind of token is fatal (`None`).
   */
  function OperandBytes(slot: Option<Token>): (r: Option<seq<u8>>)
    ensures slot.None? ==> r == Some([])
    ensures r.Some? && slot.Some? ==> |r.value| == (if slot.value.kind.IntegerOperand? then 2 else 1)
  {
    match slot
    case None => Some([])
    case Some(t) =>
      match t.kind
      case IntegerOperand(value) =>
        var buffer := I32AsU16(value);
        Some([(buffer / 0x100) as u8, (buffer % 0x100) as u8])
      case Register(regIndex) => Some([(regIndex % 0x100) as u8])
      case Operation(_) => None
      case Eof => None
  }

  /** The bytes of a run of encodable operand slots, in order. */
  function SlotsBytes(slots: seq<Option<Token>>): seq<u8>
    requires forall i :: 0 <= i < |slots| ==> OperandBytes(slots[i]).Some?
  {
    if slots == [] then [] else SlotsBytes(slots[..|slots| - 1]) + OperandBytes(slots[|slots| - 1]).value
  }

  /**
   * The encoding of an instruction: the opcode's code, then the bytes of
   * `operand_1`, `operand_2` and `operand_3` in turn. `None` when the opcode
   * token is not an operation or an operand is neither a register nor an
   * integer (where `as_bytes` exits the process).
   */
  function EncodeIntended(ins: AssemblyInstruction): (r: Option<seq<u8>>)
  {
    match ins.opcode.kind
    case Operation(code) =>
      (match (OperandBytes(ins.operand1), OperandBytes(ins.operand2), OperandBytes(ins.operand3))
       case (Some(b1), Some(b2), Some(b3)) => Some([Code(code)] + b1 + b2 + b3)
       case _ => None)
    case _ => None
  }

  /** `EncodeIntended` as the opcode's code followed by the bytes of the three operand slots. */
  lemma EncodeIntendedBySlots(ins: AssemblyInstruction)
    requires EncodeIntended(ins).Some?
    ensures ins.opcode.kind.Operation?
    ensures forall i :: 0 <= i < 3 ==> OperandBytes([ins.operand1, ins.operand2, ins.operand3][i]).Some?
    ensures EncodeIntended(ins).value == [Code(ins.opcode.kind.code)] + SlotsBytes([ins.operand1, ins.operand2, ins.operand3])
  {
    var slots := [ins.operand1, ins.operand2, ins.operand3];
    var b1, b2, b3 := OperandBytes(ins.operand1).value, OperandBytes(ins.operand2).value, OperandBytes(ins.operand3).value;
    assert slots[..2] == [ins.operand1, ins.operand2] && slots[..2][..1] == [ins.operand1] && [ins.operand1][..0] == [];
    assert SlotsBytes([ins.operand1]) == b1;
    assert SlotsBytes([ins.operand1, ins.operand2]) == b1 + b2;
    assert SlotsBytes(slots) == b1 + b2 + b3;
    assert [Code(ins.opcode.kind.code)] + (b1 + b2 + b3) == [Code(ins.opcode.kind.code)] + b1 + b2 + b3;
  }

  /**
   * `as_bytes` as written: the opcode's code, then `operand_1`'s bytes three
   * times. `operand_2` and `operand_3` are never read.
   */
  function Encode(ins: AssemblyInstruction): (r: Option<seq<u8>>)
  {
    match ins.opcode.kind
    case Operation(code) =>
      (match OperandBytes(ins.operand1)
       case Some(b) => Some([Code(code)] + b + b + b)
       case None => None)
    case _ => None
  }

  /**
   * What `Encode` produces: it fails exactly on a non-operation
   * opcode token or an unencodable `operand_1`; otherwise the first byte is
   * the opcode's code, followed by three copies of `operand_1`'s bytes,
   * whatever `operand_2` and `operand_3` hold.
   */
  lemma EncodeShape(ins: AssemblyInstruction, other2: Option<Token>, other3: Option<Token>)
    ensures Encode(ins).Some? <==> ins.opcode.kind.Operation? && OperandBytes(ins.operand1).Some?
    ensures Encode(ins).Some? ==>
              var bytes := Encode(ins).value;
              var b := OperandBytes(ins.operand1).value;
              && |bytes| == 1 + 3 * |b|
              && bytes[0] == Code(ins.opcode.kind.code)
              && bytes[1..1 + |b|] == bytes[1 + |b|..1 + 2 * |b|] == bytes[1 + 2 * |b|..] == b
    ensures Encode(ins.(operand2 := other2, operand3 := other3)) == Encode(ins)
  {
    if Encode(ins).Some? {
      var b := OperandBytes(ins.operand1).value;
      var bytes := Encode(ins).value;
      assert bytes == [Code(ins.opcode.kind.code)] + b + b + b;
      assert bytes[1..1 + |b|] == b;
      assert bytes[1 + |b|..1 + 2 * |b|] == b;
      assert bytes[1 + 2 * |b|..] == b;
    }
  }

  /**
   * What `EncodeIntended` produces: it fails exactly on a non-operation opcode token
   * or an unencodable operand; otherwise the opcode's code and the three
   * operands' bytes in order, so each operand can be read back from its place.
   */
  lemma EncodeIntendedShape(ins: AssemblyInstruction)
    ensures EncodeIntended(ins).Some? <==>
              && ins.opcode.kind.Operation?
              && OperandBytes(ins.operand1).Some? && OperandBytes(ins.operand2).Some? && OperandBytes(ins.operand3).Some?
    ensures EncodeIntended(ins).Some? ==>
              var bytes := EncodeIntended(ins).value;
              var b1, b2, b3 := OperandBytes(ins.operand1).value, OperandBytes(ins.operand2).value, OperandBytes(ins.operand3).value;
              && |bytes| == 1 + |b1| + |b2| + |b3|
              && bytes[0] == Code(ins.opcode.kind.code)
              && bytes[1..1 + |b1|] == b1
              && bytes[1 + |b1|..1 + |b1| + |b2|] == b2
              && bytes[1 + |b1| + |b2|..] == b3
  {
    if EncodeIntended(ins).Some? {
      var b1, b2, b3 := OperandBytes(ins.operand1).value, OperandBytes(ins.operand2).value, OperandBytes(ins.operand3).value;
      var bytes := EncodeIntended(ins).value;
      assert bytes == [Code(ins.opcode.kind.code)] + b1 + b2 + b3;
      assert bytes[1..1 + |b1|] == b1;
      assert bytes[1 + |b1|..1 + |b1| + |b2|] == b2;
      assert bytes[1 + |b1| + |b2|..] == b3;
    }
  }

  /**
   * An integer operand is written as the two bytes of its low 16 bits, high
   * byte first: read back big-endian they give `value` modulo 2^16, so every
   * value in `0..=0xFFFF` survives.
   */
  lemma IntegerOperandBytes(t: Token)
    requires t.kind.IntegerOperand?
    ensures var bytes := OperandBytes(Some(t)).value;
            && |bytes| == 2
            && BigEndian16(bytes[0], bytes[1]) == t.kind.value % 0x1_0000
            && (0 <= t.kind.value <= 0xFFFF ==> BigEndian16(bytes[0], bytes[1]) == t.kind.value)
  {
    var w := I32AsU16(t.kind.value);
    var bytes := OperandBytes(Some(t)).value;
    assert bytes == [(w / 0x100) as u8, (w % 0x100) as u8];
    assert BigEndian16(bytes[0], bytes[1]) == w;
  }

  /** A register operand is written as one byte, its index modulo 256: exact for the indices below 256. */
  lemma RegisterOperandBytes(t: Token)
    requires t.kind.Register?
    ensures OperandBytes(Some(t)) == Some([(t.kind.regIndex % 0x100) as u8])
    ensures t.kind.regIndex < 0x100 ==> OperandBytes(Some(t)).value[0] as int == t.kind.regIndex
  {
  }

  /** The instruction `parse` builds for a `LOAD` at position `h`: the two following tokens are its operands. */
  function LoadAt(ts: seq<Token>, h: nat): AssemblyInstruction
    requires h + 2 < |ts|
  {
    AssemblyInstruction(ts[h], Some(ts[h + 1]), Some(ts[h + 2]), None)
  }

  predicate IsLoad(t: Token)
  {
    t.kind == Operation(LOAD)
  }

  /**
   * `parse` from token `i`: a `LOAD` takes the next two tokens as operands
   * (`None` when fewer than two remain: the `unwrap` panics), every other
   * token is skipped.
   */
  function ParseFrom(ts: seq<Token>, i: nat): (r: Option<seq<AssemblyInstruction>>)
    requires i <= |ts|
    ensures r.Some? ==> |r.value| <= (|ts| - i) / 3
    decreases |ts| - i
  {
    if i == |ts| then Some([])
    else if IsLoad(ts[i]) then
      if i + 2 < |ts| then
        match ParseFrom(ts, i + 3)
        case Some(rest) => Some([LoadAt(ts, i)] + rest)
        case None => None
      else None
    else ParseFrom(ts, i + 1)
  }

  /** Where the `k`-th run of skipped tokens begins: at `i`, or just past the previous `LOAD` and its two operands. */
  function GapStart(hs: seq<nat>, i: nat, k: nat): nat
    requires k <= |hs|
  {
    if k == 0 then i else hs[k - 1] + 3
  }

  /** Where the `k`-th run of skipped tokens ends: at the `k`-th `LOAD`, or at `n` after the last one. */
  function GapEnd(hs: seq<nat>, n: nat, k: nat): nat
    requires k <= |hs|
  {
    if k == |hs| then n else hs[k]
  }

  /** No `LOAD` among `ts[a..b]`. */
  predicate NoLoad(ts: seq<Token>, a: nat, b: nat)
    requires b <= |ts|
  {
    forall j :: a <= j < b ==> !IsLoad(ts[j])
  }

  /**
   * `hs` are the positions of the `LOAD`s that `parse` turns into
   * instructions when it starts at `i` and stops at `n`: each is a `LOAD`,
   * each is followed by its two operands, and in every stretch before,
   * between and after them there is no other `LOAD`.
   */
  ghost predicate Heads(ts: seq<Token>, i: nat, n: nat, hs: seq<nat>)
    requires n <= |ts|
  {
    && (forall k :: 0 <= k < |hs| ==> hs[k] < |ts| && IsLoad(ts[hs[k]]))
    && (forall k :: 0 <= k <= |hs| ==> GapStart(hs, i, k) <= GapEnd(hs, n, k) && NoLoad(ts, GapStart(hs, i, k), GapEnd(hs, n, k)))
  }

  /** The instructions `parse` builds for the heads `hs`, in order. */
  function LoadsAt(ts: seq<Token>, hs: seq<nat>): (r: seq<AssemblyInstruction>)
    requires forall k :: 0 <= k < |hs| ==> hs[k] + 2 < |ts|
    ensures |r| == |hs|
    ensures forall k :: 0 <= k < |hs| ==> r[k] == LoadAt(ts, hs[k])
  {
    if hs == [] then [] else [LoadAt(ts, hs[0])] + LoadsAt(ts, hs[1..])
  }

  /** In a chain of heads, each head is at least three tokens past the previous one. */
  lemma HeadsApart(ts: seq<Token>, i: nat, n: nat, hs: seq<nat>)
    requires n <= |ts| && Heads(ts, i, n, hs)
    ensures forall k :: 0 <= k < |hs| ==> i <= hs[k] && hs[k] + 3 <= n
  {
    forall k | 0 <= k < |hs|
      ensures i <= hs[k] && hs[k] + 3 <= n
    {
      LowerBound(ts, i, n, hs, k);
      UpperBound(ts, i, n, hs, k);
    }
  }

  lemma {:induction false} LowerBound(ts: seq<Token>, i: nat, n: nat, hs: seq<nat>, k: nat)
    requires n <= |ts| && Heads(ts, i, n, hs) && k < |hs|
    ensures i <= hs[k]
    decreases k
  {
    assert GapStart(hs, i, k) <= GapEnd(hs, n, k);
    if k > 0 {
      LowerBound(ts, i, n, hs, k - 1);
    }
  }

  lemma {:induction false} UpperBound(ts: seq<Token>, i: nat, n: nat, hs: seq<nat>, k: nat)
    requires n <= |ts| && Heads(ts, i, n, hs) && k < |hs|
    ensures hs[k] + 3 <= n
    decreases |hs| - k
  {
    assert GapStart(hs, i, k + 1) <= GapEnd(hs, n, k + 1);
    if k + 1 < |hs| {
      UpperBound(ts, i, n, hs, k + 1);
    }
  }

  /** Dropping the first head: the rest are the heads of the parse that resumes past it. */
  lemma HeadsTail(ts: seq<Token>, i: nat, n: nat, hs: seq<nat>)
    requires n <= |ts| && Heads(ts, i, n, hs) && |hs| > 0
    ensures Heads(ts, hs[0] + 3, n, hs[1..])
    ensures NoLoad(ts, i, hs[0])
  {
    assert GapStart(hs, i, 0) <= GapEnd(hs, n, 0);
    forall k | 0 <= k <= |hs[1..]|
      ensures GapStart(hs[1..], hs[0] + 3, k) == GapStart(hs, i, k + 1)
      ensures GapEnd(hs[1..], n, k) == GapEnd(hs, n, k + 1)
    {
    }
  }

  /**
   * Completeness of the characterisation: whenever `hs` are heads of
   * `ts[i..]`, `parse` succeeds with exactly one instruction per head, in
   * order, each taking the two tokens after its `LOAD`.
   */
  lemma {:induction false} ParseByHeads(ts: seq<Token>, i: nat, hs: seq<nat>)
    requires i <= |ts| && Heads(ts, i, |ts|, hs)
    ensures forall k :: 0 <= k < |hs| ==> hs[k] + 2 < |ts|
    ensures ParseFrom(ts, i) == Some(LoadsAt(ts, hs))
    decreases |ts| - i
  {
    HeadsApart(ts, i, |ts|, hs);
    if hs == [] {
      assert NoLoad(ts, GapStart(hs, i, 0), GapEnd(hs, |ts|, 0));
      SkipToLoad(ts, i, |ts|);
    } else {
      HeadsTail(ts, i, |ts|, hs);
      SkipToLoad(ts, i, hs[0]);
      ParseByHeads(ts, hs[0] + 3, hs[1..]);
      assert LoadsAt(ts, hs) == [LoadAt(ts, hs[0])] + LoadsAt(ts, hs[1..]);
    }
  }

  /** Tokens that are not `LOAD` produce no instruction: `parse` passes over them. */
  lemma {:induction false} SkipToLoad(ts: seq<Token>, i: nat, h: nat)
    requires i <= h <= |ts| && NoLoad(ts, i, h)
    ensures ParseFrom(ts, i) == ParseFrom(ts, h)
    decreases h - i
  {
    if i < h {
      SkipToLoad(ts, i + 1, h);
    }
  }

  /**
   * Soundness of the characterisation: a successful `parse` from `i` has
   * heads, and its instructions are the ones those heads build.
   */
  lemma {:induction false} ParseHasHeads(ts: seq<Token>, i: nat) returns (hs: seq<nat>)
    requires i <= |ts| && ParseFrom(ts, i).Some?
    ensures Heads(ts, i, |ts|, hs)
    ensures forall k :: 0 <= k < |hs| ==> hs[k] + 2 < |ts|
    ensures ParseFrom(ts, i).value == LoadsAt(ts, hs)
    decreases |ts| - i
  {
    if i == |ts| {
      hs := [];
      assert GapStart(hs, i, 0) == i;
    } else if IsLoad(ts[i]) {
      var tail := ParseHasHeads(ts, i + 3);
      hs := [i] + tail;
      HeadsCons(ts, i, |ts|, tail);
      assert LoadsAt(ts, hs) == [LoadAt(ts, i)] + LoadsAt(ts, tail);
    } else {
      var tail := ParseHasHeads(ts, i + 1);
      hs := tail;
      HeadsApart(ts, i + 1, |ts|, tail);
      ExtendFirstGap(ts, i, |ts|, tail);
    }
  }

  /** A `LOAD` at `i` followed by heads from `i + 3` gives heads from `i`. */
  lemma HeadsCons(ts: seq<Token>, i: nat, n: nat, tail: seq<nat>)
    requires i + 3 <= n <= |ts| && IsLoad(ts[i]) && Heads(ts, i + 3, n, tail)
    ensures Heads(ts, i, n, [i] + tail)
  {
    var hs := [i] + tail;
    forall k | 0 <= k <= |hs|
      ensures GapStart(hs, i, k) <= GapEnd(hs, n, k) && NoLoad(ts, GapStart(hs, i, k), GapEnd(hs, n, k))
    {
      if k > 0 {
        assert GapStart(hs, i, k) == GapStart(tail, i + 3, k - 1);
        assert GapEnd(hs, n, k) == GapEnd(tail, n, k - 1);
      }
    }
  }

  /** A non-`LOAD` token at `i` followed by heads from `i + 1` gives the same heads from `i`. */
  lemma ExtendFirstGap(ts: seq<Token>, i: nat, n: nat, hs: seq<nat>)
    requires i < n <= |ts| && !IsLoad(ts[i]) && Heads(ts, i + 1, n, hs)
    ensures Heads(ts, i, n, hs)
  {
    assert GapStart(hs, i + 1, 0) <= GapEnd(hs, n, 0);
    forall k | 0 <= k <= |hs|
      ensures GapStart(hs, i, k) <= GapEnd(hs, n, k) && NoLoad(ts, GapStart(hs, i, k), GapEnd(hs, n, k))
    {
      if k == 0 {
        assert NoLoad(ts, i + 1, GapEnd(hs, n, 0));
      } else {
        assert GapStart(hs, i, k) == GapStart(hs, i + 1, k);
      }
    }
  }

  /**
   * When `parse` panics: exactly when, after the heads found in `ts[i..h]`,
   * the next `LOAD` at `h` has fewer than two tokens after it.
   */
  lemma {:induction false} ParsePanics(ts: seq<Token>, i: nat, h: nat, hs: seq<nat>)
    requires i <= h < |ts| && Heads(ts, i, h, hs)
    requires IsLoad(ts[h]) && |ts| <= h + 2
    ensures ParseFrom(ts, i).None?
    decreases |ts| - i
  {
    HeadsApart(ts, i, h, hs);
    if hs == [] {
      assert NoLoad(ts, GapStart(hs, i, 0), GapEnd(hs, h, 0));
      SkipToLoad(ts, i, h);
    } else {
      HeadsTail(ts, i, h, hs);
      SkipToLoad(ts, i, hs[0]);
      ParsePanics(ts, hs[0] + 3, h, hs[1..]);
    }
  }

  /** The converse: a failed `parse` has such a `LOAD`, found after the heads before it. */
  lemma {:induction false} PanicHasCause(ts: seq<Token>, i: nat) returns (h: nat, hs: seq<nat>)
    requires i <= |ts| && ParseFrom(ts, i).None?
    ensures i <= h < |ts| && Heads(ts, i, h, hs)
    ensures IsLoad(ts[h]) && |ts| <= h + 2
    decreases |ts| - i
  {
    if IsLoad(ts[i]) && |ts| <= i + 2 {
      h, hs := i, [];
      assert GapStart(hs, i, 0) == i == GapEnd(hs, h, 0);
    } else if IsLoad(ts[i]) {
      var tail;
      h, tail := PanicHasCause(ts, i + 3);
      hs := [i] + tail;
      HeadsCons(ts, i, h, tail);
    } else {
      var tail;
      h, tail := PanicHasCause(ts, i + 1);
      hs := tail;
      ExtendFirstGap(ts, i, h, tail);
    }
  }

  /** The parser: the tokens it will read. */
  class Parser {
    var tokensToParse: seq<Token>

    /** `Parser::new`. */
    constructor (tokensToParse: seq<Token>)
      ensures this.tokensToParse == tokensToParse
    {
      this.tokensToParse := tokensToParse;
    }

    /** `Parser::default`: no tokens. */
    constructor Default()
      ensures tokensToParse == []
    {
      tokensToParse := [];
    }

    /** `set_tokens`: replace the tokens to read. */
    method SetTokens(tokens: seq<Token>)
      modifies this
      ensures tokensToParse == tokens
    {
      tokensToParse := tokens;
    }

    /** `parse`: one pass over the tokens, pushing an instruction for each `LOAD` and its two operands. */
    method Parse() returns (instructions: seq<AssemblyInstruction>)
      requires ParseFrom(tokensToParse, 0).Some?
      ensures Some(instructions) == ParseFrom(tokensToParse, 0)
    {
      instructions := [];
      var i := 0;
      while i < |tokensToParse|
        invariant i <= |tokensToParse|
        invariant ParseFrom(tokensToParse, i).Some?
        invariant ParseFrom(tokensToParse, 0).value == instructions + ParseFrom(tokensToParse, i).value
        decreases |tokensToParse| - i
      {
        var t := tokensToParse[i];
        i := i + 1;
        match t.kind {
          case Operation(code) =>
            if code == LOAD {
              var operand1 := tokensToParse[i];
              i := i + 1;
              var operand2 := tokensToParse[i];
              i := i + 1;
              ghost var rest := ParseFrom(tokensToParse, i).value;
              instructions := instructions + [AssemblyInstruction(t, Some(operand1), Some(operand2), None)];
              assert ParseFrom(tokensToParse, i - 3).value == [LoadAt(tokensToParse, i - 3)] + rest;
            }
          case _ =>
        }
      }
      assert ParseFrom(tokensToParse, i).value == [];
      assert instructions + [] == instructions;
    }
  }
}
