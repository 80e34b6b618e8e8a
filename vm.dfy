/**
 * The virtual machine: 32 `i32` registers, the bytecode, a byte heap, a
 * program counter, the remainder of the last division and a comparison flag.
 * `execute_bytecode` fetches the opcode byte at the program counter, reads its
 * operand bytes (each read advances the counter) and acts on them; `run`
 * repeats it until it returns `false`.
 *
 * `Execute` is one `execute_bytecode` as a function on a `Machine` value, with
 * `Panicked` where the source panics (an index past the bytecode or the
 * register file, `i32` overflow, `usize` overflow in a jump, a heap size past
 * `isize::MAX`). The class `VM` is the source's object; its methods are proved
 * against `Execute` and `RunFor` and require that no panic happens.
 */
module Vm {
  import opened Numeric
  import opened Instruction

  const REGISTER_COUNT: nat := 32

  /** The register file: exactly 32 registers. */
  type Registers = s: seq<i32> | |s| == REGISTER_COUNT witness seq(REGISTER_COUNT, _ => 0)

  /** Bytecode: no longer than a `Vec` can be. */
  type Bytecode = s: seq<u8> | |s| <= ISIZE_MAX

  /** The observable state of a `VM` (the unused stack is left out). */
  datatype Machine = Machine(
    registers: Registers,
    bytecode: Bytecode,
    heap: seq<u8>,
    pc: usize,
    divRemainder: u32,
    eqFlag: bool)

  /** `VM::new`: every register, the remainder and the program counter zero, flag false, nothing loaded. */
  function Fresh(): Machine
  {
    Machine(seq(REGISTER_COUNT, _ => 0), [], [], 0, 0, false)
  }

  /** The result of one `execute_bytecode`: whether to keep running and the new state; or a panic. */
  datatype Outcome = Stepped(running: bool, next: Machine) | Panicked

  predicate InI32(v: int)
  {
    I32_MIN <= v <= I32_MAX
  }

  /** `|x|`. */
  function Abs(x: int): nat
  {
    if x < 0 then -x else x
  }

  /** Rust's `/` on integers: the quotient rounded toward zero. */
  function TruncDiv(a: int, b: int): int
    requires b != 0
  {
    var q := Abs(a) / Abs(b);
    if (a < 0) == (b < 0) then q else -q
  }

  /** Rust's `%` on integers: the remainder takes the sign of the dividend. */
  function TruncRem(a: int, b: int): (r: int)
    requires b != 0
    ensures Abs(r) < Abs(b)
  {
    var r := Abs(a) % Abs(b);
    if a < 0 then -r else r
  }

  /**
   * Truncating division and remainder fit together: the dividend is quotient
   * times divisor plus remainder, and the remainder is smaller than the
   * divisor and has the dividend's sign.
   */
  lemma TruncDivision(a: int, b: int)
    requires b != 0
    ensures a == TruncDiv(a, b) * b + TruncRem(a, b)
    ensures Abs(TruncRem(a, b)) < Abs(b)
    ensures TruncRem(a, b) == 0 || (TruncRem(a, b) < 0 <==> a < 0)
  {
    var q, r := Abs(a) / Abs(b), Abs(a) % Abs(b);
    assert Abs(a) == q * Abs(b) + r;
    if b < 0 {
      assert q * Abs(b) == (-q) * b by {
        NegateFactor(q, b);
      }
    }
  }

  /**
   * The magnitudes of the truncating quotient and remainder are the
   * quotient and remainder of the magnitudes; on non-negative operands they
   * are the usual quotient and remainder.
   */
  lemma TruncMagnitudes(a: int, b: int)
    requires b != 0
    ensures Abs(TruncDiv(a, b)) == Abs(a) / Abs(b) && Abs(TruncRem(a, b)) == Abs(a) % Abs(b)
    ensures 0 <= a && 0 < b ==> TruncDiv(a, b) == a / b && TruncRem(a, b) == a % b
  {
    var q, r := Abs(a) / Abs(b), Abs(a) % Abs(b);
    if (a < 0) == (b < 0) {
      assert TruncDiv(a, b) == q;
    } else {
      assert TruncDiv(a, b) == -q;
    }
    if a < 0 {
      assert TruncRem(a, b) == -r;
    } else {
      assert TruncRem(a, b) == r;
    }
  }

  lemma NegateFactor(q: int, b: int)
    ensures q * -b == (-q) * b
  {
  }

  /** The three arithmetic opcodes that store into a register. */
  predicate IsArith(op: Opcode)
  {
    op == ADD || op == SUB || op == MUL
  }

  /** The six comparison opcodes that set the flag. */
  predicate IsCompare(op: Opcode)
  {
    op == EQ || op == NEQ || op == GT || op == GEQ || op == LE || op == LEQ
  }

  /** The three jumps that always jump. */
  predicate IsJump(op: Opcode)
  {
    op == JMP || op == JMPF || op == JMPB
  }

  function Arith(op: Opcode, x: int, y: int): int
    requires IsArith(op)
  {
    match op
    case ADD => x + y
    case SUB => x - y
    case MUL => x * y
  }

  /** The comparison each flag-setting opcode makes (`LE` is strict). */
  function Compare(op: Opcode, x: int, y: int): bool
    requires IsCompare(op)
  {
    match op
    case EQ => x == y
    case NEQ => x != y
    case GT => x > y
    case GEQ => x >= y
    case LE => x < y
    case LEQ => x <= y
  }

  /** `Vec::resize(n, 0)`: keep the first `n` bytes, padding with zeros up to `n`. */
  function Resize(s: seq<u8>, n: nat): (r: seq<u8>)
  {
    if n <= |s| then s[..n] else s + seq(n - |s|, _ => 0)
  }

  /** What `resize` leaves: exactly `n` bytes, the old ones where they fit, zeros after them; resizing twice to `n` is resizing once. */
  lemma ResizeProperties(s: seq<u8>, n: nat)
    ensures |Resize(s, n)| == n
    ensures forall i :: 0 <= i < n && i < |s| ==> Resize(s, n)[i] == s[i]
    ensures forall i :: |s| <= i < n ==> Resize(s, n)[i] == 0
    ensures Resize(Resize(s, n), n) == Resize(s, n)
  {
    assert Resize(s, n)[..n] == Resize(s, n);
  }

  /*
   * The arms of `execute_bytecode`. Each takes the machine after the opcode
   * byte was fetched, so `m.pc` is the position of the first operand byte.
   */

  /** `LOAD r hi lo`: register `r` gets the big-endian 16-bit value. */
  function LoadStep(m: Machine): (o: Outcome)
    ensures o.Stepped? ==> o.next.bytecode == m.bytecode
  {
    if m.pc + 2 >= |m.bytecode| then Panicked
    else
      var r := m.bytecode[m.pc];
      var value := BigEndian16(m.bytecode[m.pc + 1], m.bytecode[m.pc + 2]);
      if r >= REGISTER_COUNT then Panicked
      else Stepped(true, m.(registers := m.registers[r := value], pc := m.pc + 3))
  }

  /** `ADD`/`SUB`/`MUL a b d`: register `d` gets `reg[a] op reg[b]`; an `i32` overflow panics. */
  function ArithStep(m: Machine, op: Opcode): (o: Outcome)
    requires IsArith(op)
    ensures o.Stepped? ==> o.next.bytecode == m.bytecode
  {
    if m.pc + 2 >= |m.bytecode| then Panicked
    else
      var a, b, d := m.bytecode[m.pc], m.bytecode[m.pc + 1], m.bytecode[m.pc + 2];
      if a >= REGISTER_COUNT || b >= REGISTER_COUNT || d >= REGISTER_COUNT then Panicked
      else
        var v := Arith(op, m.registers[a], m.registers[b]);
        if !InI32(v) then Panicked
        else Stepped(true, m.(registers := m.registers[d := v], pc := m.pc + 3))
  }

  /**
   * `DIV a b d`: a zero divisor stops the machine (before `d` is looked at);
   * otherwise register `d` gets the truncating quotient and the remainder is
   * kept `as u32`. `i32::MIN / -1` overflows and panics.
   */
  function DivStep(m: Machine): (o: Outcome)
    ensures o.Stepped? ==> o.next.bytecode == m.bytecode
  {
    if m.pc + 2 >= |m.bytecode| then Panicked
    else
      var a, b, d := m.bytecode[m.pc], m.bytecode[m.pc + 1], m.bytecode[m.pc + 2];
      if a >= REGISTER_COUNT || b >= REGISTER_COUNT then Panicked
      else
        var x, y := m.registers[a], m.registers[b];
        if y == 0 then Stepped(false, m.(pc := m.pc + 3))
        else if !InI32(TruncDiv(x, y)) || d >= REGISTER_COUNT then Panicked
        else
          Stepped(true, m.(registers := m.registers[d := TruncDiv(x, y)],
                           divRemainder := I32AsU32(TruncRem(x, y)),
                           pc := m.pc + 3))
  }

  /**
   * `JMP`/`JMPF`/`JMPB b`: the target is `reg[b] as usize`. `JMP` jumps to it;
   * `JMPF` and `JMPB` add it to or subtract it from the counter as it stands
   * after the operand byte, and panic on `usize` overflow.
   */
  function JumpStep(m: Machine, op: Opcode): (o: Outcome)
    requires IsJump(op)
    ensures o.Stepped? ==> o.next.bytecode == m.bytecode
  {
    if m.pc >= |m.bytecode| then Panicked
    else
      var b := m.bytecode[m.pc];
      if b >= REGISTER_COUNT then Panicked
      else
        var offset := I32AsUsize(m.registers[b]);
        var p := m.pc + 1;
        if op == JMP then Stepped(true, m.(pc := offset))
        else if op == JMPF then
          if p + offset > USIZE_MAX then Panicked else Stepped(true, m.(pc := p + offset))
        else
          if offset > p then Panicked else Stepped(true, m.(pc := p - offset))
  }

  /** `JEQ`/`JNEQ b`: jump as `JMP` when the flag is true/false; otherwise the operand is not read. */
  function CondJumpStep(m: Machine, op: Opcode): (o: Outcome)
    requires (op == JEQ || op == JNEQ)
    ensures o.Stepped? ==> o.next.bytecode == m.bytecode
  {
    if m.eqFlag == (op == JEQ) then JumpStep(m, JMP) else Stepped(true, m)
  }

  /** `EQ`..`LEQ a b _`: the flag gets the comparison of `reg[a]` and `reg[b]`; the third byte is skipped unread. */
  function CompareStep(m: Machine, op: Opcode): (o: Outcome)
    requires IsCompare(op)
    ensures o.Stepped? ==> o.next.bytecode == m.bytecode
  {
    if m.pc + 1 >= |m.bytecode| then Panicked
    else
      var a, b := m.bytecode[m.pc], m.bytecode[m.pc + 1];
      if a >= REGISTER_COUNT || b >= REGISTER_COUNT then Panicked
      else Stepped(true, m.(eqFlag := Compare(op, m.registers[a], m.registers[b]), pc := m.pc + 3))
  }

  /** `INC`/`DEC r _ _`: register `r` goes up or down by one; two bytes are skipped unread. */
  function IncDecStep(m: Machine, op: Opcode): (o: Outcome)
    requires (op == INC || op == DEC)
    ensures o.Stepped? ==> o.next.bytecode == m.bytecode
  {
    if m.pc >= |m.bytecode| then Panicked
    else
      var r := m.bytecode[m.pc];
      if r >= REGISTER_COUNT then Panicked
      else
        var v := if op == INC then m.registers[r] as int + 1 else m.registers[r] as int - 1;
        if !InI32(v) then Panicked
        else Stepped(true, m.(registers := m.registers[r := v], pc := m.pc + 3))
  }

  /** `ALOC r`: the heap is resized to `reg[r] as usize` bytes; a negative register is a size past `isize::MAX`, which panics. */
  function AlocStep(m: Machine): (o: Outcome)
    ensures o.Stepped? ==> o.next.bytecode == m.bytecode
  {
    if m.pc >= |m.bytecode| then Panicked
    else
      var r := m.bytecode[m.pc];
      if r >= REGISTER_COUNT then Panicked
      else
        var n := I32AsUsize(m.registers[r]);
        if n > ISIZE_MAX then Panicked
        else Stepped(true, m.(heap := Resize(m.heap, n), pc := m.pc + 1))
  }

  /**
   * One `execute_bytecode`: nothing happens past the end of the bytecode;
   * otherwise the opcode byte is fetched and its arm runs. `HLT`, `NOP` and
   * every byte that decodes to `NOP` stop the machine one past the opcode.
   */
  function Execute(m: Machine): (o: Outcome)
    ensures m.pc >= |m.bytecode| ==> o == Stepped(false, m)
    ensures o.Stepped? ==> o.next.bytecode == m.bytecode
  {
    if m.pc >= |m.bytecode| then Stepped(false, m)
    else
      var op := FromByte(m.bytecode[m.pc]);
      var fetched := m.(pc := m.pc + 1);
      match op
      case LOAD => LoadStep(fetched)
      case ADD | SUB | MUL => ArithStep(fetched, op)
      case DIV => DivStep(fetched)
      case JMP | JMPF | JMPB => JumpStep(fetched, op)
      case JEQ | JNEQ => CondJumpStep(fetched, op)
      case EQ | NEQ | GT | GEQ | LE | LEQ => CompareStep(fetched, op)
      case INC | DEC => IncDecStep(fetched, op)
      case ALOC => AlocStep(fetched)
      case _ => Stepped(false, fetched)
  }

  /** The outcome of `run` within `fuel` steps: stopped, still running, or panicked. */
  datatype RunOutcome = Halted(final: Machine) | OutOfFuel(final: Machine) | RunPanicked

  /** At most `fuel` steps of `step` from `m`, stopping at the first that does not keep running. */
  function Iterate(step: Machine -> Outcome, m: Machine, fuel: nat): RunOutcome
    decreases fuel
  {
    if fuel == 0 then OutOfFuel(m)
    else
      match step(m)
      case Panicked => RunPanicked
      case Stepped(running, next) => if running then Iterate(step, next, fuel - 1) else Halted(next)
  }

  /**
   * Iterating in two stretches is iterating once: after `a` steps that leave
   * the machine running, `b` more steps continue from where it is; a run that
   * has stopped or panicked within `a` steps stays so with more fuel.
   */
  lemma {:induction false} IterateAdditive(step: Machine -> Outcome, m: Machine, a: nat, b: nat)
    ensures Iterate(step, m, a + b)
         == (if Iterate(step, m, a).OutOfFuel? then Iterate(step, Iterate(step, m, a).final, b) else Iterate(step, m, a))
    decreases a
  {
    if a > 0 && step(m).Stepped? && step(m).running {
      IterateAdditive(step, step(m).next, a - 1, b);
      assert a + b - 1 == (a - 1) + b;
    }
  }

  /** `run` for at most `fuel` calls of `execute_bytecode`. */
  function RunFor(m: Machine, fuel: nat): (r: RunOutcome)
  {
    Iterate(Execute, m, fuel)
  }

  /** One more step of `run`: what `execute_bytecode` returns decides whether it goes on. */
  lemma RunForStep(m: Machine, fuel: nat)
    ensures RunFor(m, fuel + 1)
         == match Execute(m)
            case Panicked => RunPanicked
            case Stepped(running, next) => if running then RunFor(next, fuel) else Halted(next)
  {
  }

  /** `RunFor` in two stretches, as `IterateAdditive`. */
  lemma RunForAdditive(m: Machine, a: nat, b: nat)
    ensures RunFor(m, a + b) == (if RunFor(m, a).OutOfFuel? then RunFor(RunFor(m, a).final, b) else RunFor(m, a))
  {
    IterateAdditive(Execute, m, a, b);
  }

  /** A `DIV` whose operands can be read and whose divisor is zero. */
  predicate DivisionByZero(m: Machine)
  {
    && m.pc + 3 < |m.bytecode|
    && m.bytecode[m.pc] == Code(DIV)
    && m.bytecode[m.pc + 1] < REGISTER_COUNT && m.bytecode[m.pc + 2] < REGISTER_COUNT
    && m.registers[m.bytecode[m.pc + 2]] == 0
  }

  /**
   * When a step returns `false`, so that `run` stops: exactly past the end of
   * the bytecode (nothing changes), on an opcode byte that decodes to `HLT` or
   * `NOP` (the counter moves one past it) or on a division by zero (the
   * counter moves past the instruction; registers, flag and remainder stay).
   */
  lemma StopsExactly(m: Machine)
    ensures (Execute(m).Stepped? && !Execute(m).running) <==>
              (m.pc >= |m.bytecode| || m.bytecode[m.pc] == Code(HLT) || m.bytecode[m.pc] >= DECODABLE || DivisionByZero(m))
    ensures m.pc >= |m.bytecode| ==> Execute(m) == Stepped(false, m)
    ensures m.pc < |m.bytecode| && (m.bytecode[m.pc] == Code(HLT) || m.bytecode[m.pc] >= DECODABLE) ==>
              Execute(m) == Stepped(false, m.(pc := m.pc + 1))
    ensures DivisionByZero(m) ==> Execute(m) == Stepped(false, m.(pc := m.pc + 4))
  {
    if m.pc < |m.bytecode| {
      var op := FromByte(m.bytecode[m.pc]);
      if op == DIV {
        assert m.bytecode[m.pc] == Code(DIV);
      } else {
        assert !DivisionByZero(m);
        if op != HLT && op != NOP {
          assert m.bytecode[m.pc] != Code(HLT) && m.bytecode[m.pc] < DECODABLE;
        }
      }
    }
  }

  /**
   * `LOAD r hi lo`: it panics exactly when its operands run past the bytecode
   * or `r` names no register; otherwise register `r` becomes `hi * 256 + lo`,
   * the counter moves four bytes and nothing else changes.
   */
  lemma LoadSemantics(m: Machine)
    requires m.pc < |m.bytecode| && FromByte(m.bytecode[m.pc]) == LOAD
    ensures Execute(m).Panicked? <==> m.pc + 3 >= |m.bytecode| || m.bytecode[m.pc + 1] >= REGISTER_COUNT
    ensures Execute(m).Stepped? ==>
              var n, r := Execute(m).next, m.bytecode[m.pc + 1];
              && Execute(m).running
              && n.registers[r] == m.bytecode[m.pc + 2] as int * 256 + m.bytecode[m.pc + 3] as int
              && (forall i :: 0 <= i < REGISTER_COUNT && i != r ==> n.registers[i] == m.registers[i])
              && n.pc == m.pc + 4
              && n.heap == m.heap && n.eqFlag == m.eqFlag && n.divRemainder == m.divRemainder
  {
  }

  /**
   * `ADD`/`SUB`/`MUL a b d`: it panics exactly when an operand is missing, a
   * byte names no register or the exact result leaves `i32`; otherwise
   * register `d` holds the sum, difference or product of registers `a` and
   * `b`, the counter moves four bytes and nothing else changes.
   */
  lemma ArithSemantics(m: Machine)
    requires m.pc < |m.bytecode| && IsArith(FromByte(m.bytecode[m.pc]))
    ensures var op := FromByte(m.bytecode[m.pc]);
            Execute(m).Panicked? <==>
              || m.pc + 3 >= |m.bytecode|
              || m.bytecode[m.pc + 1] >= REGISTER_COUNT || m.bytecode[m.pc + 2] >= REGISTER_COUNT
              || m.bytecode[m.pc + 3] >= REGISTER_COUNT
              || !InI32(Arith(op, m.registers[m.bytecode[m.pc + 1]], m.registers[m.bytecode[m.pc + 2]]))
    ensures Execute(m).Stepped? ==>
              var n, op := Execute(m).next, FromByte(m.bytecode[m.pc]);
              var x, y, d := m.registers[m.bytecode[m.pc + 1]], m.registers[m.bytecode[m.pc + 2]], m.bytecode[m.pc + 3];
              && Execute(m).running
              && (op == ADD ==> n.registers[d] == x + y)
              && (op == SUB ==> n.registers[d] == x - y)
              && (op == MUL ==> n.registers[d] == x * y)
              && (forall i :: 0 <= i < REGISTER_COUNT && i != d ==> n.registers[i] == m.registers[i])
              && n.pc == m.pc + 4
              && n.heap == m.heap && n.eqFlag == m.eqFlag && n.divRemainder == m.divRemainder
  {
  }

  /**
   * `DIV a b d` with a non-zero divisor: register `d` gets the quotient
   * rounded toward zero and the remainder register its dividend-signed
   * remainder `as u32`, so that dividend = quotient * divisor + remainder;
   * only `i32::MIN / -1` or a bad `d` panics. The flag and heap stay.
   */
  lemma DivSemantics(m: Machine)
    requires m.pc + 3 < |m.bytecode| && m.bytecode[m.pc] == Code(DIV)
    requires m.bytecode[m.pc + 1] < REGISTER_COUNT && m.bytecode[m.pc + 2] < REGISTER_COUNT
    requires m.registers[m.bytecode[m.pc + 2]] != 0
    ensures var x, y := m.registers[m.bytecode[m.pc + 1]], m.registers[m.bytecode[m.pc + 2]];
            Execute(m).Panicked? <==> (x == I32_MIN && y == -1) || m.bytecode[m.pc + 3] >= REGISTER_COUNT
    ensures Execute(m).Stepped? ==>
              var n := Execute(m).next;
              var x, y, d := m.registers[m.bytecode[m.pc + 1]], m.registers[m.bytecode[m.pc + 2]], m.bytecode[m.pc + 3];
              var q, r := n.registers[d], TruncRem(x, y);
              && Execute(m).running
              && x == q * y + r && Abs(r) < Abs(y) && (r == 0 || (r < 0 <==> x < 0))
              && n.divRemainder == I32AsU32(r)
              && (forall i :: 0 <= i < REGISTER_COUNT && i != d ==> n.registers[i] == m.registers[i])
              && n.pc == m.pc + 4 && n.heap == m.heap && n.eqFlag == m.eqFlag
  {
    var x, y := m.registers[m.bytecode[m.pc + 1]], m.registers[m.bytecode[m.pc + 2]];
    TruncDivision(x, y);
    assert FromByte(m.bytecode[m.pc]) == DIV;
    QuotientFits(x, y);
  }

  /** Only `i32::MIN / -1` leaves `i32`. */
  lemma QuotientFits(x: i32, y: i32)
    requires y != 0
    ensures InI32(TruncDiv(x, y)) <==> !(x == I32_MIN && y == -1)
  {
    var q := Abs(x) / Abs(y);
    assert q <= Abs(x) by {
      DivBound(Abs(x), Abs(y));
    }
    if x == I32_MIN && y == -1 {
      assert TruncDiv(x, y) == -I32_MIN;
    } else if Abs(y) == 1 {
      assert q == Abs(x);
    } else {
      DivBound(Abs(x), Abs(y));
      assert q * 2 <= Abs(x);
    }
  }

  lemma DivBound(a: nat, b: nat)
    requires b > 0
    ensures a / b <= a
    ensures b >= 2 ==> (a / b) * 2 <= a
  {
    var q, r := a / b, a % b;
    assert a == q * b + r;
    if b >= 2 {
      assert q * b >= q * 2;
    }
  }

  /**
   * `EQ`..`LEQ a b _`: the flag becomes `reg[a] == reg[b]`, `!=`, `>`, `>=`,
   * `<` (for `LE`) or `<=`; the counter moves four bytes even if the third
   * byte is missing, and registers, heap and remainder stay.
   */
  lemma CompareSemantics(m: Machine)
    requires m.pc < |m.bytecode| && IsCompare(FromByte(m.bytecode[m.pc]))
    ensures Execute(m).Panicked? <==>
              m.pc + 2 >= |m.bytecode| || m.bytecode[m.pc + 1] >= REGISTER_COUNT || m.bytecode[m.pc + 2] >= REGISTER_COUNT
    ensures Execute(m).Stepped? ==>
              var n, op := Execute(m).next, FromByte(m.bytecode[m.pc]);
              var x, y := m.registers[m.bytecode[m.pc + 1]], m.registers[m.bytecode[m.pc + 2]];
              && Execute(m).running
              && (op == EQ ==> (n.eqFlag <==> x == y))
              && (op == NEQ ==> (n.eqFlag <==> x != y))
              && (op == GT ==> (n.eqFlag <==> x > y))
              && (op == GEQ ==> (n.eqFlag <==> x >= y))
              && (op == LE ==> (n.eqFlag <==> x < y))
              && (op == LEQ ==> (n.eqFlag <==> x <= y))
              && n.registers == m.registers && n.pc == m.pc + 4
              && n.heap == m.heap && n.divRemainder == m.divRemainder
  {
    var op := FromByte(m.bytecode[m.pc]);
    assert Execute(m) == CompareStep(m.(pc := m.pc + 1), op);
  }

  /**
   * The jumps, with `t` = `reg[b] as usize` for the operand byte `b`: `JMP`
   * sets the counter to `t`, `JMPF` to `pc + 2 + t`, `JMPB` to `pc + 2 - t`
   * (panicking on `usize` overflow); nothing else changes.
   */
  lemma JumpSemantics(m: Machine)
    requires m.pc + 1 < |m.bytecode| && IsJump(FromByte(m.bytecode[m.pc]))
    requires m.bytecode[m.pc + 1] < REGISTER_COUNT
    ensures var op, t := FromByte(m.bytecode[m.pc]), I32AsUsize(m.registers[m.bytecode[m.pc + 1]]);
            Execute(m).Panicked? <==> (op == JMPF && m.pc + 2 + t > USIZE_MAX) || (op == JMPB && t > m.pc + 2)
    ensures Execute(m).Stepped? ==>
              var n, op := Execute(m).next, FromByte(m.bytecode[m.pc]);
              var t := I32AsUsize(m.registers[m.bytecode[m.pc + 1]]);
              && Execute(m).running
              && (op == JMP ==> n.pc == t)
              && (op == JMPF ==> n.pc == m.pc + 2 + t)
              && (op == JMPB ==> n.pc == m.pc + 2 - t)
              && n == m.(pc := n.pc)
  {
    var op := FromByte(m.bytecode[m.pc]);
    assert Execute(m) == JumpStep(m.(pc := m.pc + 1), op);
  }

  /**
   * `JEQ`/`JNEQ b`: when the flag is true (false) the counter becomes
   * `reg[b] as usize`; otherwise the operand is not read and the counter
   * moves just one byte. Nothing else changes.
   */
  lemma ConditionalJumpSemantics(m: Machine)
    requires m.pc < |m.bytecode|
    requires FromByte(m.bytecode[m.pc]) == JEQ || FromByte(m.bytecode[m.pc]) == JNEQ
    ensures var taken := m.eqFlag == (FromByte(m.bytecode[m.pc]) == JEQ);
            && (!taken ==> Execute(m) == Stepped(true, m.(pc := m.pc + 1)))
            && (taken ==> (Execute(m).Panicked? <==> m.pc + 1 >= |m.bytecode| || m.bytecode[m.pc + 1] >= REGISTER_COUNT))
            && (taken && Execute(m).Stepped? ==>
                  Execute(m) == Stepped(true, m.(pc := I32AsUsize(m.registers[m.bytecode[m.pc + 1]]))))
  {
  }

  /**
   * `INC`/`DEC r _ _`: register `r` goes up (down) by one, panicking past
   * `i32`; the counter moves four bytes and nothing else changes.
   */
  lemma IncDecSemantics(m: Machine)
    requires m.pc + 1 < |m.bytecode| && m.bytecode[m.pc + 1] < REGISTER_COUNT
    requires FromByte(m.bytecode[m.pc]) == INC || FromByte(m.bytecode[m.pc]) == DEC
    ensures var op, x := FromByte(m.bytecode[m.pc]), m.registers[m.bytecode[m.pc + 1]];
            Execute(m).Panicked? <==> (op == INC && x == I32_MAX) || (op == DEC && x == I32_MIN)
    ensures Execute(m).Stepped? ==>
              var n, op, r := Execute(m).next, FromByte(m.bytecode[m.pc]), m.bytecode[m.pc + 1];
              && Execute(m).running
              && n.registers[r] == m.registers[r] + (if op == INC then 1 else -1)
              && (forall i :: 0 <= i < REGISTER_COUNT && i != r ==> n.registers[i] == m.registers[i])
              && n.pc == m.pc + 4
              && n.heap == m.heap && n.eqFlag == m.eqFlag && n.divRemainder == m.divRemainder
  {
  }

  /**
   * `ALOC r`: a negative register panics; otherwise the heap becomes exactly
   * `reg[r]` bytes, the old bytes kept where they fit and zeros after them,
   * the counter moves only two bytes and nothing else changes. Running the
   * same `ALOC` again leaves the heap as it is.
   */
  lemma AlocSemantics(m: Machine)
    requires m.pc + 1 < |m.bytecode| && m.bytecode[m.pc + 1] < REGISTER_COUNT
    requires FromByte(m.bytecode[m.pc]) == ALOC
    ensures var x := m.registers[m.bytecode[m.pc + 1]];
            Execute(m).Panicked? <==> x < 0
    ensures Execute(m).Stepped? ==>
              var n, x := Execute(m).next, m.registers[m.bytecode[m.pc + 1]];
              && Execute(m).running
              && |n.heap| == x
              && (forall i :: 0 <= i < x && i < |m.heap| ==> n.heap[i] == m.heap[i])
              && (forall i :: |m.heap| <= i < x ==> n.heap[i] == 0)
              && n.pc == m.pc + 2
              && n.registers == m.registers && n.eqFlag == m.eqFlag && n.divRemainder == m.divRemainder
              && Execute(n.(pc := m.pc)).Stepped? && Execute(n.(pc := m.pc)).next.heap == n.heap
  {
    var x := m.registers[m.bytecode[m.pc + 1]];
    if x >= 0 {
      ResizeProperties(m.heap, x);
    }
  }

  /** The virtual machine object. */
  class VM {
    const registers: array<i32>
    var bytecode: seq<u8>
    var heap: seq<u8>
    var programCounter: usize
    var divRemainder: u32
    var eqFlag: bool

    ghost predicate Valid()
      reads this
    {
      registers.Length == REGISTER_COUNT && |bytecode| <= ISIZE_MAX
    }

    /** The fields as a `Machine`. */
    function State(): Machine
      reads this, registers
      requires Valid()
    {
      Machine(registers[..], bytecode, heap, programCounter, divRemainder, eqFlag)
    }

    /** `VM::new`. */
    constructor ()
      ensures Valid() && fresh(registers)
      ensures State() == Fresh()
    {
      registers := new i32[REGISTER_COUNT](_ => 0);
      bytecode := [];
      heap := [];
      programCounter := 0;
      divRemainder := 0;
      eqFlag := false;
      new;
      assert registers[..] == seq(REGISTER_COUNT, _ => 0);
    }

    /** `get_instruction_from_bytecode`: decode the byte at the counter and step past it. */
    method GetInstructionFromBytecode() returns (op: Opcode)
      requires programCounter < |bytecode| <= ISIZE_MAX
      modifies this`programCounter
      ensures op == FromByte(bytecode[old(programCounter)])
      ensures programCounter == old(programCounter) + 1
    {
      op := FromByte(bytecode[programCounter]);
      programCounter := programCounter + 1;
    }

    /** `get_next_8_bits`: the byte at the counter; step past it. */
    method GetNext8Bits() returns (b: u8)
      requires programCounter < |bytecode| <= ISIZE_MAX
      modifies this`programCounter
      ensures b == bytecode[old(programCounter)]
      ensures programCounter == old(programCounter) + 1
    {
      b := bytecode[programCounter];
      programCounter := programCounter + 1;
    }

    /** `get_next_16_bits`: the two bytes at the counter as a big-endian `u16`; step past them. */
    method GetNext16Bits() returns (w: u16)
      requires programCounter + 1 < |bytecode| <= ISIZE_MAX
      modifies this`programCounter
      ensures w == BigEndian16(bytecode[old(programCounter)], bytecode[old(programCounter) + 1])
      ensures programCounter == old(programCounter) + 2
    {
      // `(high as u16) << 8 | low as u16`: the shift multiplies by 256 and the low byte fills the cleared bits.
      var high := bytecode[programCounter];
      var low := bytecode[programCounter + 1];
      w := high as int * 0x100 + low as int;
      programCounter := programCounter + 2;
    }

    /** `skip_next_8_bits`: step one byte without reading it. */
    method SkipNext8Bits()
      requires programCounter + 1 <= USIZE_MAX
      modifies this`programCounter
      ensures programCounter == old(programCounter) + 1
    {
      programCounter := programCounter + 1;
    }

    /** `skip_next_16_bits`: step two bytes without reading them. */
    method SkipNext16Bits()
      requires programCounter + 2 <= USIZE_MAX
      modifies this`programCounter
      ensures programCounter == old(programCounter) + 2
    {
      programCounter := programCounter + 2;
    }

    /** The `LOAD` arm. */
    method ExecLoad()
      requires Valid() && LoadStep(State()).Stepped?
      modifies this`programCounter, registers
      ensures Valid() && LoadStep(old(State())) == Stepped(true, State())
    {
      var register := GetNext8Bits();
      var value := GetNext16Bits();
      registers[register] := value;
    }

    /** The `ADD`, `SUB` and `MUL` arms. */
    method ExecArith(op: Opcode)
      requires Valid() && IsArith(op) && ArithStep(State(), op).Stepped?
      modifies this`programCounter, registers
      ensures Valid() && ArithStep(old(State()), op) == Stepped(true, State())
    {
      var a := GetNext8Bits();
      var operand1 := registers[a];
      var b := GetNext8Bits();
      var operand2 := registers[b];
      var register := GetNext8Bits();
      match op {
        case ADD => registers[register] := operand1 + operand2;
        case SUB => registers[register] := operand1 - operand2;
        case MUL => registers[register] := operand1 * operand2;
      }
    }

    /** The `DIV` arm: `false` on a zero divisor. */
    method ExecDiv() returns (running: bool)
      requires Valid() && DivStep(State()).Stepped?
      modifies this`programCounter, this`divRemainder, registers
      ensures Valid() && DivStep(old(State())) == Stepped(running, State())
    {
      var a := GetNext8Bits();
      var operand1 := registers[a];
      var b := GetNext8Bits();
      var operand2 := registers[b];
      var register := GetNext8Bits();
      if operand2 == 0 {
        return false;
      }
      registers[register] := TruncDiv(operand1, operand2);
      divRemainder := I32AsU32(TruncRem(operand1, operand2));
      running := true;
    }

    /** The `JMP`, `JMPF` and `JMPB` arms: the operand is read before the counter is used. */
    method ExecJump(op: Opcode)
      requires Valid() && IsJump(op) && JumpStep(State(), op).Stepped?
      modifies this`programCounter
      ensures Valid() && JumpStep(old(State()), op) == Stepped(true, State())
    {
      var b := GetNext8Bits();
      var target := I32AsUsize(registers[b]);
      match op {
        case JMP => programCounter := target;
        case JMPF => programCounter := programCounter + target;
        case JMPB => programCounter := programCounter - target;
      }
    }

    /** The `JEQ` and `JNEQ` arms. */
    method ExecConditionalJump(op: Opcode)
      requires Valid() && (op == JEQ || op == JNEQ) && CondJumpStep(State(), op).Stepped?
      modifies this`programCounter
      ensures Valid() && CondJumpStep(old(State()), op) == Stepped(true, State())
    {
      if eqFlag == (op == JEQ) {
        var b := GetNext8Bits();
        programCounter := I32AsUsize(registers[b]);
      }
    }

    /** The `EQ`, `NEQ`, `GT`, `GEQ`, `LE` and `LEQ` arms. */
    method ExecCompare(op: Opcode)
      requires Valid() && IsCompare(op) && CompareStep(State(), op).Stepped?
      modifies this`programCounter, this`eqFlag
      ensures Valid() && CompareStep(old(State()), op) == Stepped(true, State())
    {
      var a := GetNext8Bits();
      var operand1 := registers[a];
      var b := GetNext8Bits();
      var operand2 := registers[b];
      match op {
        case EQ => eqFlag := operand1 == operand2;
        case NEQ => eqFlag := operand1 != operand2;
        case GT => eqFlag := operand1 > operand2;
        case GEQ => eqFlag := operand1 >= operand2;
        case LE => eqFlag := operand1 < operand2;
        case LEQ => eqFlag := operand1 <= operand2;
      }
      SkipNext8Bits();
    }

    /** The `INC` and `DEC` arms. */
    method ExecIncDec(op: Opcode)
      requires Valid() && (op == INC || op == DEC) && IncDecStep(State(), op).Stepped?
      modifies this`programCounter, registers
      ensures Valid() && IncDecStep(old(State()), op) == Stepped(true, State())
    {
      var r := GetNext8Bits();
      if op == INC {
        registers[r] := registers[r] + 1;
      } else {
        registers[r] := registers[r] - 1;
      }
      SkipNext16Bits();
    }

    /** The `ALOC` arm. */
    method ExecAloc()
      requires Valid() && AlocStep(State()).Stepped?
      modifies this`programCounter, this`heap
      ensures Valid() && AlocStep(old(State())) == Stepped(true, State())
    {
      var r := GetNext8Bits();
      var size := I32AsUsize(registers[r]);
      heap := Resize(heap, size);
    }

    /** `execute_bytecode`: one fetch and dispatch; `false` when the machine stops. */
    method ExecuteBytecode() returns (running: bool)
      requires Valid() && !Execute(State()).Panicked?
      modifies this, registers
      ensures Valid() && Execute(old(State())) == Stepped(running, State())
    {
      if programCounter >= |bytecode| {
        return false;
      }
      var op := GetInstructionFromBytecode();
      running := true;
      match op {
        case LOAD => ExecLoad();
        case ADD => ExecArith(op);
        case SUB => ExecArith(op);
        case MUL => ExecArith(op);
        case DIV => running := ExecDiv();
        case JMP => ExecJump(op);
        case JMPF => ExecJump(op);
        case JMPB => ExecJump(op);
        case JEQ => ExecConditionalJump(op);
        case JNEQ => ExecConditionalJump(op);
        case EQ => ExecCompare(op);
        case NEQ => ExecCompare(op);
        case GT => ExecCompare(op);
        case GEQ => ExecCompare(op);
        case LE => ExecCompare(op);
        case LEQ => ExecCompare(op);
        case INC => ExecIncDec(op);
        case DEC => ExecIncDec(op);
        case ALOC => ExecAloc();
        case HLT => return false;
        case NOP => return false;
        case _ => return false;
      }
    }

    /**
     * `run` for at most `fuel` steps: `execute_bytecode` until it returns
     * `false`; `true` when it did so within the fuel.
     */
    method Run(fuel: nat) returns (halted: bool)
      requires Valid() && !RunFor(State(), fuel).RunPanicked?
      modifies this, registers
      ensures Valid()
      ensures var r := RunFor(old(State()), fuel);
              (halted <==> r.Halted?) && State() == r.final
    {
      var isRunning := true;
      var remaining := fuel;
      while isRunning && remaining > 0
        invariant Valid()
        invariant isRunning ==> RunFor(State(), remaining) == RunFor(old(State()), fuel)
        invariant !isRunning ==> RunFor(old(State()), fuel) == Halted(State())
        decreases remaining
      {
        RunForStep(State(), remaining - 1);
        isRunning := ExecuteBytecode();
        remaining := remaining - 1;
      }
      halted := !isRunning;
    }
  }
}
