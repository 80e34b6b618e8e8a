/**
 * The instruction set: the `Opcode` enumeration, its numeric codes (the
 * enum's implicit discriminants, used on the wire) and the two total
 * decoders, byte -> opcode and mnemonic -> opcode, that the assembler and the
 * virtual machine share. Both decoders fall back to `NOP` on any input they
 * do not know.
 */
module Instruction {
  import opened Numeric

  datatype Opcode =
    | HLT | LOAD | ADD | SUB | MUL | DIV
    | EQ | NEQ | GT | GEQ | LE | LEQ
    | JEQ | JNEQ | JMP | JMPF | JMPB
    | INC | DEC | ALOC
    | RSHT | LFST | RROR | LROR
    | NOP

  /** The number of opcodes that either decoder can produce other than `NOP`. */
  const DECODABLE: nat := 20

  /** `op as u8`: the implicit discriminant, the variant's position in the declaration. */
  function Code(op: Opcode): u8
  {
    match op
    case HLT => 0  case LOAD => 1  case ADD => 2  case SUB => 3  case MUL => 4
    case DIV => 5  case EQ => 6  case NEQ => 7  case GT => 8  case GEQ => 9
    case LE => 10  case LEQ => 11  case JEQ => 12  case JNEQ => 13  case JMP => 14
    case JMPF => 15  case JMPB => 16  case INC => 17  case DEC => 18  case ALOC => 19
    case RSHT => 20  case LFST => 21  case RROR => 22  case LROR => 23  case NOP => 24
  }

  /** The variant's name, which is its mnemonic in assembly text. */
  function Mnemonic(op: Opcode): string
  {
    match op
    case HLT => "HLT"  case LOAD => "LOAD"  case ADD => "ADD"  case SUB => "SUB"
    case MUL => "MUL"  case DIV => "DIV"  case EQ => "EQ"  case NEQ => "NEQ"
    case GT => "GT"  case GEQ => "GEQ"  case LE => "LE"  case LEQ => "LEQ"
    case JEQ => "JEQ"  case JNEQ => "JNEQ"  case JMP => "JMP"  case JMPF => "JMPF"
    case JMPB => "JMPB"  case INC => "INC"  case DEC => "DEC"  case ALOC => "ALOC"
    case RSHT => "RSHT"  case LFST => "LFST"  case RROR => "RROR"  case LROR => "LROR"
    case NOP => "NOP"
  }

  /** The opcodes with a behaviour: those numbered below 20. */
  predicate Decodable(op: Opcode)
  {
    Code(op) < DECODABLE
  }

  /** `Opcode::from(u8)`: codes 0..=19 name their opcode, every other byte is `NOP`. */
  function FromByte(b: u8): (op: Opcode)
    ensures b < DECODABLE ==> Code(op) == b
    ensures DECODABLE <= b ==> op == NOP
    ensures op == NOP || Decodable(op)
  {
    match b
    case 0 => HLT  case 1 => LOAD  case 2 => ADD  case 3 => SUB  case 4 => MUL
    case 5 => DIV  case 6 => EQ  case 7 => NEQ  case 8 => GT  case 9 => GEQ
    case 10 => LE  case 11 => LEQ  case 12 => JEQ  case 13 => JNEQ  case 14 => JMP
    case 15 => JMPF  case 16 => JMPB  case 17 => INC  case 18 => DEC  case 19 => ALOC
    case _ => NOP
  }

  /**
   * `Opcode::from(&str)`: the exact (case-sensitive) name of one of the
   * twenty decodable opcodes names it; every other string is `NOP`.
   */
  function FromMnemonic(s: string): (op: Opcode)
    ensures op != NOP ==> Decodable(op) && Mnemonic(op) == s
  {
    match s
    case "HLT" => HLT  case "LOAD" => LOAD  case "ADD" => ADD  case "SUB" => SUB
    case "MUL" => MUL  case "DIV" => DIV  case "EQ" => EQ  case "NEQ" => NEQ
    case "GT" => GT  case "GEQ" => GEQ  case "LE" => LE  case "LEQ" => LEQ
    case "JEQ" => JEQ  case "JNEQ" => JNEQ  case "JMP" => JMP  case "JMPF" => JMPF
    case "JMPB" => JMPB  case "INC" => INC  case "DEC" => DEC  case "ALOC" => ALOC
    case _ => NOP
  }

  /** Numeric codes are unique: `as u8` is injective on the enumeration. */
  lemma CodeInjective(a: Opcode, b: Opcode)
    requires Code(a) == Code(b)
    ensures a == b
  {
  }

  /** Every decodable opcode survives a trip through its byte. */
  lemma ByteRoundTrip(op: Opcode)
    requires Decodable(op)
    ensures FromByte(Code(op)) == op
  {
    CodeInjective(FromByte(Code(op)), op);
  }

  /** Every decodable opcode survives a trip through its mnemonic. */
  lemma MnemonicRoundTrip(op: Opcode)
    requires Decodable(op)
    ensures FromMnemonic(Mnemonic(op)) == op
  {
  }

  /** Every mnemonic is at least two capital letters. */
  lemma MnemonicLetters(op: Opcode)
    ensures |Mnemonic(op)| >= 2
    ensures forall k :: 0 <= k < |Mnemonic(op)| ==> 'A' <= Mnemonic(op)[k] <= 'Z'
  {
  }

  /** `NOP` is not a name the text decoder accepts, nor is any other spelling. */
  lemma UnknownMnemonics()
    ensures FromMnemonic("NOP") == NOP
    ensures FromMnemonic("load") == NOP && FromMnemonic("Load") == NOP
    ensures FromMnemonic("") == NOP && FromMnemonic("RSHT") == NOP
  {
  }

  /** The text decoder and the byte decoder agree on every string. */
  lemma DecodersAgree(s: string)
    ensures FromByte(Code(FromMnemonic(s))) == FromMnemonic(s)
  {
    var op := FromMnemonic(s);
    if op != NOP {
      ByteRoundTrip(op);
    }
  }

  /** The four shift and rotate opcodes are produced by neither decoder. */
  lemma ReservedNeverDecoded(b: u8, s: string)
    ensures FromByte(b) !in {RSHT, LFST, RROR, LROR}
    ensures FromMnemonic(s) !in {RSHT, LFST, RROR, LROR}
  {
  }
}
