/**
 * A program: the parsed instructions, written out one after the other as the
 * bytecode the virtual machine runs. `ProgramBytes` is the specification
 * (`None` when some instruction cannot be encoded, where `as_bytes` exits the
 * process); `Program.AsBytes` is the source's loop, proved against it. Each
 * instruction is written by `Encode`, the encoder as the source has it.
 */
module Program {
  import opened Wrappers
  import opened Numeric
  import opened Parser

  /** The instructions' encodings concatenated in order; `None` if any of them fails. */
  function ProgramBytes(ins: seq<AssemblyInstruction>): (r: Option<seq<u8>>)
    decreases |ins|
  {
    if ins == [] then Some([])
    else
      match (ProgramBytes(ins[..|ins| - 1]), Encode(ins[|ins| - 1]))
      case (Some(prefix), Some(last)) => Some(prefix + last)
      case _ => None
  }

  /** The number of bytes the instructions encode to. */
  function EncodedLength(ins: seq<AssemblyInstruction>): nat
    requires forall k :: 0 <= k < |ins| ==> Encode(ins[k]).Some?
    decreases |ins|
  {
    if ins == [] then 0 else EncodedLength(ins[..|ins| - 1]) + |Encode(ins[|ins| - 1]).value|
  }

  /** Encoding a program succeeds exactly when every instruction encodes. */
  lemma {:induction false} ProgramBytesDefined(ins: seq<AssemblyInstruction>)
    ensures ProgramBytes(ins).Some? <==> forall k :: 0 <= k < |ins| ==> Encode(ins[k]).Some?
    decreases |ins|
  {
    if ins != [] {
      var init := ins[..|ins| - 1];
      ProgramBytesDefined(init);
      assert forall k :: 0 <= k < |init| ==> init[k] == ins[k];
    }
  }

  /** Where the `k`-th instruction's bytes begin: after those of the instructions before it. */
  function Offset(ins: seq<AssemblyInstruction>, k: nat): nat
    requires forall k :: 0 <= k < |ins| ==> Encode(ins[k]).Some?
    requires k <= |ins|
  {
    EncodedLength(ins[..k])
  }

  /** The `k`-th instruction's bytes. */
  function Bytes(ins: seq<AssemblyInstruction>, k: nat): seq<u8>
    requires forall k :: 0 <= k < |ins| ==> Encode(ins[k]).Some?
    requires k < |ins|
  {
    Encode(ins[k]).value
  }

  /**
   * The layout of an encoded program: its length is the sum of the
   * instructions' lengths, and the `k`-th instruction's bytes sit right after
   * those of the instructions before it.
   */
  lemma {:induction false} ProgramBytesLayout(ins: seq<AssemblyInstruction>)
    requires ProgramBytes(ins).Some?
    ensures forall k :: 0 <= k < |ins| ==> Encode(ins[k]).Some?
    ensures |ProgramBytes(ins).value| == EncodedLength(ins)
    ensures forall k :: 0 <= k < |ins| ==>
              && Offset(ins, k) + |Bytes(ins, k)| <= |ProgramBytes(ins).value|
              && ProgramBytes(ins).value[Offset(ins, k)..Offset(ins, k) + |Bytes(ins, k)|] == Bytes(ins, k)
    decreases |ins|
  {
    ProgramBytesDefined(ins);
    if ins != [] {
      var n := |ins| - 1;
      var init := ins[..n];
      ProgramBytesLayout(init);
      forall k | 0 <= k < |ins|
        ensures Offset(ins, k) + |Bytes(ins, k)| <= |ProgramBytes(ins).value|
        ensures ProgramBytes(ins).value[Offset(ins, k)..Offset(ins, k) + |Bytes(ins, k)|] == Bytes(ins, k)
      {
        LayoutAt(ins, k);
      }
    }
  }

  /** One instruction of `ProgramBytesLayout`, from the layout of the program without its last instruction. */
  lemma LayoutAt(ins: seq<AssemblyInstruction>, k: nat)
    requires 0 <= k < |ins|
    requires forall k :: 0 <= k < |ins| ==> Encode(ins[k]).Some?
    requires var init := ins[..|ins| - 1];
             && ProgramBytes(init).Some?
             && |ProgramBytes(init).value| == EncodedLength(init)
             && forall k :: 0 <= k < |init| ==>
                  && Offset(init, k) + |Bytes(init, k)| <= |ProgramBytes(init).value|
                  && ProgramBytes(init).value[Offset(init, k)..Offset(init, k) + |Bytes(init, k)|] == Bytes(init, k)
    ensures ProgramBytes(ins).Some?
    ensures Offset(ins, k) + |Bytes(ins, k)| <= |ProgramBytes(ins).value|
    ensures ProgramBytes(ins).value[Offset(ins, k)..Offset(ins, k) + |Bytes(ins, k)|] == Bytes(ins, k)
  {
    var n := |ins| - 1;
    var init := ins[..n];
    var prefix := ProgramBytes(init).value;
    var bytes := ProgramBytes(ins).value;
    assert bytes == prefix + Bytes(ins, n);
    if k < n {
      assert ins[..k] == init[..k];
      assert Offset(ins, k) == Offset(init, k) && Bytes(ins, k) == Bytes(init, k);
      assert bytes[Offset(ins, k)..Offset(ins, k) + |Bytes(ins, k)|] == prefix[Offset(init, k)..Offset(init, k) + |Bytes(init, k)|];
    } else {
      assert ins[..k] == init;
    }
  }

  /** Encoding distributes over concatenation of instruction lists. */
  lemma {:induction false} ProgramBytesAppend(a: seq<AssemblyInstruction>, b: seq<AssemblyInstruction>)
    ensures ProgramBytes(a + b) ==
              (if ProgramBytes(a).Some? && ProgramBytes(b).Some?
               then Some(ProgramBytes(a).value + ProgramBytes(b).value) else None)
    decreases |b|
  {
    if b == [] {
      assert a + b == a;
      if ProgramBytes(a).Some? {
        assert ProgramBytes(a).value + [] == ProgramBytes(a).value;
      }
    } else {
      var n := |b| - 1;
      assert (a + b)[..|a + b| - 1] == a + b[..n];
      assert (a + b)[|a + b| - 1] == b[n];
      ProgramBytesAppend(a, b[..n]);
      if ProgramBytes(a).Some? && ProgramBytes(b).Some? {
        assert ProgramBytes(a).value + ProgramBytes(b[..n]).value + Encode(b[n]).value
            == ProgramBytes(a).value + (ProgramBytes(b[..n]).value + Encode(b[n]).value);
      }
    }
  }

  /** A program: the instructions it will write out. */
  class Program {
    var instructions: seq<AssemblyInstruction>

    /** `Program::default`: no instructions. */
    constructor Default()
      ensures instructions == []
    {
      instructions := [];
    }

    /** `set_instructions`: replace the whole instruction list. */
    method SetInstructions(newInstructions: seq<AssemblyInstruction>)
      modifies this
      ensures instructions == newInstructions
    {
      instructions := newInstructions;
    }

    /** `as_bytes`: append each instruction's bytes in turn; the instructions are left as they are. */
    method AsBytes() returns (bytes: seq<u8>)
      requires ProgramBytes(instructions).Some?
      ensures Some(bytes) == ProgramBytes(instructions)
    {
      ProgramBytesDefined(instructions);
      bytes := [];
      for k := 0 to |instructions|
        invariant ProgramBytes(instructions[..k]) == Some(bytes)
      {
        assert instructions[..k + 1][..k] == instructions[..k];
        var encoded := instructions[k].AsBytes();
        bytes := bytes + encoded;
      }
      assert instructions[..|instructions|] == instructions;
    }
  }

  /** The default program writes out no bytes. */
  method DefaultProgramBytes() returns (bytes: seq<u8>)
    ensures bytes == []
  {
    var program := new Program.Default();
    bytes := program.AsBytes();
  }
}
