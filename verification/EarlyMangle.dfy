/**
Early mangling (arch/x86-64/early_mangle.cc, arch/early_mangle.cc): instructions with complex
memory operands, and those that use the stack implicitly, become sequences of simpler ones over
virtual registers. `EarlyMangler` appends to its block and rewrites the instruction; each method
promises what the appended code and the rewritten instruction mean together.
*/
module EarlyMangle {
  import opened Options
  import opened Words
  import opened Machine
  import opened MangledCode

  const MAX_NUM_VIRT_REGS: nat := 64
  const MAX_NUM_OPERANDS: nat := 11

  // Forms that only the pass itself emits.
  predicate IsEmitted(f: Form) {
    f.MovFromSeg? || f.MovToSeg? || f.Movzx16? || f.Annotation?
  }

  // What decoding delivers: native registers only, at most eleven operands, [RSP] as a compound
  // operand, 64-bit stack operations.
  predicate IsDecoded(i: Instr) {
    && WellFormed(i) && OpsBelow(i.ops, 0) && |i.ops| <= MAX_NUM_OPERANDS
    && (i.form.Interrupts? || i.form.PushFlags? ==> i.ops == []) && !IsEmitted(i.form)
    && (forall k | 0 <= k < |i.ops| :: OpOk(i.ops[k]) && (i.ops[k].Memory? ==> i.ops[k].mem != Simple(RSP)))
    && ((i.form.Transfer? || i.form.Push?) && i.ops[0].Register? ==> i.ops[0] == Reads(i.ops[0].reg))
    && (i.form.Pop? ==> if i.ops[0].Memory? then PopOk(i.ops[0]) else i.ops[0].bytes == 8)
  }

  // The purpose of the pass: memory is addressed by one register, or absolutely, and RSP is no
  // longer read as an operand. Sticky operands are exempt.
  predicate IsSimple(op: Operand) {
    match op
    case Memory(Compound(_, _, _, _), _, sticky) => sticky
    case Memory(Pointer(_), segment, _) => segment == Flat
    case Register(r, _, writes) => writes || r != RSP
    case _ => true
  }

  // LEA only computes an address, PUSH RSP keeps its operand, and a CALL or JMP through RSP
  // copies it to a virtual register.
  predicate IsSimpleInstr(i: Instr) {
    || i.form.Lea?
    || (i.form.Push? && i.ops == [Reads(RSP)])
    || (i.form.Mov89? && |i.ops| == 2 && i.ops[0].Register? && i.ops[0].reg.Virtual? && i.ops[1] == Reads(RSP))
    || forall k | 0 <= k < |i.ops| :: IsSimple(i.ops[k])
  }

  // Nor is anything left that the pass exists to remove: an instruction that uses the stack in
  // several steps, a push or pop of memory, a pop of RSP, an indirect target that is not in a
  // virtual register, or a PUSHF without a register reserved for it.
  predicate IsLowered(i: Instr) {
    && !i.form.Enter? && !i.form.Leave? && !i.form.Xlat? && !i.form.PushSeg? && !i.form.PopSeg?
    && !i.form.Annotation?
    && (i.form.Push? ==> forall k | 0 <= k < |i.ops| :: !i.ops[k].Memory?)
    && (i.form.Pop? ==> forall k | 0 <= k < |i.ops| :: i.ops[k].Register? && i.ops[k].reg != RSP)
    && (i.form.Transfer? ==>
          forall k | 0 <= k < |i.ops| :: i.ops[k].Immediate? || (i.ops[k].Register? && i.ops[k].reg.Virtual?))
    && (i.form.PushFlags? ==> |i.ops| == 1 && i.ops[0].Register? && i.ops[0].reg.Virtual? && i.ops[0].writes)
  }

  predicate AllSimple(code: seq<Instr>) {
    forall k | 0 <= k < |code| :: IsSimpleInstr(code[k]) && IsLowered(code[k])
  }

  function Noted(n: Note): Instr {
    Instr(Annotation(n), [])
  }

  lemma {:induction false} CopyRoundsAreSimple(n: nat, level: nat, k: nat)
    ensures AllSimple(CopyRounds(n, level, k))
  {
    if k > 0 {
      CopyRoundsAreSimple(n, level, k - 1);
    }
  }

  // XLAT must have no segment override, and a POP to [RSP + disp] a displacement that can be
  // adjusted for the increment.
  predicate IsFaithful(i: Instr)
    requires WellFormed(i)
  {
    match i.form
    case Xlat(segment) => segment == Flat
    case Pop => i.ops[0].Memory? ==> PopFaithful(i.ops[0])
    case _ => true
  }

  // The first `k` operands, rewritten, mean after `code` what they meant before it.
  ghost predicate OperandsAgree(code: seq<Instr>, ops: seq<Operand>, ops': seq<Operand>, k: nat, n: nat)
    requires IsCode(code) && k <= |ops| == |ops'|
  {
    forall j | 0 <= j < k :: Agrees(code, ops[j], ops'[j]) && OpBelow(ops'[j], n)
  }

  lemma OperandsGoOn(
      code: seq<Instr>, lo: nat, mid: nat, more: seq<Instr>, hi: nat,
      ops: seq<Operand>, ops': seq<Operand>, k: nat)
    requires lo <= mid <= hi && Quiet(code, lo, mid) && Quiet(more, mid, hi)
    requires k < |ops| == |ops'| && OpBelow(ops[k], lo) && OpBelow(ops'[k], hi) && Agrees(more, ops[k], ops'[k])
    requires OperandsAgree(code, ops, ops', k, mid)
    ensures Quiet(code + more, lo, hi) && OperandsAgree(code + more, ops, ops', k + 1, hi)
  {
    QuietConcat(code, lo, mid, more, hi);
    hide Agrees;
    forall j | 0 <= j <= k ensures Agrees(code + more, ops[j], ops'[j]) {
      AgreesLonger(code, lo, mid, more, hi, ops[j], ops'[j]);
    }
  }

  class EarlyMangler {
    var regNum: nat
    var block: seq<Instr>

    constructor ()
      ensures regNum == 0 && block == []
    {
      regNum, block := 0, [];
    }

    method AllocateVirtualRegister() returns (r: Reg)
      requires regNum < MAX_NUM_VIRT_REGS
      modifies this
      ensures r == Virtual(old(regNum)) && regNum == old(regNum) + 1 && block == old(block)
    {
      r := Virtual(regNum);
      regNum := regNum + 1;
    }

    method Append(i: Instr)
      modifies this
      ensures block == old(block) + [i] && regNum == old(regNum)
    {
      block := block + [i];
    }

    // The operand after the code in front of it: what both mean is what the operand meant.
    method MangleExplicitMemOp(op: Operand) returns (op': Operand, ghost code: seq<Instr>)
      requires op.Memory? && !op.mem.Pointer? && OpBelow(op, regNum) && regNum < MAX_NUM_VIRT_REGS
      requires StickyOk(op)
      modifies this
      ensures block == old(block) + code && old(regNum) <= regNum <= old(regNum) + 1
      ensures Quiet(code, old(regNum), regNum) && OpBelow(op', regNum) && Agrees(code, op, op')
      ensures AllSimple(code)
      ensures op'.Memory? && IsSimple(op') && !op'.mem.Pointer?
      ensures op'.segment == op.segment && op'.sticky == op.sticky && (!op.mem.Compound? ==> op' == op)
      ensures |code| == if op.mem.Compound? && !op.sticky then 1 else 0
    {
      op', code := op, [];
      QuietNothing(regNum);
      AgreesAtOnce(op);
      if op.mem.Simple? && op.mem.reg != RSP {
        return;
      }
      if op.sticky {
        if op.mem.Compound? && op.mem.disp == 0 && op.mem.index.None? {
          op' := op.(mem := Simple(op.mem.base.value));
          BaseAgrees(op);
        }
      } else {
        if !op.mem.Compound? {
          return;
        }
        var memReg := AllocateVirtualRegister();
        var lea := Instr(Lea, [Writes(memReg), op.(segment := Flat)]);
        Append(lea);
        op' := op.(mem := Simple(memReg));
        code := [lea];
        QuietSet(lea, old(regNum));
        LeaAgrees(op, old(regNum));
      }
    }

    method MangleExplicitStackPointerRegOp(op: Operand) returns (op': Operand, ghost code: seq<Instr>)
      requires op.Register? && op.reg == RSP && regNum < MAX_NUM_VIRT_REGS
      modifies this
      ensures block == old(block) + code && old(regNum) <= regNum <= old(regNum) + 1
      ensures Quiet(code, old(regNum), regNum) && OpBelow(op', regNum) && Agrees(code, op, op')
      ensures AllSimple(code)
      ensures op.writes ==> op' == op && code == [] && regNum == old(regNum)
      ensures op'.Register? && op'.writes == op.writes && op'.bytes == op.bytes && IsSimple(op') && |code| <= 1
    {
      op', code := op, [];
      QuietNothing(regNum);
      AgreesAtOnce(op);
      if !op.writes {
        var sp := AllocateVirtualRegister();
        var lea := LeaOf(BaseDisp(0, RSP), sp.n);
        Append(lea);
        op', code := op.(reg := sp), [lea];
        QuietSet(lea, sp.n);
        StackPointerAgrees(op, sp.n);
      }
    }

    method MangleSegmentOffset(op: Operand) returns (op': Operand, ghost code: seq<Instr>)
      requires op.Memory? && op.mem.Pointer? && regNum < MAX_NUM_VIRT_REGS
      modifies this
      ensures block == old(block) + code && old(regNum) <= regNum <= old(regNum) + 1
      ensures Quiet(code, old(regNum), regNum) && OpBelow(op', regNum) && Agrees(code, op, op')
      ensures AllSimple(code)
      ensures op'.Memory? && op'.mem.Simple? && |code| == 1
    {
      var offset := AllocateVirtualRegister();
      var mov := Instr(Mov, [Writes(offset), Immediate(op.mem.addr)]);
      Append(mov);
      op', code := op.(mem := Simple(offset)), [mov];
      QuietSet(mov, offset.n);
      OffsetAgrees(op, offset.n);
    }

    // One operand of MangleExplicitOps.
    method MangleOperand(op: Operand) returns (op': Operand, ghost code: seq<Instr>)
      requires OpBelow(op, regNum) && regNum < MAX_NUM_VIRT_REGS && OpOk(op)
      modifies this
      ensures block == old(block) + code && old(regNum) <= regNum <= old(regNum) + 1
      ensures Quiet(code, old(regNum), regNum) && OpBelow(op', regNum) && Agrees(code, op, op')
      ensures AllSimple(code)
      ensures op.Register? && (op.writes || op.reg != RSP) ==> op' == op && code == [] && regNum == old(regNum)
      ensures (op.Memory? ==> op'.Memory?) && IsSimple(op') && |code| <= 1
    {
      op', code := op, [];
      QuietNothing(regNum);
      AgreesAtOnce(op);
      if op.Memory? && !op.mem.Pointer? {
        op', code := MangleExplicitMemOp(op);
      } else if op.Memory? {
        if op.segment != Flat {
          op', code := MangleSegmentOffset(op);
        }
      } else if op.Register? && op.reg == RSP {
        op', code := MangleExplicitStackPointerRegOp(op);
      }
    }

    method MangleExplicitOps(i: Instr) returns (i': Instr, ghost code: seq<Instr>)
      requires WellFormed(i) && IsDefault(i.form) && OpsBelow(i.ops, regNum)
               && forall k | 0 <= k < |i.ops| :: OpOk(i.ops[k])
      requires regNum + |i.ops| <= MAX_NUM_VIRT_REGS
      modifies this
      ensures block == old(block) + code && old(regNum) <= regNum <= old(regNum) + |i.ops|
      ensures Quiet(code, old(regNum), regNum) && WellFormed(i') && Executes(code, i, i')
      ensures AllSimple(code) && IsSimpleInstr(i') && IsLowered(i')
      ensures if i.form.Mov89? && i.ops[1].reg == RSP
              then code == [] && i' == Instr(Lea, [i.ops[0], BaseDisp(0, RSP)])
              else i'.form == i.form && |code| <= |i.ops|
    {
      hide Run;
      hide Step;
      hide IsSimple;
      var ops := i.ops;
      code := [];
      QuietNothing(regNum);
      ghost var lo := regNum;
      for k := 0 to |i.ops|
        invariant |ops| == |i.ops| && ops[k..] == i.ops[k..]
        invariant block == old(block) + code && lo <= regNum <= lo + k && Quiet(code, lo, regNum) && AllSimple(code)
        invariant |code| <= k
        invariant i.form.Mov89? && k == 2 ==> i.ops[1].reg != RSP
        invariant OperandsAgree(code, i.ops, ops, k, regNum)
        invariant forall j | 0 <= j < k :: (i.ops[j].Memory? ==> ops[j].Memory?) && IsSimple(ops[j])
        invariant i.form.Mov89? ==> ops[..k] == i.ops[..k] && code == [] && regNum == lo
      {
        var op := i.ops[k];
        if i.form.Mov89? && !op.writes && op.reg == RSP {
          i' := Instr(Lea, [i.ops[0], BaseDisp(0, RSP)]);
          MoveIsLea(i);
          return;
        }
        ghost var mid := regNum;
        var op', more := MangleOperand(op);
        ops := ops[k := op'];
        OperandsGoOn(code, lo, mid, more, regNum, i.ops, ops, k);
        code := code + more;
      }
      i' := i.(ops := ops);
      AgreeingExecutes(code, i, i');
    }

    // PUSH m64: a mangled load, and a push of the register.
    method ManglePushMemOp(i: Instr) returns (i': Instr, ghost code: seq<Instr>)
      requires WellFormed(i) && i.form.Push? && i.ops[0].Memory? && OpsBelow(i.ops, 0) && regNum == 0
      modifies this
      ensures block == old(block) + code && regNum <= MAX_NUM_VIRT_REGS
      ensures IsCode(code) && WellFormed(i') && SameMeaning(i, code + [i'])
      ensures AllSimple(code + [i'])
    {
      var op := i.ops[0].(sticky := false);
      var vr := AllocateVirtualRegister();
      var mov := Instr(Mov, [Writes(vr), op]);
      var mov', more := MangleExplicitOps(mov);
      Append(mov');
      i' := i.(ops := [Reads(vr)]);
      code := more + [mov'];
      MovLoads(more, 1, regNum, vr.n, op, mov');
      PushMeans(code, vr.n, i);
    }

    // POP m64: load the top of the stack, store it where the operand will point after the
    // increment, then move RSP.
    method ManglePopMemOp(i: Instr) returns (i': Instr, ghost code: seq<Instr>)
      requires WellFormed(i) && i.form.Pop? && i.ops[0].Memory? && PopOk(i.ops[0]) && regNum == 0
      modifies this
      ensures block == old(block) + code && regNum <= MAX_NUM_VIRT_REGS
      ensures IsCode(code) && WellFormed(i') && (SameMeaning(i, code + [i']) <==> PopFaithful(i.ops[0]))
      ensures AllSimple(code + [i'])
    {
      hide Run;
      hide Step;
      var op := i.ops[0];
      var vr := AllocateVirtualRegister();
      var load := Instr(Mov, [Writes(vr), BaseDisp(0, RSP)]);
      Append(load);
      if op.mem.Compound? {
        if op.mem.base == Some(RSP) {
          op := op.(mem := op.mem.(disp :=
              if op.mem.disp + 8 >= TWO_31 then op.mem.disp + 8 - TWO_32 else op.mem.disp + 8));
        }
      } else if op.mem == Simple(RSP) {
        op := BaseDisp(8, RSP);
      }
      op := op.(sticky := false);
      var store := Instr(Mov, [op, Reads(vr)]);
      var store', more := MangleExplicitOps(store);
      Append(store');
      i' := Instr(Lea, [Writes(RSP), BaseDisp(8, RSP)]);
      code := [load] + (more + [store']);
      assert op == PopDest(i.ops[0]);
      assert code + [i'] == PopCode(vr.n, more, store');
      PopMeansIff(vr.n, more, regNum, i, store');
    }

    // POP RSP: RSP is loaded from the top of the stack.
    method ManglePopStackPointer(i: Instr) returns (i': Instr, ghost code: seq<Instr>)
      requires WellFormed(i) && i.form.Pop? && i.ops[0] == Writes(RSP) && regNum == 0
      modifies this
      ensures block == old(block) + code && regNum <= MAX_NUM_VIRT_REGS
      ensures IsCode(code) && WellFormed(i') && SameMeaning(i, code + [i'])
      ensures AllSimple(code + [i'])
    {
      var mov := Instr(Mov, [Writes(RSP), BaseDisp(0, RSP)]);
      i', code := MangleExplicitOps(mov);
      PopStackPointerMeans(i, code, 0, regNum, i');
    }

    method MangleXLAT(i: Instr) returns (i': Instr, ghost code: seq<Instr>)
      requires WellFormed(i) && i.form.Xlat? && regNum == 0
      modifies this
      ensures block == old(block) + code && regNum <= MAX_NUM_VIRT_REGS
      ensures IsCode(code) && WellFormed(i') && (SameMeaning(i, code + [i']) <==> i.form.segment == Flat)
      ensures AllSimple(code + [i'])
    {
      var addr := AllocateVirtualRegister();
      Append(Instr(MovzxAL, [Writes(addr)]));
      Append(Instr(Lea, [Writes(addr), Memory(Compound(Some(addr), Some(RBX), 1, 0), Flat, false)]));
      i' := Instr(MovAL, [Memory(Simple(addr), Flat, false)]);
      code := XlatCode(addr.n);
      XlatMeansIff(addr.n, i);
    }

    method MangleLeave(i: Instr) returns (i': Instr, ghost code: seq<Instr>)
      requires WellFormed(i) && i.form.Leave?
      modifies this
      ensures block == old(block) + code && regNum == old(regNum)
      ensures IsCode(code) && WellFormed(i') && SameMeaning(i, code + [i'])
      ensures AllSimple(code + [i'])
    {
      Append(Instr(Mov89, [Writes(RSP), Reads(RBP)]));
      i' := Instr(Pop, [Writes(RBP)]);
      code := [Instr(Mov89, [Writes(RSP), Reads(RBP)])];
      LeaveMeans(i);
    }

    // The body of MangleEnter's loop.
    method AppendCopyRound(copiedAddr: Reg, destAddr: Reg, copiedVal: Reg, numArgs: nat, k: nat)
      requires k < numArgs && copiedAddr == Virtual(1) && destAddr == Virtual(2) && copiedVal == Virtual(3)
      modifies this
      ensures block == old(block) + CopyRound(0, numArgs, k) && regNum == old(regNum)
    {
      Append(Instr(Lea, [Writes(copiedAddr), BaseDisp(-8 * k, RBP)]));
      Append(Instr(Lea, [Writes(destAddr), BaseDisp(8 * (numArgs - k - 1), RSP)]));
      Append(Instr(Mov, [Writes(copiedVal), BaseDisp(0, copiedAddr)]));
      Append(Instr(Mov, [BaseDisp(0, destAddr), Reads(copiedVal)]));
    }

    // The part of MangleEnter for a nesting level.
    method AppendFrames(tempRbp: Reg, numArgs: nat)
      requires tempRbp == Virtual(0) && regNum == 1 && numArgs > 0
      modifies this
      ensures block == old(block) + EnterFrames(0, numArgs) && regNum == 4 && AllSimple(EnterFrames(0, numArgs))
    {
      hide CopyRound;
      Append(Instr(Lea, [Writes(RSP), BaseDisp(-8 * (numArgs - 1), RSP)]));
      var copiedAddr := AllocateVirtualRegister();
      var destAddr := AllocateVirtualRegister();
      var copiedVal := AllocateVirtualRegister();
      ghost var before := block;
      for k := 1 to numArgs
        invariant block == before + CopyRounds(0, numArgs, k - 1) && regNum == 4
      {
        AppendCopyRound(copiedAddr, destAddr, copiedVal, numArgs, k);
      }
      Append(Instr(Push, [Reads(tempRbp)]));
      CopyRoundsAreSimple(0, numArgs, numArgs - 1);
    }

    method MangleEnter(i: Instr) returns (i': Instr, ghost code: seq<Instr>)
      requires WellFormed(i) && i.form.Enter? && regNum == 0
      modifies this
      ensures block == old(block) + code && regNum <= MAX_NUM_VIRT_REGS
      ensures IsCode(code) && WellFormed(i') && SameMeaning(i, code + [i'])
      ensures AllSimple(code + [i'])
    {
      hide SameMeaning;
      hide EnterFrames;
      var frameSize := i.ops[0].value % 0x1_0000;
      var numArgs := i.ops[1].value % 32;
      var tempRbp := AllocateVirtualRegister();
      Append(Instr(Push, [Reads(RBP)]));
      Append(Instr(Lea, [Writes(tempRbp), BaseDisp(0, RSP)]));
      code := EnterStart(0);
      assert block == old(block) + code;
      if numArgs != 0 {
        AppendFrames(tempRbp, numArgs);
      } else {
        NoFrames(0);
      }
      code := code + EnterFrames(0, numArgs);
      assert block == old(block) + code;
      if frameSize != 0 {
        Append(Instr(Lea, [Writes(RSP), BaseDisp(0 - frameSize, RSP)]));
      }
      code := code + EnterSize(frameSize);
      i' := Instr(Mov89, [Writes(RBP), Reads(tempRbp)]);
      EnterMeans(0, i);
      CodePrefix(code, i');
    }

    // CALL or JMP: an indirect target is loaded into a virtual register first.
    method MangleIndirectCFI(i: Instr) returns (i': Instr, ghost code: seq<Instr>)
      requires WellFormed(i) && i.form.Transfer? && OpsBelow(i.ops, 0) && regNum == 0
      requires i.ops[0].Register? ==> !i.ops[0].writes && i.ops[0].bytes == 8
      modifies this
      ensures block == old(block) + code && regNum <= MAX_NUM_VIRT_REGS
      ensures IsCode(code) && WellFormed(i') && SameMeaning(i, code + [i'])
      ensures AllSimple(code + [i'])
      ensures !i.ops[0].Immediate? ==> i'.ops == [Reads(Virtual(0))]
    {
      var target := AllocateVirtualRegister();
      i', code := i, [];
      if i.ops[0].Memory? {
        var op := i.ops[0].(sticky := false);
        var mov', more := MangleExplicitOps(Instr(Mov, [Writes(target), op]));
        Append(mov');
        i' := i.(ops := [Reads(target)]);
        code := more + [mov'];
        MovLoads(more, 1, regNum, 0, op, mov');
        PushMeans(code, 0, i);
      } else if i.ops[0].Register? {
        Append(Instr(Mov89, [Writes(target), i.ops[0]]));
        i' := i.(ops := [Reads(target)]);
        code := [Instr(Mov89, [Writes(target), i.ops[0]])];
        TransferMeans(i, 0);
      } else {
        UnchangedMeans(i);
      }
    }

    method ManglePushSegReg(i: Instr) returns (i': Instr, ghost code: seq<Instr>)
      requires WellFormed(i) && i.form.PushSeg? && regNum == 0
      modifies this
      ensures block == old(block) + code && regNum <= MAX_NUM_VIRT_REGS
      ensures IsCode(code) && WellFormed(i') && SameMeaning(i, code + [i'])
      ensures AllSimple(code + [i'])
    {
      var vr := AllocateVirtualRegister();
      Append(Instr(MovFromSeg(i.form.selector), [Register(vr, 2, true)]));
      Append(Instr(Movzx16, [Writes(vr), Register(vr, 2, false)]));
      i' := Instr(Push, [Reads(vr)]);
      code := PushSegCode(i.form, 0);
      PushSegMeans(i, 0);
    }

    method ManglePopSegReg(i: Instr) returns (i': Instr, ghost code: seq<Instr>)
      requires WellFormed(i) && i.form.PopSeg? && regNum == 0
      modifies this
      ensures block == old(block) + code && regNum <= MAX_NUM_VIRT_REGS
      ensures IsCode(code) && WellFormed(i') && SameMeaning(i, code + [i'])
      ensures AllSimple(code + [i'])
    {
      var vr := AllocateVirtualRegister();
      Append(Instr(Pop, [Writes(vr)]));
      i' := Instr(MovToSeg(i.form.load), [Register(vr, 2, false)]);
      code := [Instr(Pop, [Writes(vr)])];
      PopSegMeans(i, 0);
    }

    method ManglePushFlags(i: Instr) returns (i': Instr, ghost code: seq<Instr>)
      requires WellFormed(i) && i.form.PushFlags? && regNum == 0
      modifies this
      ensures block == old(block) + code && regNum <= MAX_NUM_VIRT_REGS
      ensures IsCode(code) && WellFormed(i') && SameMeaning(i, code + [i'])
      ensures AllSimple(code + [i'])
    {
      var vr := AllocateVirtualRegister();
      i', code := i.(ops := [Writes(vr)]), [];
      PushFlagsMeans(i, Writes(vr));
    }

    // The whole pass, for one decoded instruction. The native state after the emitted code is
    // that of the instruction if and only if the instruction is one the pass is faithful to.
    // `invalidatesStack` is the stack analysis's word that the instruction writes RSP other than
    // by a constant shift; it is announced by an annotation.
    method MangleDecodedInstruction(i: Instr, invalidatesStack: bool) returns (i': Instr, ghost code: seq<Instr>)
      requires IsDecoded(i)
      modifies this
      ensures block == old(block) + code && regNum <= MAX_NUM_VIRT_REGS
      ensures IsCode(code) && WellFormed(i') && (SameMeaning(i, code + [i']) <==> IsFaithful(i))
      ensures var first := if invalidatesStack then [Noted(InvalidStack)] else [];
              var last := if i.form.Interrupts? then [Noted(InterruptStateChange)] else [];
              exists lowered :: code == first + lowered + last && AllSimple(lowered + [i'])
    {
      hide SameMeaning;
      hide IsFaithful;
      hide IsSimpleInstr;
      hide IsLowered;
      ghost var lowered;
      if invalidatesStack {
        Append(Noted(InvalidStack));
        i', code, lowered := MangleByClass(i);
        AnnotatedMeans(i, InvalidStack, code + [i']);
        assert [Noted(InvalidStack)] + code + [i'] == [Noted(InvalidStack)] + (code + [i']);
        code := [Noted(InvalidStack)] + code;
      } else {
        i', code, lowered := MangleByClass(i);
      }
      assert code == (if invalidatesStack then [Noted(InvalidStack)] else []) + lowered
                     + if i.form.Interrupts? then [Noted(InterruptStateChange)] else [];
    }

    // MangleDecodedInstruction's switch on the instruction class.
    method MangleByClass(i: Instr) returns (i': Instr, ghost code: seq<Instr>, ghost lowered: seq<Instr>)
      requires IsDecoded(i)
      modifies this
      ensures block == old(block) + code && regNum <= MAX_NUM_VIRT_REGS
      ensures IsCode(code) && WellFormed(i') && (SameMeaning(i, code + [i']) <==> IsFaithful(i))
      ensures code == lowered + if i.form.Interrupts? then [Noted(InterruptStateChange)] else []
      ensures AllSimple(lowered + [i'])
    {
      hide SameMeaning;
      hide Executes;
      regNum := 0;
      i', code := i, [];
      match i.form {
        case Transfer(_) =>
          i', code := MangleIndirectCFI(i);
        case Push =>
          if i.ops[0].Memory? {
            i', code := ManglePushMemOp(i);
          } else {
            UnchangedMeans(i);
          }
        case Pop =>
          if i.ops[0].Memory? {
            i', code := ManglePopMemOp(i);
          } else if i.ops[0].reg == RSP {
            i', code := ManglePopStackPointer(i);
          } else {
            UnchangedMeans(i);
          }
        case Xlat(_) =>
          i', code := MangleXLAT(i);
        case Enter =>
          i', code := MangleEnter(i);
        case PushSeg(_) =>
          i', code := ManglePushSegReg(i);
        case PopSeg(_) =>
          i', code := ManglePopSegReg(i);
        case PushFlags(_) =>
          i', code := ManglePushFlags(i);
        case Interrupts(_) =>
          Append(Noted(InterruptStateChange));
          code := [Noted(InterruptStateChange)];
          UnchangedMeans(i);
          AnnotatedMeans(i, InterruptStateChange, [] + [i]);
          assert code + [i] == code + ([] + [i]);
        case Leave =>
          i', code := MangleLeave(i);
        case Lea =>
          UnchangedMeans(i);
        case Mov | Mov89 | MovzxAL | MovAL | Other(_) =>
          i', code := MangleExplicitOps(i);
          DefaultMeans(code, 0, regNum, i, i');
      }
      lowered := if i.form.Interrupts? then [] else code;
    }
  }
}
