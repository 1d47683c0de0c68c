/**
What the code that early mangling emits means: when a prefix of instructions only sets up virtual
registers, when an operand after it means what another meant before it, and what the sequences
for PUSH, POP, LEAVE, XLAT and ENTER do to the native state.
*/
module MangledCode {
  import opened Options
  import opened Words
  import opened Machine

  function Reads(r: Reg): Operand { Register(r, 8, false) }

  function Writes(r: Reg): Operand { Register(r, 8, true) }

  // BaseDispMemOp: a memory operand without segment.
  function BaseDisp(disp: int, r: Reg): Operand {
    Memory(if disp == 0 then Simple(r) else Compound(Some(r), None, 0, disp), Flat, false)
  }

  predicate RegBelow(r: Reg, n: nat) {
    r.Virtual? ==> r.n < n
  }

  // Every virtual register of the operand has a number below `n`.
  predicate OpBelow(op: Operand, n: nat) {
    match op
    case Memory(Simple(r), _, _) => RegBelow(r, n)
    case Memory(Compound(b, i, _, _), _, _) => (b.Some? ==> RegBelow(b.value, n)) && (i.Some? ==> RegBelow(i.value, n))
    case Register(r, _, _) => RegBelow(r, n)
    case _ => true
  }

  predicate OpsBelow(ops: seq<Operand>, n: nat) {
    forall i | 0 <= i < |ops| :: OpBelow(ops[i], n)
  }

  // `s'` differs from `s` at most in the virtual registers [lo, hi).
  ghost predicate Same(s: State, s': State, lo: nat, hi: nat) {
    s'.native == s.native && forall v: nat | v < lo || hi <= v :: Value(s', Virtual(v)) == Value(s, Virtual(v))
  }

  // Code that changes nothing but the virtual registers [lo, hi).
  ghost predicate Quiet(code: seq<Instr>, lo: nat, hi: nat) {
    IsCode(code) && forall s :: Same(s, Run(code, s), lo, hi)
  }

  // After `code`, `op'` means what `op` meant before it.
  ghost predicate Agrees(code: seq<Instr>, op: Operand, op': Operand)
    requires IsCode(code)
  {
    forall s :: Resolve(Run(code, s), op') == Resolve(s, op)
  }

  // Virtual registers out of an operand's reach do not matter to it.
  lemma SameResolves(s: State, s': State, lo: nat, hi: nat, op: Operand)
    requires Same(s, s', lo, hi) && OpBelow(op, lo)
    ensures Resolve(s', op) == Resolve(s, op)
  {
  }

  lemma QuietConcat(a: seq<Instr>, lo: nat, mid: nat, b: seq<Instr>, hi: nat)
    requires lo <= mid <= hi && Quiet(a, lo, mid) && Quiet(b, mid, hi)
    ensures Quiet(a + b, lo, hi)
  {
    forall s ensures Same(s, Run(a + b, s), lo, hi) {
      RunConcat(a, b, s);
      assert Same(s, Run(a, s), lo, mid) && Same(Run(a, s), Run(b, Run(a, s)), mid, hi);
    }
  }

  // Later quiet code keeps an agreement; earlier quiet code does not disturb a later one.
  lemma AgreesLonger(a: seq<Instr>, lo: nat, mid: nat, b: seq<Instr>, hi: nat, op: Operand, op': Operand)
    requires Quiet(a, lo, mid) && Quiet(b, mid, hi) && IsCode(a + b)
    requires (Agrees(a, op, op') && OpBelow(op', mid)) || (Agrees(b, op, op') && OpBelow(op, lo))
    ensures Agrees(a + b, op, op')
  {
    forall s ensures Resolve(Run(a + b, s), op') == Resolve(s, op) {
      RunConcat(a, b, s);
      if Agrees(a, op, op') && OpBelow(op', mid) {
        SameResolves(Run(a, s), Run(b, Run(a, s)), mid, hi, op');
      } else {
        SameResolves(s, Run(a, s), lo, mid, op);
      }
    }
  }

  lemma QuietNothing(lo: nat)
    ensures Quiet([], lo, lo)
  {
  }

  // One instruction that sets virtual register `lo`.
  lemma QuietSet(i: Instr, lo: nat)
    requires WellFormed(i) && |i.ops| > 0 && i.ops[0] == Writes(Virtual(lo))
             && (i.form.Mov? || i.form.Lea? || i.form.MovzxAL?)
    ensures Quiet([i], lo, lo + 1)
  {
    forall s ensures Same(s, Run([i], s), lo, lo + 1) {
      RunOne(i, s);
    }
  }

  lemma AgreesAtOnce(op: Operand)
    ensures Agrees([], op, op)
  {
  }

  // The address of `op`, computed into virtual register `n`.
  function LeaOf(op: Operand, n: nat): Instr
    requires op.Memory?
  {
    Instr(Lea, [Writes(Virtual(n)), op.(segment := Flat)])
  }

  lemma LeaStep(op: Operand, n: nat, s: State)
    requires op.Memory?
    ensures Step(LeaOf(op, n), s) == SetReg(s, Virtual(n), Offset(s, op.mem))
  {
    var i := LeaOf(op, n);
    assert ResolveAll(s, i.ops) == [Dest(Virtual(n)), Address(Offset(s, op.mem))];
  }

  lemma SimpleResolves(s: State, op: Operand, n: nat)
    requires op.Memory?
    ensures Resolve(SetReg(s, Virtual(n), Offset(s, op.mem)), op.(mem := Simple(Virtual(n)))) == Resolve(s, op)
  {
  }

  lemma LeaAgrees(op: Operand, n: nat)
    requires op.Memory?
    ensures Agrees([LeaOf(op, n)], op, op.(mem := Simple(Virtual(n))))
  {
    forall s ensures Resolve(Run([LeaOf(op, n)], s), op.(mem := Simple(Virtual(n)))) == Resolve(s, op) {
      RunOne(LeaOf(op, n), s);
      LeaStep(op, n, s);
      SimpleResolves(s, op, n);
    }
  }

  // A read of RSP, or of its low bytes, becomes one of a virtual register that holds RSP.
  lemma StackPointerAgrees(op: Operand, n: nat)
    requires op.Register? && op.reg == RSP && !op.writes
    ensures Agrees([LeaOf(BaseDisp(0, RSP), n)], op, op.(reg := Virtual(n)))
  {
    var lea := LeaOf(BaseDisp(0, RSP), n);
    forall s ensures Resolve(Run([lea], s), op.(reg := Virtual(n))) == Resolve(s, op) {
      RunOne(lea, s);
      LeaStep(BaseDisp(0, RSP), n, s);
    }
  }

  lemma OffsetAgrees(op: Operand, n: nat)
    requires op.Memory? && op.mem.Pointer?
    ensures Agrees([Instr(Mov, [Writes(Virtual(n)), Immediate(op.mem.addr)])], op, op.(mem := Simple(Virtual(n))))
  {
    var mov := Instr(Mov, [Writes(Virtual(n)), Immediate(op.mem.addr)]);
    forall s ensures Resolve(Run([mov], s), op.(mem := Simple(Virtual(n)))) == Resolve(s, op) {
      RunOne(mov, s);
      MovStep(mov.ops[0], mov.ops[1], s);
      SimpleResolves(s, op, n);
    }
  }

  lemma MovStep(dst: Operand, src: Operand, s: State)
    ensures Step(Instr(Mov, [dst, src]), s) == Store(s, Resolve(s, dst), Fetch(s, Resolve(s, src)))
  {
    assert ResolveAll(s, [dst, src]) == [Resolve(s, dst), Resolve(s, src)];
  }

  // After `code`, `i'` does what `i` does with the operands it had before `code`.
  ghost predicate Executes(code: seq<Instr>, i: Instr, i': Instr)
    requires IsCode(code) && WellFormed(i) && WellFormed(i')
  {
    forall s :: Step(i', Run(code, s)) == Exec(i, ResolveAll(s, i.ops), Run(code, s))
  }

  predicate IsDefault(f: Form) {
    f.Mov? || f.Mov89? || f.MovzxAL? || f.MovAL? || f.Other?
  }

  // What decoding promises of sticky operands.
  predicate OpOk(op: Operand) {
    op.Memory? ==> StickyOk(op)
  }

  lemma AgreeingExecutes(code: seq<Instr>, i: Instr, i': Instr)
    requires IsCode(code) && WellFormed(i) && WellFormed(i')
             && IsDefault(i.form) && i'.form == i.form && |i'.ops| == |i.ops|
    requires forall k | 0 <= k < |i.ops| :: Agrees(code, i.ops[k], i'.ops[k])
    ensures Executes(code, i, i')
  {
    forall s ensures Step(i', Run(code, s)) == Exec(i, ResolveAll(s, i.ops), Run(code, s)) {
      var rs, rs' := ResolveAll(s, i.ops), ResolveAll(Run(code, s), i'.ops);
      forall k | 0 <= k < |rs| ensures rs'[k] == rs[k] {
        assert Agrees(code, i.ops[k], i'.ops[k]);
      }
      assert rs' == rs;
    }
  }

  // A move of RSP to a register becomes a LEA.
  lemma MoveIsLea(i: Instr)
    requires WellFormed(i) && i.form.Mov89? && i.ops[1].reg == RSP
    ensures Executes([], i, Instr(Lea, [i.ops[0], BaseDisp(0, RSP)]))
  {
    var i' := Instr(Lea, [i.ops[0], BaseDisp(0, RSP)]);
    forall s ensures Step(i', s) == Exec(i, ResolveAll(s, i.ops), s) {
      assert ResolveAll(s, i'.ops) == [Dest(i.ops[0].reg), Address(Value(s, RSP))];
      assert ResolveAll(s, i.ops) == [Dest(i.ops[0].reg), Given(Value(s, RSP))];
    }
  }

  lemma BaseAgrees(op: Operand)
    requires op.Memory? && op.mem.Compound? && op.mem.disp == 0 && op.mem.index.None? && op.mem.base.Some?
    ensures Agrees([], op, op.(mem := Simple(op.mem.base.value)))
  {
    forall s ensures Resolve(s, op) == Resolve(s, op.(mem := Simple(op.mem.base.value))) {
      assert Wrap(Value(s, op.mem.base.value)) == Value(s, op.mem.base.value);
    }
  }

  // Decoding keeps [RSP] compound, and a sticky operand that is just a base register has one
  // that is not RSP.
  predicate StickyOk(op: Operand)
    requires op.Memory?
  {
    op.sticky ==>
      && op.mem != Simple(RSP)
      && (op.mem.Compound? && op.mem.disp == 0 && op.mem.index.None? ==> op.mem.base.Some? && op.mem.base.value != RSP)
  }

  // On every machine state, `code` leaves the native state that `i` leaves.
  ghost predicate SameMeaning(i: Instr, code: seq<Instr>)
    requires WellFormed(i) && IsCode(code)
  {
    forall s :: Run(code, s).native == Step(i, s).native
  }

  lemma RunLast(code: seq<Instr>, i: Instr, s: State)
    requires IsCode(code) && WellFormed(i)
    ensures Run(code + [i], s) == Step(i, Run(code, s))
  {
    RunConcat(code, [i], s);
    RunOne(i, Run(code, s));
  }

  // The outcome of a default instruction depends on the native state and its operands only.
  lemma ExecNative(i: Instr, rs: seq<Resolved>, s: State, s': State)
    requires WellFormed(i) && IsDefault(i.form) && |rs| == |i.ops| && s.native == s'.native
    requires forall k | 0 <= k < |rs| :: rs[k].Dest? ==> rs[k].reg.Native?
    ensures Exec(i, rs, s').native == Exec(i, rs, s).native
  {
  }

  lemma DefaultMeans(code: seq<Instr>, lo: nat, hi: nat, i: Instr, i': Instr)
    requires Quiet(code, lo, hi) && WellFormed(i) && WellFormed(i') && IsDefault(i.form) && OpsBelow(i.ops, 0)
    requires Executes(code, i, i')
    ensures SameMeaning(i, code + [i'])
  {
    hide Run;
    hide Exec;
    forall s ensures Run(code + [i'], s).native == Step(i, s).native {
      RunLast(code, i', s);
      assert Same(s, Run(code, s), lo, hi);
      ExecNative(i, ResolveAll(s, i.ops), s, Run(code, s));
    }
  }

  // A mangled load into virtual register `n`: the register gets the value, no more is seen.
  ghost predicate Loads(code: seq<Instr>, n: nat, op: Operand) {
    && IsCode(code)
    && forall s :: Run(code, s).native == s.native && Value(Run(code, s), Virtual(n)) == Fetch(s, Resolve(s, op))
  }

  lemma MovLoads(code: seq<Instr>, lo: nat, hi: nat, n: nat, op: Operand, mov': Instr)
    requires Quiet(code, lo, hi) && WellFormed(mov') && op.Memory?
    requires Executes(code, Instr(Mov, [Writes(Virtual(n)), op]), mov')
    ensures Loads(code + [mov'], n, op)
  {
    var mov := Instr(Mov, [Writes(Virtual(n)), op]);
    forall s ensures Run(code + [mov'], s).native == s.native
                     && Value(Run(code + [mov'], s), Virtual(n)) == Fetch(s, Resolve(s, op))
    {
      RunLast(code, mov', s);
      assert Same(s, Run(code, s), lo, hi);
      assert ResolveAll(s, mov.ops) == [Dest(Virtual(n)), Resolve(s, op)];
    }
  }

  lemma StickyIsNothing(s: State, op: Operand)
    requires op.Memory?
    ensures Resolve(s, op.(sticky := false)) == Resolve(s, op)
  {
  }

  // PUSH m64, and CALL or JMP through memory: load, then use the register.
  lemma PushMeans(code: seq<Instr>, n: nat, i: Instr)
    requires WellFormed(i) && (i.form.Push? || i.form.Transfer?) && i.ops[0].Memory?
             && Loads(code, n, i.ops[0].(sticky := false))
    ensures SameMeaning(i, code + [i.(ops := [Reads(Virtual(n))])])
  {
    var i' := i.(ops := [Reads(Virtual(n))]);
    forall s ensures Run(code + [i'], s).native == Step(i, s).native {
      var s', v := Run(code, s), Fetch(s, Resolve(s, i.ops[0]));
      RunLast(code, i', s);
      StickyIsNothing(s, i.ops[0]);
      assert s'.native == s.native && Value(s', Virtual(n)) == v;
      UseOne(i, s);
      UseRead(i', s', n);
      UsedNative(i.form, v, s, s');
    }
  }

  lemma UseRead(i: Instr, s: State, n: nat)
    requires WellFormed(i) && (i.form.Push? || i.form.Transfer?) && i.ops == [Reads(Virtual(n))]
    ensures Step(i, s) == Used(i.form, Value(s, Virtual(n)), s)
  {
  }

  lemma UsedNative(f: Form, v: Word, s: State, s': State)
    requires (f.Push? || f.Transfer?) && s'.native == s.native
    ensures Used(f, v, s').native == Used(f, v, s).native
  {
  }

  function Used(f: Form, v: Word, s: State): State
    requires f.Push? || f.Transfer?
  {
    if f.Push? then Pushed(s, v) else s.(native := f.transfer(v, s.native))
  }

  lemma UseOne(i: Instr, s: State)
    requires WellFormed(i) && (i.form.Push? || i.form.Transfer?)
    ensures Step(i, s) == Used(i.form, Fetch(s, Resolve(s, i.ops[0])), s)
  {
  }

  // CALL or JMP through a register.
  lemma TransferMeans(i: Instr, n: nat)
    requires WellFormed(i) && i.form.Transfer? && i.ops[0].Register? && !i.ops[0].writes && i.ops[0].bytes == 8
    ensures SameMeaning(i, [Instr(Mov89, [Writes(Virtual(n)), i.ops[0]])] + [i.(ops := [Reads(Virtual(n))])])
  {
    var mov, i' := Instr(Mov89, [Writes(Virtual(n)), i.ops[0]]), i.(ops := [Reads(Virtual(n))]);
    forall s ensures Run([mov] + [i'], s).native == Step(i, s).native {
      RunLast([mov], i', s);
      RunOne(mov, s);
      assert ResolveAll(s, mov.ops) == [Dest(Virtual(n)), Resolve(s, i.ops[0])];
      UseOne(i, s);
      UseOne(i', Run([mov], s));
    }
  }

  // POP RSP is a load of RSP from the top of the stack.
  lemma PopStackPointerMeans(i: Instr, code: seq<Instr>, lo: nat, hi: nat, mov': Instr)
    requires WellFormed(i) && i.form.Pop? && i.ops[0] == Writes(RSP)
    requires Quiet(code, lo, hi) && WellFormed(mov')
             && Executes(code, Instr(Mov, [Writes(RSP), BaseDisp(0, RSP)]), mov')
    ensures SameMeaning(i, code + [mov'])
  {
    hide Run;
    hide Popped;
    hide Read64;
    var mov := Instr(Mov, [Writes(RSP), BaseDisp(0, RSP)]);
    forall s ensures Run(code + [mov'], s).native == Step(i, s).native {
      var s' := Run(code, s);
      RunLast(code, mov', s);
      assert Same(s, s', lo, hi);
      assert ResolveAll(s, mov.ops) == [Dest(RSP), Address(Value(s, RSP))];
      assert Step(mov', s') == SetReg(s', RSP, Read64(s.native.memory, Value(s, RSP)));
      PopStackPointerLoads(s);
      assert Step(i, s) == Popped(s, i.ops[0]);
    }
  }

  lemma PopStackPointerLoads(s: State)
    ensures Popped(s, Writes(RSP)) == SetReg(s, RSP, Read64(s.native.memory, Value(s, RSP)))
  {
    var g: seq<Word>, sp: Word, v: Word :=
      s.native.gprs, Wrap(Value(s, RSP) + 8), Read64(s.native.memory, Value(s, RSP));
    assert g[4 := sp][4 := v] == g[4 := v];
  }

  // LEAVE: MOV RSP, RBP; POP RBP.
  lemma LeaveMeans(i: Instr)
    requires WellFormed(i) && i.form.Leave?
    ensures SameMeaning(i, [Instr(Mov89, [Writes(RSP), Reads(RBP)])] + [Instr(Pop, [Writes(RBP)])])
  {
    var mov, pop := Instr(Mov89, [Writes(RSP), Reads(RBP)]), Instr(Pop, [Writes(RBP)]);
    forall s ensures Run([mov] + [pop], s).native == Step(i, s).native {
      RunLast([mov], pop, s);
      RunOne(mov, s);
      assert ResolveAll(s, mov.ops) == [Dest(RSP), Given(Value(s, RBP))];
    }
  }

  // The destination of a POP, as addressed before the increment; `disp + 8` in 32 bits. An
  // operand copied into a new instruction is no longer sticky.
  function PopDest(op: Operand): Operand
    requires op.Memory?
  {
    if op.mem.Compound? && op.mem.base == Some(RSP) then
      var disp := if op.mem.disp + 8 >= TWO_31 then op.mem.disp + 8 - TWO_32 else op.mem.disp + 8;
      op.(mem := op.mem.(disp := disp), sticky := false)
    else if op.mem == Simple(RSP) then BaseDisp(8, RSP)
    else op.(sticky := false)
  }

  // RSP is no index register, displacements have 32 bits, and other operands are native. A plain
  // [RSP] is only ever made by BaseDispMemOp, without a segment: decoding keeps it compound.
  predicate PopOk(op: Operand)
    requires op.Memory?
  {
    && OpBelow(op, 0)
    && (op.mem.Compound? ==> op.mem.index != Some(RSP) && -TWO_31 <= op.mem.disp < TWO_31)
    && (op.mem == Simple(RSP) ==> op.segment == Flat)
  }

  // When the destination is still the one addressed after the increment.
  predicate PopFaithful(op: Operand)
    requires op.Memory?
  {
    op.mem.Compound? && op.mem.base == Some(RSP) ==> op.mem.disp + 8 < TWO_31
  }

  function AfterPop(s: State): State {
    SetReg(s, RSP, Wrap(Value(s, RSP) + 8))
  }

  lemma PopDestResolves(s: State, op: Operand)
    requires op.Memory? && PopOk(op) && PopFaithful(op)
    ensures Resolve(s, PopDest(op)) == Resolve(AfterPop(s), op)
  {
    hide Wrap;
    if op.mem.Compound? && op.mem.base == Some(RSP) {
      var scaled := OptValue(s, op.mem.index) * op.mem.scale;
      assert OptValue(AfterPop(s), op.mem.index) * op.mem.scale == scaled;
      WrapAdd(Value(s, RSP) + 8, scaled + op.mem.disp);
      assert Offset(AfterPop(s), op.mem) == Wrap(Value(s, RSP) + scaled + (op.mem.disp + 8));
    } else if op.mem == Simple(RSP) {
      assert Offset(s, PopDest(op).mem) == Wrap(Value(s, RSP) + 8);
    } else {
      assert Offset(AfterPop(s), op.mem) == Offset(s, op.mem);
    }
  }

  // The code for POP m64, given the mangled store of virtual register `n`.
  function PopCode(n: nat, code: seq<Instr>, store': Instr): seq<Instr> {
    [Instr(Mov, [Writes(Virtual(n)), BaseDisp(0, RSP)])] + (code + [store'])
    + [Instr(Lea, [Writes(RSP), BaseDisp(8, RSP)])]
  }

  // What that code does: store the top of the stack at the destination, then move RSP.
  function StoredThenMoved(s: State, op: Operand): NativeState
    requires op.Memory?
  {
    var v := Read64(s.native.memory, Value(s, RSP));
    AfterPop(Store(s, Resolve(s, PopDest(op)), v)).native
  }

  lemma LeaRspStep(s: State)
    ensures Step(Instr(Lea, [Writes(RSP), BaseDisp(8, RSP)]), s) == AfterPop(s)
  {
    assert ResolveAll(s, [Writes(RSP), BaseDisp(8, RSP)]) == [Dest(RSP), Address(Wrap(Value(s, RSP) + 8))];
  }

  lemma StoreRuns(code: seq<Instr>, lo: nat, hi: nat, n: nat, op: Operand, store': Instr, s: State)
    requires Quiet(code, lo, hi) && WellFormed(store') && op.Memory?
    requires Executes(code, Instr(Mov, [op, Reads(Virtual(n))]), store')
    ensures Run(code + [store'], s).native == Store(s, Resolve(s, op), Value(s, Virtual(n))).native
  {
    var store := Instr(Mov, [op, Reads(Virtual(n))]);
    RunLast(code, store', s);
    assert Same(s, Run(code, s), lo, hi);
    assert ResolveAll(s, store.ops) == [Resolve(s, op), Given(Value(s, Virtual(n)))];
  }

  // Virtual register `n` holds the top of the stack.
  function TopLoaded(s: State, n: nat): State {
    SetReg(s, Virtual(n), Read64(s.native.memory, Value(s, RSP)))
  }

  lemma LoadTop(n: nat, s: State)
    ensures Run([Instr(Mov, [Writes(Virtual(n)), BaseDisp(0, RSP)])], s) == TopLoaded(s, n)
  {
    hide Step;
    hide Run;
    hide Read64;
    var load := Instr(Mov, [Writes(Virtual(n)), BaseDisp(0, RSP)]);
    MovStep(Writes(Virtual(n)), BaseDisp(0, RSP), s);
    RunOne(load, s);
  }

  lemma PopCodeRuns(n: nat, code: seq<Instr>, store': Instr, s: State)
    requires IsCode(code) && WellFormed(store')
    ensures IsCode(PopCode(n, code, store')) && IsCode(code + [store'])
    ensures Run(PopCode(n, code, store'), s) == AfterPop(Run(code + [store'], TopLoaded(s, n)))
  {
    var load, lea := Instr(Mov, [Writes(Virtual(n)), BaseDisp(0, RSP)]), Instr(Lea, [Writes(RSP), BaseDisp(8, RSP)]);
    RunConcat([load], code + [store'], s);
    LoadTop(n, s);
    RunLast([load] + (code + [store']), lea, s);
    LeaRspStep(Run([load] + (code + [store']), s));
  }

  lemma AfterPopNative(s: State, s': State)
    requires s'.native == s.native
    ensures AfterPop(s').native == AfterPop(s).native
  {
  }

  lemma PopDestLoaded(s: State, op: Operand, n: nat)
    requires op.Memory? && PopOk(op)
    ensures Resolve(TopLoaded(s, n), PopDest(op)) == Resolve(s, PopDest(op))
  {
  }

  lemma PopCodeDoes(n: nat, code: seq<Instr>, hi: nat, op: Operand, store': Instr, s: State)
    requires op.Memory? && PopOk(op) && Quiet(code, n + 1, hi) && WellFormed(store')
    requires Executes(code, Instr(Mov, [PopDest(op), Reads(Virtual(n))]), store')
    ensures IsCode(PopCode(n, code, store')) && Run(PopCode(n, code, store'), s).native == StoredThenMoved(s, op)
  {
    var s1, v := TopLoaded(s, n), Read64(s.native.memory, Value(s, RSP));
    PopCodeRuns(n, code, store', s);
    StoreRuns(code, n + 1, hi, n, PopDest(op), store', s1);
    PopDestLoaded(s, op, n);
    AfterPopNative(Store(s, Resolve(s, PopDest(op)), v), Run(code + [store'], s1));
  }

  lemma PoppedIs(s: State, op: Operand)
    requires op.Memory? && PopOk(op) && PopFaithful(op)
    ensures Popped(s, op).native == StoredThenMoved(s, op)
  {
    PopDestResolves(s, op);
  }

  lemma WrittenByte(m: Memory, a: Word, v: nat)
    ensures Write(m, a, 8, v)(a) == v % 256
  {
    CoversRest(a, 8, a);
    WriteElsewhere(Put(m, a, v % 256), Wrap(a + 1), 7, v / 256, a);
  }

  // Two stores of the same value, at addresses apart, tell each other apart.
  lemma StoresDiffer(m: Memory, a: Word, b: Word, v: nat)
    requires !Covers(b, 8, a) && m(a) != v % 256
    ensures Write(m, a, 8, v) != Write(m, b, 8, v)
  {
    WrittenByte(m, a, v);
    WriteElsewhere(m, b, 8, v, a);
  }

  // A state with all registers zero, segments at 16, and one set byte at `at`.
  function Sample(at: Word): State {
    State(NativeState(seq(16, _ => 0), 16, 16, x => if x == at then 1 else 0, 0), map[])
  }

  lemma LowByte(b: Byte, rest: nat)
    ensures (b + 256 * rest) % 256 == b
  {
  }

  lemma SampleTop()
    ensures Read64(Sample(0).native.memory, 0) % 256 == 1
  {
    var m := Sample(0).native.memory;
    LowByte(m(0), Read(m, Wrap(0 + 1), 7));
  }

  // Where the pop of `op` should and does store, in that state.
  lemma PopAddresses(op: Operand)
    requires op.Memory? && PopOk(op) && !PopFaithful(op)
    ensures var a, b := Resolve(AfterPop(Sample(0)), op).addr, Resolve(Sample(0), PopDest(op)).addr;
            !Covers(b, 8, a) && a != 0
  {
    var s, base := Sample(0), Base(Sample(0), op.segment);
    assert OptValue(AfterPop(s), op.mem.index) * op.mem.scale == OptValue(s, op.mem.index) * op.mem.scale == 0;
    assert Resolve(AfterPop(s), op).addr == base + op.mem.disp + 8;
    assert Resolve(s, PopDest(op)).addr == Wrap(base + op.mem.disp + 8 - TWO_32 + TWO_64);
  }

  // Otherwise the displacement wraps, and POP stores at the wrong address.
  lemma PopGoesWrong(op: Operand)
    requires op.Memory? && PopOk(op) && !PopFaithful(op)
    ensures Popped(Sample(0), op).native.memory != StoredThenMoved(Sample(0), op).memory
  {
    hide Covers;
    hide Write;
    hide Read64;
    var s := Sample(0);
    var a, b, v := Resolve(AfterPop(s), op).addr, Resolve(s, PopDest(op)).addr, Read64(s.native.memory, 0);
    PopAddresses(op);
    SampleTop();
    StoresDiffer(s.native.memory, a, b, v);
    assert Popped(s, op).native.memory == Write(s.native.memory, a, 8, v);
    assert StoredThenMoved(s, op).memory == Write(s.native.memory, b, 8, v);
  }

  // POP m64 is preserved if and only if its destination is.
  lemma PopMeansIff(n: nat, code: seq<Instr>, hi: nat, i: Instr, store': Instr)
    requires WellFormed(i) && i.form.Pop? && i.ops[0].Memory? && PopOk(i.ops[0])
             && Quiet(code, n + 1, hi) && WellFormed(store')
    requires Executes(code, Instr(Mov, [PopDest(i.ops[0]), Reads(Virtual(n))]), store')
    ensures IsCode(PopCode(n, code, store'))
    ensures SameMeaning(i, PopCode(n, code, store')) <==> PopFaithful(i.ops[0])
  {
    hide Run;
    hide PopCode;
    hide StoredThenMoved;
    hide Popped;
    var op, all := i.ops[0], PopCode(n, code, store');
    PopCodeDoes(n, code, hi, op, store', Sample(0));
    if PopFaithful(op) {
      forall s ensures Run(all, s).native == Step(i, s).native {
        PopCodeDoes(n, code, hi, op, store', s);
        PoppedIs(s, op);
      }
    } else {
      PopGoesWrong(op);
      assert Step(i, Sample(0)) == Popped(Sample(0), op);
    }
  }

  // XLAT: zero-extend AL, add RBX, load the byte.
  function XlatCode(n: nat): seq<Instr> {
    [Instr(MovzxAL, [Writes(Virtual(n))]), LeaOf(Memory(Compound(Some(Virtual(n)), Some(RBX), 1, 0), Flat, false), n)]
  }

  function XlatLoad(n: nat): Instr {
    Instr(MovAL, [Memory(Simple(Virtual(n)), Flat, false)])
  }

  lemma XlatSteps(n: nat, s: State)
    ensures Step(XlatCode(n)[0], s) == SetReg(s, Virtual(n), Value(s, RAX) % 256)
    ensures Step(XlatLoad(n), s) == SetAL(s, s.native.memory(Value(s, Virtual(n))))
  {
  }

  lemma XlatDoes(n: nat, s: State)
    ensures IsCode(XlatCode(n) + [XlatLoad(n)])
    ensures Run(XlatCode(n) + [XlatLoad(n)], s).native
            == SetAL(s, s.native.memory(Wrap(Value(s, RAX) % 256 + Value(s, RBX)))).native
  {
    hide Run;
    hide Step;
    var movzx, sum := XlatCode(n)[0], Memory(Compound(Some(Virtual(n)), Some(RBX), 1, 0), Flat, false);
    assert XlatCode(n) == [movzx] + [LeaOf(sum, n)];
    RunOne(movzx, s);
    XlatSteps(n, s);
    RunLast([movzx], LeaOf(sum, n), s);
    LeaStep(sum, n, Run([movzx], s));
    RunLast(XlatCode(n), XlatLoad(n), s);
    XlatSteps(n, Run(XlatCode(n), s));
  }

  // XLAT is preserved if and only if it has no segment override.
  lemma XlatMeansIff(n: nat, i: Instr)
    requires WellFormed(i) && i.form.Xlat?
    ensures IsCode(XlatCode(n) + [XlatLoad(n)])
    ensures SameMeaning(i, XlatCode(n) + [XlatLoad(n)]) <==> i.form.segment == Flat
  {
    var all := XlatCode(n) + [XlatLoad(n)];
    if i.form.segment == Flat {
      forall s ensures Run(all, s).native == Step(i, s).native {
        XlatDoes(n, s);
      }
    } else {
      XlatDoes(n, Sample(16));
      assert Value(Step(i, Sample(16)), RAX) == 1 && Value(Run(all, Sample(16)), RAX) == 0;
    }
  }

  // One round of ENTER's copying: the i-th of `level - 1` saved frame pointers. Virtual register
  // `n` holds the new frame pointer throughout; the copies go through the next three.
  function CopyRound(n: nat, level: nat, i: nat): seq<Instr> {
    [LeaOf(BaseDisp(-8 * i, RBP), n + 1),
     LeaOf(BaseDisp(8 * (level - i - 1), RSP), n + 2),
     Instr(Mov, [Writes(Virtual(n + 3)), BaseDisp(0, Virtual(n + 1))]),
     Instr(Mov, [BaseDisp(0, Virtual(n + 2)), Reads(Virtual(n + 3))])]
  }

  function CopyRounds(n: nat, level: nat, k: nat): seq<Instr> {
    if k == 0 then [] else CopyRounds(n, level, k - 1) + CopyRound(n, level, k)
  }

  lemma LeaDispStep(disp: int, r: Reg, n: nat, s: State)
    ensures Step(LeaOf(BaseDisp(disp, r), n), s) == SetReg(s, Virtual(n), Wrap(Value(s, r) + disp))
  {
    LeaStep(BaseDisp(disp, r), n, s);
  }

  lemma LoadStep(n: nat, from: nat, s: State)
    ensures Step(Instr(Mov, [Writes(Virtual(n)), BaseDisp(0, Virtual(from))]), s)
            == SetReg(s, Virtual(n), Read64(s.native.memory, Value(s, Virtual(from))))
  {
    MovStep(Writes(Virtual(n)), BaseDisp(0, Virtual(from)), s);
  }

  lemma StoreStep(to: nat, n: nat, s: State)
    ensures Step(Instr(Mov, [BaseDisp(0, Virtual(to)), Reads(Virtual(n))]), s)
            == SetMemory(s, Write(s.native.memory, Value(s, Virtual(to)), 8, Value(s, Virtual(n))))
  {
    MovStep(BaseDisp(0, Virtual(to)), Reads(Virtual(n)), s);
  }

  lemma RunFour(a: Instr, b: Instr, c: Instr, d: Instr, s: State)
    requires WellFormed(a) && WellFormed(b) && WellFormed(c) && WellFormed(d)
    ensures Run([a, b, c, d], s) == Step(d, Step(c, Step(b, Step(a, s))))
  {
    assert [a, b, c, d] == [a] + [b] + [c] + [d];
    RunOne(a, s);
    RunLast([a], b, s);
    RunLast([a] + [b], c, s);
    RunLast([a] + [b] + [c], d, s);
  }

  lemma {:induction false} CopyRoundsAreCode(n: nat, level: nat, k: nat)
    ensures IsCode(CopyRounds(n, level, k))
  {
    if k > 0 {
      CopyRoundsAreCode(n, level, k - 1);
    }
  }

  // A copy of eight bytes from `from` to `to`.
  function Copied(m: Memory, from: Word, to: Word): Memory {
    Write(m, to, 8, Read64(m, from))
  }

  // The four steps of a round, given the two addresses.
  lemma CopySteps(n: nat, a: Instr, b: Instr, from: Word, to: Word, s: State)
    requires WellFormed(a) && WellFormed(b)
    requires Step(a, s) == SetReg(s, Virtual(n + 1), from)
    requires Step(b, SetReg(s, Virtual(n + 1), from)) == SetReg(SetReg(s, Virtual(n + 1), from), Virtual(n + 2), to)
    ensures var load := Instr(Mov, [Writes(Virtual(n + 3)), BaseDisp(0, Virtual(n + 1))]);
            var store := Instr(Mov, [BaseDisp(0, Virtual(n + 2)), Reads(Virtual(n + 3))]);
            var s' := Step(store, Step(load, Step(b, Step(a, s))));
            && s'.native == s.native.(memory := Copied(s.native.memory, from, to))
            && Value(s', Virtual(n)) == Value(s, Virtual(n))
  {
    hide Step;
    hide Read64;
    hide Write;
    var s2 := Step(b, Step(a, s));
    LoadStep(n + 3, n + 1, s2);
    var s3 := SetReg(s2, Virtual(n + 3), Read64(s.native.memory, from));
    StoreStep(n + 2, n + 3, s3);
  }

  lemma CopyRoundDoes(n: nat, level: nat, i: nat, s: State)
    requires i < level
    ensures IsCode(CopyRound(n, level, i))
    ensures var s' := Run(CopyRound(n, level, i), s);
            && s'.native == s.native.(memory :=
                 Copied(s.native.memory, Wrap(Value(s, RBP) - 8 * i), Wrap(Value(s, RSP) + 8 * (level - i - 1))))
            && Value(s', Virtual(n)) == Value(s, Virtual(n))
  {
    hide Step;
    hide Run;
    hide Wrap;
    hide Copied;
    hide ResolveAll;
    var from, to := Wrap(Value(s, RBP) - 8 * i), Wrap(Value(s, RSP) + 8 * (level - i - 1));
    var a, b := LeaOf(BaseDisp(-8 * i, RBP), n + 1), LeaOf(BaseDisp(8 * (level - i - 1), RSP), n + 2);
    LeaDispStep(-8 * i, RBP, n + 1, s);
    LeaDispStep(8 * (level - i - 1), RSP, n + 2, SetReg(s, Virtual(n + 1), from));
    CopySteps(n, a, b, from, to, s);
    RunFour(a, b, Instr(Mov, [Writes(Virtual(n + 3)), BaseDisp(0, Virtual(n + 1))]),
            Instr(Mov, [BaseDisp(0, Virtual(n + 2)), Reads(Virtual(n + 3))]), s);
  }

  // Memory after `k` frame pointers below `bp` were copied, in order, to below `sp`.
  function FrameMemory(m: Memory, bp: Word, sp: Word, k: nat): Memory {
    if k == 0 then m else Copied(FrameMemory(m, bp, sp, k - 1), Wrap(bp - 8 * k), Wrap(sp - 8 * k))
  }

  // A native state with another stack pointer, frame pointer and memory.
  function With(x: NativeState, sp: Word, bp: Word, m: Memory): NativeState {
    x.(gprs := x.gprs[4 := sp][5 := bp], memory := m)
  }

  lemma WithAgain(x: NativeState, sp: Word, bp: Word, m: Memory, sp': Word, bp': Word, m': Memory)
    ensures With(With(x, sp, bp, m), sp', bp', m') == With(x, sp', bp', m')
  {
    assert x.gprs[4 := sp][5 := bp][4 := sp'][5 := bp'] == x.gprs[4 := sp'][5 := bp'];
  }

  lemma WithParts(x: NativeState, sp: Word, bp: Word, m: Memory)
    ensures var y := With(x, sp, bp, m);
            y.gprs[4] == sp && y.gprs[5] == bp && y.memory == m
  {
  }

  lemma SetsWith(s: State, v: Word)
    ensures SetReg(s, RSP, v).native == With(s.native, v, Value(s, RBP), s.native.memory)
    ensures SetReg(s, RBP, v).native == With(s.native, Value(s, RSP), v, s.native.memory)
    ensures s.native == With(s.native, Value(s, RSP), Value(s, RBP), s.native.memory)
  {
    var g := s.native.gprs;
    assert g[4 := v] == g[4 := v][5 := g[5]];
    assert g[5 := v] == g[4 := g[4]][5 := v];
    assert g == g[4 := g[4]][5 := g[5]];
  }

  lemma PushedWith(s: State, v: Word)
    ensures var sp := Wrap(Value(s, RSP) - 8);
            Pushed(s, v).native == With(s.native, sp, Value(s, RBP), Write(s.native.memory, sp, 8, v))
  {
    SetsWith(s, Wrap(Value(s, RSP) - 8));
  }

  // ENTER's own copying, in those terms.
  lemma {:induction false} FramesCopiedAre(s: State, k: nat)
    ensures var sp, bp := Value(s, RSP), Value(s, RBP);
            FramesCopied(s, k).native
            == With(s.native, Wrap(sp - 8 * k), Wrap(bp - 8 * k), FrameMemory(s.native.memory, bp, sp, k))
  {
    hide Wrap;
    hide Read64;
    hide Write;
    hide With;
    hide Pushed;
    var sp, bp := Value(s, RSP), Value(s, RBP);
    if k == 0 {
      SetsWith(s, 0);
      WrapSame(sp);
      WrapSame(bp);
    } else {
      FramesCopiedAre(s, k - 1);
      var t, m := FramesCopied(s, k - 1), FrameMemory(s.native.memory, bp, sp, k - 1);
      WrapAdd(sp - 8 * (k - 1), -8);
      WrapAdd(bp - 8 * (k - 1), -8);
      WithParts(s.native, Wrap(sp - 8 * (k - 1)), Wrap(bp - 8 * (k - 1)), m);
      var t' := SetReg(t, RBP, Wrap(bp - 8 * k));
      SetsWith(t, Wrap(bp - 8 * k));
      PushedWith(t', Read64(m, Wrap(bp - 8 * k)));
      WithAgain(s.native, Wrap(sp - 8 * (k - 1)), Wrap(bp - 8 * (k - 1)), m,
                Wrap(sp - 8 * (k - 1)), Wrap(bp - 8 * k), m);
      WithAgain(s.native, Wrap(sp - 8 * (k - 1)), Wrap(bp - 8 * k), m,
                Wrap(sp - 8 * k), Wrap(bp - 8 * k), FrameMemory(s.native.memory, bp, sp, k));
    }
  }

  // The emitted rounds, from a state whose RSP was already moved down.
  lemma {:induction false} CopyRoundsDo(n: nat, level: nat, k: nat, frame: Word, s: State)
    requires k < level && Value(s, RSP) == Wrap(frame - 8 * (level - 1))
    ensures IsCode(CopyRounds(n, level, k))
    ensures var s' := Run(CopyRounds(n, level, k), s);
            && s'.native == s.native.(memory := FrameMemory(s.native.memory, Value(s, RBP), frame, k))
            && Value(s', Virtual(n)) == Value(s, Virtual(n))
  {
    hide Wrap;
    hide Read64;
    hide Write;
    hide Step;
    CopyRoundsAreCode(n, level, k);
    if k > 0 {
      CopyRoundsDo(n, level, k - 1, frame, s);
      var s1 := Run(CopyRounds(n, level, k - 1), s);
      CopyRoundDoes(n, level, k, s1);
      RunConcat(CopyRounds(n, level, k - 1), CopyRound(n, level, k), s);
      WrapAdd(frame - 8 * (level - 1), 8 * (level - k - 1));
    }
  }

  // The code for ENTER in front of its last instruction. `n` is the first virtual register.
  function EnterStart(n: nat): seq<Instr> {
    [Instr(Push, [Reads(RBP)])] + [LeaOf(BaseDisp(0, RSP), n)]
  }

  function MoveRsp(disp: int): Instr {
    Instr(Lea, [Writes(RSP), BaseDisp(disp, RSP)])
  }

  function EnterFrames(n: nat, level: nat): seq<Instr> {
    if level == 0 then []
    else [MoveRsp(-8 * (level - 1))] + CopyRounds(n, level, level - 1) + [Instr(Push, [Reads(Virtual(n))])]
  }

  lemma NoFrames(n: nat)
    ensures EnterFrames(n, 0) == []
  {
  }

  function EnterSize(size: nat): seq<Instr> {
    if size == 0 then [] else [MoveRsp(0 - size)]
  }

  function EnterCode(n: nat, size: nat, level: nat): seq<Instr> {
    EnterStart(n) + EnterFrames(n, level) + EnterSize(size)
  }

  lemma MoveRspStep(disp: int, s: State)
    ensures Step(MoveRsp(disp), s) == SetReg(s, RSP, Wrap(Value(s, RSP) + disp))
  {
    assert ResolveAll(s, [Writes(RSP), BaseDisp(disp, RSP)]) == [Dest(RSP), Address(Wrap(Value(s, RSP) + disp))];
  }

  lemma PushStep(r: Reg, s: State)
    ensures Step(Instr(Push, [Reads(r)]), s) == Pushed(s, Value(s, r))
  {
    assert ResolveAll(s, [Reads(r)]) == [Given(Value(s, r))];
  }

  // After the start: RBP is pushed, and `n` holds the new frame pointer.
  lemma EnterStartDoes(n: nat, s: State)
    ensures IsCode(EnterStart(n))
    ensures var s1 := Pushed(s, Value(s, RBP));
            Run(EnterStart(n), s) == SetReg(s1, Virtual(n), Value(s1, RSP))
  {
    hide Wrap;
    hide Write;
    var s1 := Pushed(s, Value(s, RBP));
    PushStep(RBP, s);
    RunOne(Instr(Push, [Reads(RBP)]), s);
    LeaDispStep(0, RSP, n, s1);
    WrapSame(Value(s1, RSP));
    RunLast([Instr(Push, [Reads(RBP)])], LeaOf(BaseDisp(0, RSP), n), s);
  }

  // After the frames: what ENTER has pushed, but RBP is not yet set.
  lemma EnterFramesDo(n: nat, level: nat, s: State)
    requires level > 0 && Value(s, Virtual(n)) == Value(s, RSP)
    ensures IsCode(EnterFrames(n, level))
    ensures var frame, t := Value(s, RSP), Pushed(FramesCopied(s, level - 1), Value(s, RSP));
            var s' := Run(EnterFrames(n, level), s);
            && s'.native == With(s.native, Value(t, RSP), Value(s, RBP), t.native.memory)
            && t.native == With(s.native, Value(t, RSP), Value(t, RBP), t.native.memory)
            && Value(s', Virtual(n)) == frame
  {
    hide Run;
    hide Step;
    hide Wrap;
    hide Write;
    hide Read64;
    hide Pushed;
    hide With;
    hide FramesCopied;
    hide FrameMemory;
    hide CopyRounds;
    var frame, bp, sp := Value(s, RSP), Value(s, RBP), Wrap(Value(s, RSP) - 8 * (level - 1));
    var m := FrameMemory(s.native.memory, bp, frame, level - 1);
    var s1 := SetReg(s, RSP, sp);
    MoveRspStep(-8 * (level - 1), s);
    RunOne(MoveRsp(-8 * (level - 1)), s);
    CopyRoundsDo(n, level, level - 1, frame, s1);
    RunConcat([MoveRsp(-8 * (level - 1))], CopyRounds(n, level, level - 1), s);
    var s2 := Run(CopyRounds(n, level, level - 1), s1);
    RunLast([MoveRsp(-8 * (level - 1))] + CopyRounds(n, level, level - 1), Instr(Push, [Reads(Virtual(n))]), s);
    PushStep(Virtual(n), s2);
    EnterPushes(s, s2, level, frame);
  }

  lemma PushedVrs(s: State, v: Word)
    ensures Pushed(s, v).vrs == s.vrs
  {
  }

  lemma EnterPushes(s: State, s2: State, level: nat, frame: Word)
    requires level > 0 && frame == Value(s, RSP)
    requires s2.native == SetReg(s, RSP, Wrap(frame - 8 * (level - 1))).native
                          .(memory := FrameMemory(s.native.memory, Value(s, RBP), frame, level - 1))
    ensures var t := Pushed(FramesCopied(s, level - 1), frame);
            && Pushed(s2, frame).native == With(s.native, Value(t, RSP), Value(s, RBP), t.native.memory)
            && t.native == With(s.native, Value(t, RSP), Value(t, RBP), t.native.memory)
            && Pushed(s2, frame).vrs == s2.vrs
  {
    hide Wrap;
    hide Write;
    hide Read64;
    hide Pushed;
    hide FramesCopied;
    hide FrameMemory;
    var f, sp, bp := FramesCopied(s, level - 1), Wrap(frame - 8 * (level - 1)), Value(s, RBP);
    var m := FrameMemory(s.native.memory, bp, frame, level - 1);
    FramesCopiedAre(s, level - 1);
    PushedWith(f, frame);
    PushedWith(s2, frame);
    PushedVrs(s2, frame);
    SetsWith(s, sp);
    var sp' := Wrap(Value(s2, RSP) - 8);
    var m' := Write(m, sp', 8, frame);
    WithAgain(s.native, sp, Wrap(bp - 8 * (level - 1)), m, sp', Wrap(bp - 8 * (level - 1)), m');
    WithAgain(s.native, sp, bp, m, sp', bp, m');
  }

  lemma EnterSizeDoes(size: nat, s: State)
    ensures IsCode(EnterSize(size))
    ensures Run(EnterSize(size), s) == SetReg(s, RSP, Wrap(Value(s, RSP) - size))
  {
    if size == 0 {
      WrapSame(Value(s, RSP));
      assert s.native.gprs[4 := s.native.gprs[4]] == s.native.gprs;
    } else {
      MoveRspStep(0 - size, s);
      RunOne(MoveRsp(0 - size), s);
    }
  }

  // The state from which ENTER's last two assignments are made, by the manual and by the code.
  lemma EnterMiddle(n: nat, level: nat, s: State)
    ensures IsCode(EnterStart(n) + EnterFrames(n, level))
    ensures var s1 := Pushed(s, Value(s, RBP));
            var frame := Value(s1, RSP);
            var s2 := if level == 0 then s1 else Pushed(FramesCopied(s1, level - 1), frame);
            var s' := Run(EnterStart(n) + EnterFrames(n, level), s);
            && s'.native == With(s1.native, Value(s2, RSP), Value(s1, RBP), s2.native.memory)
            && s2.native == With(s1.native, Value(s2, RSP), Value(s2, RBP), s2.native.memory)
            && Value(s', Virtual(n)) == frame
  {
    hide Run;
    hide Wrap;
    hide Write;
    hide Read64;
    hide Pushed;
    hide FramesCopied;
    hide With;
    hide CopyRounds;
    hide EnterStart;
    var s1 := Pushed(s, Value(s, RBP));
    var t1 := SetReg(s1, Virtual(n), Value(s1, RSP));
    EnterStartDoes(n, s);
    if level == 0 {
      assert EnterStart(n) + EnterFrames(n, level) == EnterStart(n);
      SetsWith(s1, 0);
    } else {
      EnterFramesDo(n, level, t1);
      RunConcat(EnterStart(n), EnterFrames(n, level), s);
      FramesCopiedNative(s1, t1, level - 1);
      PushedNative(FramesCopied(s1, level - 1), FramesCopied(t1, level - 1), Value(s1, RSP));
    }
  }

  lemma PushedNative(s: State, s': State, v: Word)
    requires s'.native == s.native
    ensures Pushed(s', v).native == Pushed(s, v).native
  {
  }

  lemma {:induction false} FramesCopiedNative(s: State, s': State, k: nat)
    requires s'.native == s.native
    ensures FramesCopied(s', k).native == FramesCopied(s, k).native
  {
    hide Wrap;
    hide With;
    hide FramesCopied;
    hide FrameMemory;
    FramesCopiedAre(s, k);
    FramesCopiedAre(s', k);
  }

  // Two states alike but for RBP are alike after ENTER's last two assignments, in either order.
  lemma EnterEnds(x: NativeState, s: State, bp: Word, s': State, bp': Word, sp: Word, m: Memory, frame: Word, sp': Word)
    requires s.native == With(x, sp, bp, m) && s'.native == With(x, sp, bp', m)
    ensures SetReg(SetReg(s', RSP, sp'), RBP, frame).native == SetReg(SetReg(s, RBP, frame), RSP, sp').native
  {
    var g := x.gprs;
    assert g[4 := sp][5 := bp'][4 := sp'][5 := frame] == g[4 := sp][5 := bp][5 := frame][4 := sp'];
  }

  lemma MovRbpStep(n: nat, s: State)
    ensures Step(Instr(Mov89, [Writes(RBP), Reads(Virtual(n))]), s) == SetReg(s, RBP, Value(s, Virtual(n)))
  {
    assert ResolveAll(s, [Writes(RBP), Reads(Virtual(n))]) == [Dest(RBP), Given(Value(s, Virtual(n)))];
  }

  lemma EnterRuns(n: nat, size: nat, level: nat, s: State)
    ensures IsCode(EnterCode(n, size, level) + [Instr(Mov89, [Writes(RBP), Reads(Virtual(n))])])
    ensures Run(EnterCode(n, size, level) + [Instr(Mov89, [Writes(RBP), Reads(Virtual(n))])], s).native
            == Entered(s, size, level).native
  {
    hide Run;
    hide Step;
    hide Wrap;
    hide Write;
    hide Pushed;
    hide FramesCopied;
    hide With;
    hide EnterStart;
    hide EnterFrames;
    hide EnterSize;
    var s1 := Pushed(s, Value(s, RBP));
    var frame := Value(s1, RSP);
    var s2 := if level == 0 then s1 else Pushed(FramesCopied(s1, level - 1), frame);
    EnterMiddle(n, level, s);
    var s' := Run(EnterStart(n) + EnterFrames(n, level), s);
    WithParts(s1.native, Value(s2, RSP), Value(s1, RBP), s2.native.memory);
    EnterSizeDoes(size, s');
    RunConcat(EnterStart(n) + EnterFrames(n, level), EnterSize(size), s);
    var s3 := SetReg(s', RSP, Wrap(Value(s', RSP) - size));
    MovRbpStep(n, s3);
    RunLast(EnterCode(n, size, level), Instr(Mov89, [Writes(RBP), Reads(Virtual(n))]), s);
    EnterEnds(s1.native, s2, Value(s2, RBP), s', Value(s1, RBP), Value(s2, RSP),
              s2.native.memory, frame, Wrap(Value(s2, RSP) - size));
  }

  // For every frame size, nesting level and machine state, the emitted code is ENTER.
  lemma EnterMeans(n: nat, i: Instr)
    requires WellFormed(i) && i.form.Enter?
    ensures var code :=
              EnterCode(n, i.ops[0].value % 0x1_0000, i.ops[1].value % 32)
              + [Instr(Mov89, [Writes(RBP), Reads(Virtual(n))])];
            IsCode(code) && SameMeaning(i, code)
  {
    hide Run;
    hide Entered;
    hide EnterCode;
    var size, level := i.ops[0].value % 0x1_0000, i.ops[1].value % 32;
    var code := EnterCode(n, size, level) + [Instr(Mov89, [Writes(RBP), Reads(Virtual(n))])];
    EnterRuns(n, size, level, Sample(0));
    forall s ensures Run(code, s).native == Step(i, s).native {
      EnterRuns(n, size, level, s);
    }
  }

  // PUSH FS or GS: the selector into the low half, zero-extended, pushed.
  function PushSegCode(f: Form, n: nat): seq<Instr>
    requires f.PushSeg?
  {
    [Instr(MovFromSeg(f.selector), [Register(Virtual(n), 2, true)])]
    + [Instr(Movzx16, [Writes(Virtual(n)), Register(Virtual(n), 2, false)])]
  }

  // The code leaves the selector in the register, and the native state alone.
  lemma PushSegCodeDoes(f: Form, n: nat, s: State)
    requires f.PushSeg?
    ensures IsCode(PushSegCode(f, n))
    ensures var s' := Run(PushSegCode(f, n), s);
            s'.native == s.native && Value(s', Virtual(n)) == f.selector(s.native) % SELECTORS
  {
    hide Step;
    hide Run;
    var sel, code := f.selector(s.native) % SELECTORS, PushSegCode(f, n);
    SetLowStep(f.selector, n, s);
    LowHalf(Value(s, Virtual(n)), sel);
    RunOne(code[0], s);
    Movzx16Step(n, SetLow16(s, Virtual(n), sel));
    RunLast([code[0]], code[1], s);
  }

  lemma PushSegMeans(i: Instr, n: nat)
    requires WellFormed(i) && i.form.PushSeg?
    ensures IsCode(PushSegCode(i.form, n))
    ensures SameMeaning(i, PushSegCode(i.form, n) + [Instr(Push, [Reads(Virtual(n))])])
  {
    hide Run;
    hide PushSegCode;
    hide Write;
    hide Wrap;
    var code, push := PushSegCode(i.form, n), Instr(Push, [Reads(Virtual(n))]);
    PushSegCodeDoes(i.form, n, Sample(0));
    forall s ensures Run(code + [push], s).native == Step(i, s).native {
      PushSegCodeDoes(i.form, n, s);
      RunLast(code, push, s);
      PushStep(Virtual(n), Run(code, s));
      PushedNative(s, Run(code, s), i.form.selector(s.native) % SELECTORS);
    }
  }

  lemma SetLowStep(selector: NativeState -> nat, n: nat, s: State)
    ensures Step(Instr(MovFromSeg(selector), [Register(Virtual(n), 2, true)]), s)
            == SetLow16(s, Virtual(n), selector(s.native) % SELECTORS)
  {
  }

  lemma Movzx16Step(n: nat, s: State)
    ensures Step(Instr(Movzx16, [Writes(Virtual(n)), Register(Virtual(n), 2, false)]), s)
            == SetReg(s, Virtual(n), Value(s, Virtual(n)) % SELECTORS)
  {
    assert Power(2) == SELECTORS;
    assert ResolveAll(s, [Writes(Virtual(n)), Register(Virtual(n), 2, false)])
        == [Dest(Virtual(n)), Given(Value(s, Virtual(n)) % SELECTORS)];
  }

  // The low half of a word after a 16-bit write.
  lemma LowHalf(w: Word, v: nat)
    requires v < SELECTORS
    ensures (w - w % SELECTORS + v) % SELECTORS == v
  {
    assert w - w % SELECTORS == SELECTORS * (w / SELECTORS);
  }

  // POP FS or GS: popped into a register, whose low half is then loaded.
  lemma PopSegMeans(i: Instr, n: nat)
    requires WellFormed(i) && i.form.PopSeg?
    ensures SameMeaning(i,
              [Instr(Pop, [Writes(Virtual(n))])] + [Instr(MovToSeg(i.form.load), [Register(Virtual(n), 2, false)])])
  {
    var pop, mov := Instr(Pop, [Writes(Virtual(n))]), Instr(MovToSeg(i.form.load), [Register(Virtual(n), 2, false)]);
    forall s ensures Run([pop] + [mov], s).native == Step(i, s).native {
      RunOne(pop, s);
      RunLast([pop], mov, s);
      MovToSegStep(i.form.load, n, Run([pop], s));
    }
  }

  lemma MovToSegStep(load: (nat, NativeState) -> NativeState, n: nat, s: State)
    ensures Step(Instr(MovToSeg(load), [Register(Virtual(n), 2, false)]), s)
            == s.(native := load(Value(s, Virtual(n)) % SELECTORS, s.native))
  {
    assert Power(2) == SELECTORS;
    assert ResolveAll(s, [Register(Virtual(n), 2, false)]) == [Given(Value(s, Virtual(n)) % SELECTORS)];
  }

  // PUSHF keeps its meaning with a register operand that only reserves the register.
  lemma PushFlagsMeans(i: Instr, op: Operand)
    requires WellFormed(i) && i.form.PushFlags?
    ensures SameMeaning(i, [] + [i.(ops := [op])])
  {
    forall s ensures Run([] + [i.(ops := [op])], s).native == Step(i, s).native {
      RunLast([], i.(ops := [op]), s);
    }
  }

  // Annotations in front do nothing.
  lemma AnnotatedMeans(i: Instr, n: Note, code: seq<Instr>)
    requires WellFormed(i) && IsCode(code)
    ensures SameMeaning(i, [Instr(Annotation(n), [])] + code) <==> SameMeaning(i, code)
  {
    var note := Instr(Annotation(n), []);
    forall s ensures Run([note] + code, s) == Run(code, s) {
      RunConcat([note], code, s);
      RunOne(note, s);
    }
  }

  lemma UnchangedMeans(i: Instr)
    requires WellFormed(i)
    ensures SameMeaning(i, [] + [i])
  {
    forall s ensures Run([] + [i], s).native == Step(i, s).native {
      RunLast([], i, s);
    }
  }

  lemma CodePrefix(code: seq<Instr>, i: Instr)
    requires IsCode(code + [i])
    ensures IsCode(code)
  {
    forall k | 0 <= k < |code| ensures WellFormed(code[k]) {
      assert code[k] == (code + [i])[k];
    }
  }
}
