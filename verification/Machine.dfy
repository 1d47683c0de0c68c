/**
A 64-bit machine, as far as early mangling needs one: sixteen general-purpose registers, any
number of virtual registers, two segment bases, byte-addressed memory, and everything else
(flags, vector registers) as one value that only whole instructions change. Addresses wrap
modulo 2^64.
*/
module Machine {
  import opened Options
  import opened Words

  type Byte = x: int | 0 <= x < 256
  type Memory = Word -> Byte

  function Wrap(x: int): Word { if 0 <= x < TWO_64 then x else x % TWO_64 }

  lemma WrapSame(a: Word)
    ensures Wrap(a) == a
  {
  }

  lemma WrapAdd(a: int, b: int)
    ensures Wrap(Wrap(a) + b) == Wrap(a + b)
  {
    var q := (Wrap(a) + b) / TWO_64;
    assert Wrap(a) == a - TWO_64 * (a / TWO_64);
    WrapUnique(a + b, q + a / TWO_64, Wrap(Wrap(a) + b));
  }

  lemma WrapUnique(x: int, q: int, r: Word)
    requires x == q * TWO_64 + r
    ensures Wrap(x) == r
  {
  }

  // Little-endian reads and writes of `n` bytes.
  function Read(m: Memory, a: Word, n: nat): nat
    decreases n
  {
    if n == 0 then 0 else m(a) + 256 * Read(m, Wrap(a + 1), n - 1)
  }

  function Put(m: Memory, a: Word, b: Byte): Memory {
    x => if x == a then b else m(x)
  }

  function Write(m: Memory, a: Word, n: nat, v: nat): Memory
    decreases n
  {
    if n == 0 then m else Write(Put(m, a, v % 256), Wrap(a + 1), n - 1, v / 256)
  }

  function Power(n: nat): (p: nat)
    ensures p > 0
  {
    if n == 0 then 1 else 256 * Power(n - 1)
  }

  lemma {:induction false} ReadBound(m: Memory, a: Word, n: nat)
    ensures Read(m, a, n) < Power(n)
    decreases n
  {
    if n > 0 {
      ReadBound(m, Wrap(a + 1), n - 1);
    }
  }

  function Read64(m: Memory, a: Word): (v: Word) {
    ReadBound(m, a, 8);
    PowerOf8();
    Read(m, a, 8)
  }

  lemma PowerOf8()
    ensures Power(8) == TWO_64
  {
    assert Power(4) == 0x1_0000_0000;
    assert Power(8) == 256 * 256 * 256 * 256 * Power(4);
  }

  datatype Reg = Native(n: nat) | Virtual(n: nat)

  const RAX: Reg := Native(0)
  const RBX: Reg := Native(3)
  const RSP: Reg := Native(4)
  const RBP: Reg := Native(5)

  datatype Segment = Flat | FS | GS

  type Gprs = g: seq<Word> | |g| == 16 witness seq(16, _ => 0)

  datatype NativeState = NativeState(gprs: Gprs, fsBase: Word, gsBase: Word, memory: Memory, other: int)

  datatype State = State(native: NativeState, vrs: map<nat, Word>)

  function Value(s: State, r: Reg): Word {
    match r
    case Native(n) => if n < 16 then s.native.gprs[n] else 0
    case Virtual(n) => if n in s.vrs then s.vrs[n] else 0
  }

  function SetReg(s: State, r: Reg, v: Word): State {
    match r
    case Native(n) => if n < 16 then s.(native := s.native.(gprs := s.native.gprs[n := v])) else s
    case Virtual(n) => s.(vrs := s.vrs[n := v])
  }

  function SetMemory(s: State, m: Memory): State {
    s.(native := s.native.(memory := m))
  }

  function Base(s: State, segment: Segment): Word {
    match segment
    case Flat => 0
    case FS => s.native.fsBase
    case GS => s.native.gsBase
  }

  // A memory operand without its segment: a register, a sum, or a constant.
  datatype Mem =
    Simple(reg: Reg) | Compound(base: Option<Reg>, index: Option<Reg>, scale: nat, disp: int) | Pointer(addr: Word)

  datatype Operand =
    | Memory(mem: Mem, segment: Segment, sticky: bool)
    | Register(reg: Reg, bytes: nat, writes: bool)
    | Immediate(value: Word)

  function OptValue(s: State, r: Option<Reg>): Word {
    if r.Some? then Value(s, r.value) else 0
  }

  function Offset(s: State, mem: Mem): Word {
    match mem
    case Simple(r) => Value(s, r)
    case Compound(base, index, scale, disp) => Wrap(OptValue(s, base) + OptValue(s, index) * scale + disp)
    case Pointer(addr) => addr
  }

  // What an instruction sees of an operand: an address, a value, or a register to change.
  datatype Resolved = Address(addr: Word) | Given(value: nat) | Dest(reg: Reg)

  function Resolve(s: State, op: Operand): Resolved {
    match op
    case Memory(mem, segment, _) => Address(Wrap(Base(s, segment) + Offset(s, mem)))
    case Register(r, bytes, writes) =>
      if writes then Dest(r) else Given(if bytes == 8 then Value(s, r) else Value(s, r) % Power(bytes))
    case Immediate(v) => Given(v)
  }

  function ResolveAll(s: State, ops: seq<Operand>): seq<Resolved> {
    seq(|ops|, i requires 0 <= i < |ops| => Resolve(s, ops[i]))
  }

  // The 64-bit value of an operand, and the storing of one.
  function Fetch(s: State, r: Resolved): Word {
    match r
    case Address(a) => Read64(s.native.memory, a)
    case Given(v) => Wrap(v)
    case Dest(reg) => Value(s, reg)
  }

  function Store(s: State, r: Resolved, v: Word): State {
    match r
    case Address(a) => SetMemory(s, Write(s.native.memory, a, 8, v))
    case Given(_) => s
    case Dest(reg) => SetReg(s, reg, v)
  }

  // Instructions. `Mov89` is the register-to-register form that mangling treats specially, all
  // moves being of 64 bits. `Transfer` is a CALL or JMP, given its target; `Other` is any other
  // instruction, given its operands. What a segment register or the flags hold, and what loading
  // a selector or changing the interrupt state does, are parameters.
  datatype Form =
    | Mov
    | Mov89
    | Lea
    | Push
    | Pop
    | MovzxAL
    | MovAL
    | Xlat(segment: Segment)
    | Enter
    | Leave
    | PushSeg(selector: NativeState -> nat)
    | PopSeg(load: (nat, NativeState) -> NativeState)
    | MovFromSeg(selector: NativeState -> nat)
    | Movzx16
    | MovToSeg(load: (nat, NativeState) -> NativeState)
    | PushFlags(flags: NativeState -> Word)
    | Interrupts(change: NativeState -> NativeState)
    | Annotation(note: Note)
    | Transfer(transfer: (Word, NativeState) -> NativeState)
    | Other(effect: (seq<Resolved>, NativeState) -> NativeState)

  // What annotations say: the stack pointer may be invalid from here on, or interrupts may
  // become enabled or disabled.
  datatype Note = InvalidStack | InterruptStateChange

  datatype Instr = Instr(form: Form, ops: seq<Operand>)

  predicate WellFormed(i: Instr) {
    match i.form
    case Mov => |i.ops| == 2
    case Mov89 =>
      && |i.ops| == 2 && i.ops[0].Register? && i.ops[0].writes
      && i.ops[1].Register? && !i.ops[1].writes && i.ops[1].bytes == 8
    case Lea => |i.ops| == 2 && i.ops[1].Memory? && i.ops[1].segment == Flat
    case Push => |i.ops| == 1
    case Pop => |i.ops| == 1 && (i.ops[0].Memory? || (i.ops[0].Register? && i.ops[0].writes))
    case MovzxAL => |i.ops| == 1
    case MovAL => |i.ops| == 1 && i.ops[0].Memory?
    case Xlat(_) => i.ops == []
    case Enter => |i.ops| == 2 && i.ops[0].Immediate? && i.ops[1].Immediate?
    case Leave => i.ops == []
    case PushSeg(_) => i.ops == []
    case PopSeg(_) => i.ops == []
    case MovFromSeg(_) => |i.ops| == 1 && i.ops[0].Register?
    case Movzx16 => |i.ops| == 2
    case MovToSeg(_) => |i.ops| == 1
    case PushFlags(_) => |i.ops| <= 1
    case Interrupts(_) => true
    case Annotation(_) => true
    case Transfer(_) => |i.ops| == 1
    case Other(_) => true
  }

  function Pushed(s: State, v: Word): State {
    var sp := Wrap(Value(s, RSP) - 8);
    SetMemory(SetReg(s, RSP, sp), Write(s.native.memory, sp, 8, v))
  }

  // A pop: the destination is resolved after the increment.
  function Popped(s: State, op: Operand): State {
    var v := Read64(s.native.memory, Value(s, RSP));
    var s' := SetReg(s, RSP, Wrap(Value(s, RSP) + 8));
    Store(s', Resolve(s', op), v)
  }

  function SetAL(s: State, b: Byte): State {
    SetReg(s, RAX, Value(s, RAX) - Value(s, RAX) % 256 + b)
  }

  const SELECTORS: nat := 0x1_0000

  // A 16-bit write to a register.
  function SetLow16(s: State, r: Reg, v: nat): State {
    SetReg(s, r, Value(s, r) - Value(s, r) % SELECTORS + v % SELECTORS)
  }

  // ENTER's copy of `n` frame pointers: each moves RBP down and pushes what it then points to.
  function FramesCopied(s: State, n: nat): State {
    if n == 0 then s
    else
      var t := FramesCopied(s, n - 1);
      var bp := Wrap(Value(t, RBP) - 8);
      Pushed(SetReg(t, RBP, bp), Read64(t.native.memory, bp))
  }

  // The Operation section of ENTER, for 64-bit operand and stack sizes.
  function Entered(s: State, size: nat, level: nat): State {
    var s1 := Pushed(s, Value(s, RBP));
    var frame := Value(s1, RSP);
    var s2 := if level == 0 then s1 else Pushed(FramesCopied(s1, level - 1), frame);
    SetReg(SetReg(s2, RBP, frame), RSP, Wrap(Value(s2, RSP) - size))
  }

  // An instruction whose operands are already resolved.
  function Exec(i: Instr, rs: seq<Resolved>, s: State): State
    requires WellFormed(i) && |rs| == |i.ops|
  {
    match i.form
    case Mov => Store(s, rs[0], Fetch(s, rs[1]))
    case Mov89 => Store(s, rs[0], Fetch(s, rs[1]))
    case Lea => if rs[1].Address? then Store(s, rs[0], rs[1].addr) else s
    case Push => Pushed(s, Fetch(s, rs[0]))
    case Pop => Popped(s, i.ops[0])
    case MovzxAL => Store(s, rs[0], Value(s, RAX) % 256)
    case MovAL => if rs[0].Address? then SetAL(s, s.native.memory(rs[0].addr)) else s
    case Xlat(segment) =>
      SetAL(s, s.native.memory(Wrap(Base(s, segment) + Wrap(Value(s, RAX) % 256 + Value(s, RBX)))))
    case Enter => Entered(s, i.ops[0].value % 0x1_0000, i.ops[1].value % 32)
    case Leave => Popped(SetReg(s, RSP, Value(s, RBP)), Register(RBP, 8, true))
    case PushSeg(selector) => Pushed(s, selector(s.native) % SELECTORS)
    case PopSeg(load) =>
      var s' := SetReg(s, RSP, Wrap(Value(s, RSP) + 8));
      s'.(native := load(Read64(s.native.memory, Value(s, RSP)) % SELECTORS, s'.native))
    case MovFromSeg(selector) => SetLow16(s, i.ops[0].reg, selector(s.native))
    case Movzx16 => Store(s, rs[0], Fetch(s, rs[1]) % SELECTORS)
    case MovToSeg(load) => s.(native := load(Fetch(s, rs[0]) % SELECTORS, s.native))
    case PushFlags(flags) => Pushed(s, flags(s.native))
    case Interrupts(change) => s.(native := change(s.native))
    case Annotation(_) => s
    case Transfer(transfer) => s.(native := transfer(Fetch(s, rs[0]), s.native))
    case Other(effect) => s.(native := effect(rs, s.native))
  }

  function Step(i: Instr, s: State): State
    requires WellFormed(i)
  {
    Exec(i, ResolveAll(s, i.ops), s)
  }

  predicate IsCode(code: seq<Instr>) {
    forall i | 0 <= i < |code| :: WellFormed(code[i])
  }

  function Run(code: seq<Instr>, s: State): State
    requires IsCode(code)
  {
    if code == [] then s
    else Step(code[|code| - 1], Run(code[..|code| - 1], s))
  }

  lemma {:induction false} RunConcat(a: seq<Instr>, b: seq<Instr>, s: State)
    requires IsCode(a) && IsCode(b)
    ensures Run(a + b, s) == Run(b, Run(a, s))
  {
    if b == [] {
      assert a + b == a;
    } else {
      RunConcat(a, b[..|b| - 1], s);
      assert (a + b)[..|a + b| - 1] == a + b[..|b| - 1];
    }
  }

  lemma RunOne(i: Instr, s: State)
    requires WellFormed(i)
    ensures Run([i], s) == Step(i, s)
  {
    assert [i][..0] == [];
  }

  // What a read of `n` bytes gives after a write at the same address, and what it leaves alone.
  lemma {:induction false} ReadWritten(m: Memory, a: Word, n: nat, v: nat)
    requires n < 256 && v < Power(n)
    ensures Read(Write(m, a, n, v), a, n) == v
    decreases n
  {
    if n > 0 {
      var m' := Put(m, a, v % 256);
      ReadWritten(m', Wrap(a + 1), n - 1, v / 256);
      WriteElsewhere(m', Wrap(a + 1), n - 1, v / 256, a);
    }
  }

  // `x` is one of the `n` addresses from `a` on.
  predicate Covers(a: Word, n: nat, x: Word) {
    Wrap(x - a) < n
  }

  lemma CoversRest(a: Word, n: nat, x: Word)
    requires 0 < n < 256
    ensures Covers(a, n, x) <==> x == a || Covers(Wrap(a + 1), n - 1, x)
    ensures !Covers(Wrap(a + 1), n - 1, a)
  {
  }

  lemma {:induction false} WriteElsewhere(m: Memory, a: Word, n: nat, v: nat, x: Word)
    requires n < 256 && !Covers(a, n, x)
    ensures Write(m, a, n, v)(x) == m(x)
    decreases n
  {
    if n > 0 {
      CoversRest(a, n, x);
      WriteElsewhere(Put(m, a, v % 256), Wrap(a + 1), n - 1, v / 256, x);
    }
  }
}
