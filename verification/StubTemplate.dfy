/**
The code of a compare-and-jump stub: what InstantiateIndirectEdge (arch/x86-64/edge.cc) makes of
an indirect edge's template, and what executing it does. IndirectEdge.dfy puts these fragments in
the code cache and lets threads execute them, one instruction at a time.
*/
module StubTemplate {
  type AppPc = nat
  type CachePc = nat

  // The instructions of a stub, as far as dispatch is concerned. Plain ones touch neither RSI,
  // nor the flags, nor the control flow.
  datatype Instr = MovRsi(imm: AppPc) | CmpRsiTarget | Jnz(dest: CachePc) | RestoreRsi | Plain

  // RSI, its saved value, and the zero flag.
  datatype Regs = Regs(rsi: AppPc, saved: AppPc, zf: bool)

  datatype After = Continue(regs: Regs) | Leave(dest: CachePc, regs: Regs)

  // One instruction, with the transfer's target in its own register.
  function ExecuteOne(i: Instr, r: Regs, target: AppPc): After {
    match i
    case MovRsi(imm) => Continue(r.(rsi := imm))
    case CmpRsiTarget => Continue(r.(zf := r.rsi == target))
    case Jnz(dest) => if r.zf then Continue(r) else Leave(dest, r)
    case RestoreRsi => Continue(r.(rsi := r.saved))
    case Plain => Continue(r)
  }

  datatype Exit = FallThrough(regs: Regs) | Jump(dest: CachePc, regs: Regs)

  function Execute(frag: seq<Instr>, r: Regs, target: AppPc): Exit {
    if frag == [] then FallThrough(r)
    else match ExecuteOne(frag[0], r, target)
      case Continue(r') => Execute(frag[1..], r', target)
      case Leave(dest, r') => Jump(dest, r')
  }

  // From here on, the code behaves as a stub for `key` over the head `miss`: it falls through
  // exactly when the target is the key, and then with the saved RSI restored, and otherwise jumps
  // to that head, still with the saved RSI to restore.
  predicate ActsAsStub(frag: seq<Instr>, r: Regs, target: AppPc, key: AppPc, miss: CachePc) {
    match Execute(frag, r, target)
    case FallThrough(r') => target == key && r'.rsi == r.saved
    case Jump(dest, r') => target != key && dest == miss && r'.saved == r.saved
  }

  // The code compiled for an edge between `out_edge_template` and the undecodable end: one
  // compare, one branch on its result, and then the restored register, among plain instructions.
  predicate IsTemplate(ts: seq<Instr>) {
    ts != [] && match ts[0]
      case Plain => IsTemplate(ts[1..])
      case CmpRsiTarget => IsBranchPart(ts[1..])
      case _ => false
  }

  predicate IsBranchPart(ts: seq<Instr>) {
    ts != [] && match ts[0]
      case Plain => IsBranchPart(ts[1..])
      case Jnz(_) => IsRestorePart(ts[1..])
      case _ => false
  }

  predicate IsRestorePart(ts: seq<Instr>) {
    ts != [] && match ts[0]
      case Plain => IsRestorePart(ts[1..])
      case RestoreRsi => IsRest(ts[1..])
      case _ => false
  }

  predicate IsRest(ts: seq<Instr>) {
    ts == [] || ((ts[0].Plain? || ts[0].RestoreRsi?) && IsRest(ts[1..]))
  }

  // The instructions of a fragment other than the moves into RSI.
  function Kept(frag: seq<Instr>): seq<Instr> {
    if frag == [] then []
    else Kept(frag[..|frag| - 1]) + if frag[|frag| - 1].MovRsi? then [] else [frag[|frag| - 1]]
  }

  // A fragment is the template, instruction by instruction, but for a move of the new target into
  // RSI in front of each compare, and each branch on a failed one, which goes to the head.
  ghost predicate IsInstance(ts: seq<Instr>, frag: seq<Instr>, appPc: AppPc, head: CachePc) {
    && |Kept(frag)| == |ts|
    && (forall k | 0 <= k < |ts| :: if ts[k].Jnz? then Kept(frag)[k] == Jnz(head) else Kept(frag)[k] == ts[k])
    && (forall k | 0 <= k < |frag| && frag[k].MovRsi? :: frag[k].imm == appPc && IsCmp(frag, k + 1))
    && (forall k | 0 <= k < |frag| && frag[k].CmpRsiTarget? :: k > 0 && frag[k - 1].MovRsi?)
  }

  predicate IsCmp(frag: seq<Instr>, k: nat) {
    k < |frag| && frag[k].CmpRsiTarget?
  }

  function PatchOne(i: Instr, appPc: AppPc, head: CachePc): seq<Instr> {
    match i
    case CmpRsiTarget => [MovRsi(appPc), i]
    case Jnz(_) => [Jnz(head)]
    case _ => [i]
  }

  function Patch(ts: seq<Instr>, appPc: AppPc, head: CachePc): seq<Instr> {
    if ts == [] then [] else PatchOne(ts[0], appPc, head) + Patch(ts[1..], appPc, head)
  }

  lemma {:induction false} PatchSnoc(ts: seq<Instr>, i: Instr, appPc: AppPc, head: CachePc)
    ensures Patch(ts + [i], appPc, head) == Patch(ts, appPc, head) + PatchOne(i, appPc, head)
  {
    if ts != [] {
      assert (ts + [i])[1..] == ts[1..] + [i];
      PatchSnoc(ts[1..], i, appPc, head);
    }
  }

  // One instruction more.
  lemma InstanceGrows(ts: seq<Instr>, i: Instr, frag: seq<Instr>, frag': seq<Instr>, appPc: AppPc, head: CachePc)
    requires IsInstance(ts, frag, appPc, head) && !i.MovRsi?
    requires frag' == frag + match i
                             case CmpRsiTarget => [MovRsi(appPc), i]
                             case Jnz(_) => [Jnz(head)]
                             case _ => [i]
    ensures IsInstance(ts + [i], frag', appPc, head)
  {
    var last := frag'[|frag'| - 1];
    if i.CmpRsiTarget? {
      assert frag'[..|frag'| - 1] == frag + [MovRsi(appPc)];
      assert (frag + [MovRsi(appPc)])[..|frag|] == frag;
      assert Kept(frag + [MovRsi(appPc)]) == Kept(frag);
    } else {
      assert frag'[..|frag'| - 1] == frag;
    }
    assert Kept(frag') == Kept(frag) + [last];
    forall k | 0 <= k < |frag'| && frag'[k].MovRsi? ensures frag'[k].imm == appPc && IsCmp(frag', k + 1) {
      assert k < |frag| ==> IsCmp(frag, k + 1);
    }
  }

  // InstantiateIndirectEdge: copy the template, loading the new target before the compare and
  // sending the failing branch to the current head.
  method InstantiateTemplate(template: seq<Instr>, appPc: AppPc, head: CachePc) returns (frag: seq<Instr>)
    ensures frag == Patch(template, appPc, head)
    ensures (forall k | 0 <= k < |template| :: !template[k].MovRsi?) ==> IsInstance(template, frag, appPc, head)
  {
    frag := [];
    for k := 0 to |template|
      invariant frag == Patch(template[..k], appPc, head)
      invariant (forall j | 0 <= j < k :: !template[j].MovRsi?) ==> IsInstance(template[..k], frag, appPc, head)
    {
      PatchSnoc(template[..k], template[k], appPc, head);
      assert template[..k + 1] == template[..k] + [template[k]];
      ghost var before := frag;
      match template[k] {
        case CmpRsiTarget => frag := frag + [MovRsi(appPc), template[k]];
        case Jnz(_) => frag := frag + [Jnz(head)];
        case _ => frag := frag + [template[k]];
      }
      if forall j | 0 <= j <= k :: !template[j].MovRsi? {
        InstanceGrows(template[..k], template[k], before, frag, appPc, head);
      }
    }
    assert template[..|template|] == template;
  }

  lemma {:induction false} PlainTail(ts: seq<Instr>, r: Regs, target: AppPc, appPc: AppPc, head: CachePc)
    requires IsRest(ts) && r.rsi == r.saved
    ensures var exit := Execute(Patch(ts, appPc, head), r, target);
            exit.FallThrough? && exit.regs.rsi == r.saved
  {
    if ts != [] {
      assert Patch(ts, appPc, head)[1..] == Patch(ts[1..], appPc, head);
      PlainTail(ts[1..], ExecuteOne(ts[0], r, target).regs, target, appPc, head);
    }
  }

  lemma {:induction false} RestorePart(ts: seq<Instr>, r: Regs, target: AppPc, appPc: AppPc, head: CachePc)
    requires IsRestorePart(ts)
    ensures var exit := Execute(Patch(ts, appPc, head), r, target);
            exit.FallThrough? && exit.regs.rsi == r.saved
  {
    assert Patch(ts, appPc, head)[1..] == Patch(ts[1..], appPc, head);
    if ts[0].Plain? {
      RestorePart(ts[1..], r, target, appPc, head);
    } else {
      PlainTail(ts[1..], r.(rsi := r.saved), target, appPc, head);
    }
  }

  lemma {:induction false} BranchPart(ts: seq<Instr>, r: Regs, target: AppPc, appPc: AppPc, head: CachePc)
    requires IsBranchPart(ts)
    ensures match Execute(Patch(ts, appPc, head), r, target)
            case FallThrough(r') => r.zf && r'.rsi == r.saved
            case Jump(dest, r') => !r.zf && dest == head && r'.saved == r.saved
  {
    assert Patch(ts, appPc, head)[1..] == Patch(ts[1..], appPc, head);
    if ts[0].Plain? {
      BranchPart(ts[1..], r, target, appPc, head);
    } else {
      RestorePart(ts[1..], r, target, appPc, head);
    }
  }

  /** From any registers and flags, executing an instantiated template is what a stub does. */
  lemma {:induction false} InstantiatedTemplateIsStub(
      ts: seq<Instr>, r: Regs, target: AppPc, appPc: AppPc, head: CachePc)
    requires IsTemplate(ts)
    ensures ActsAsStub(Patch(ts, appPc, head), r, target, appPc, head)
  {
    var frag := Patch(ts, appPc, head);
    if ts[0].Plain? {
      assert frag[1..] == Patch(ts[1..], appPc, head);
      InstantiatedTemplateIsStub(ts[1..], r, target, appPc, head);
    } else {
      assert frag[1..][1..] == Patch(ts[1..], appPc, head);
      var loaded, compared := r.(rsi := appPc), r.(rsi := appPc, zf := appPc == target);
      assert frag[0] == MovRsi(appPc) && frag[1..][0] == CmpRsiTarget;
      assert Execute(frag[1..], loaded, target) == Execute(frag[1..][1..], compared, target);
      BranchPart(ts[1..], compared, target, appPc, head);
    }
  }

  // Within a stub, one instruction more keeps what it is heading for.
  lemma ActsAsStubStep(frag: seq<Instr>, r: Regs, target: AppPc, key: AppPc, miss: CachePc)
    requires frag != [] && ActsAsStub(frag, r, target, key, miss)
    ensures match ExecuteOne(frag[0], r, target)
            case Continue(r') => r'.saved == r.saved && ActsAsStub(frag[1..], r', target, key, miss)
            case Leave(dest, r') => target != key && dest == miss && r'.saved == r.saved
  {
  }
}
