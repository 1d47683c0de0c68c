/**
The encoding of a pointer operand (arch/x86-64/encode.cc, arch/util.h): the displacement, its
width and whether it is relative to the next instruction, and the address that the processor
makes of them. Arithmetic on addresses is modulo 2^64; signed differences wrap.
*/
module PointerEncoding {
  import opened Options
  import opened Words

  const TWO_27: int := 0x800_0000
  const TWO_63: int := 0x8000_0000_0000_0000

  function Signed(a: Word): int { if a < TWO_63 then a else a - TWO_64 }

  // The low and the high half of a word.
  function Low(a: Word): int { a % TWO_32 }

  function High(a: Word): int { a / TWO_32 }

  // Sign extension of a 32-bit displacement.
  function Extended(d: int): Word
    requires 0 <= d < TWO_32
  {
    if d < TWO_31 then d else d - TWO_32 + TWO_64
  }

  const MAX_VALUE: int := TWO_31 - TWO_27
  const MIN_VALUE: int := -TWO_31

  predicate AddrIsOffsetReachable(source: Word, dest: Word) {
    MIN_VALUE <= Signed(Sub64(source, dest)) <= MAX_VALUE
  }

  // A pointer operand: an offset in a segment, the address of an annotation, or an address.
  datatype Operand = InSegment(segment: nat, offset: Word) | Annotation(addr: Word) | HardCoded(addr: Word)

  datatype Encoding = Encoding(displacement: Word, width: nat, ripRelative: bool, segment: Option<nat>)

  // The address, within its segment, that the processor computes.
  function Address(e: Encoding, nextPC: Word): Word {
    var offset := if e.width == 32 then Extended(Low(e.displacement)) else e.displacement;
    if e.ripRelative then Add64(nextPC, offset) else offset
  }

  function Target(op: Operand): Word {
    if op.InSegment? then op.offset else op.addr
  }

  // The address is the sign extension of its low half.
  predicate Extendable(a: Word) {
    a < TWO_31 || a >= TWO_64 - TWO_31
  }

  // The difference to the next instruction is a signed 32-bit number.
  predicate Near(nextPC: Word, addr: Word) {
    Extendable(Sub64(addr, nextPC))
  }

  lemma ExtendedLow(a: Word)
    ensures Extended(Low(a)) == a <==> Extendable(a)
  {
    assert a == High(a) * TWO_32 + Low(a);
  }

  // The two tests on the halves of an address.
  lemma HalvesTell(a: Word)
    ensures Extendable(a) <==> (High(a) == 0xFFFF_FFFF && Low(a) >= TWO_31) || (High(a) == 0 && Low(a) < TWO_31)
  {
    assert a == High(a) * TWO_32 + Low(a);
  }

  lemma AddSub(a: Word, b: Word, c: Word)
    ensures Add64(a, c) == b <==> c == Sub64(b, a)
  {
  }

  // The distances to addresses at or after the next instruction, and before it.
  function Ahead(nextPC: Word, addr: Word): Word { Sub64(addr, nextPC) }

  function Behind(nextPC: Word, addr: Word): Word { Sub64(nextPC, addr) }

  // Exactly the reachable addresses: at most 2^31 ahead, or at most 2^31 - 2^27 behind.
  lemma ReachableExactly(nextPC: Word, addr: Word)
    ensures AddrIsOffsetReachable(nextPC, addr)
            <==> Ahead(nextPC, addr) <= 0x8000_0000 || Behind(nextPC, addr) <= 0x7800_0000
  {
  }

  // A reachable address is near, unless it is exactly 2^31 past the next instruction.
  lemma ReachableIsNearIff(nextPC: Word, addr: Word)
    requires AddrIsOffsetReachable(nextPC, addr)
    ensures Near(nextPC, addr) <==> Sub64(addr, nextPC) != TWO_31
  {
  }

  // Bit 31 of an address.
  function Bit31(a: Word): int { if Low(a) >= TWO_31 then 1 else 0 }

  // The encoding gives back the address, except that an annotation must be near, and a
  // hard-coded address must not be exactly 2^31 past the next instruction, unless it is itself
  // the sign extension of 32 bits. A full-width displacement is the last resort.
  method EncodePtr(op: Operand, nextPC: Word) returns (e: Encoding)
    requires op.InSegment? ==> Extendable(op.offset)
    ensures Address(e, nextPC) == Target(op) <==>
            match op
            case InSegment(_, _) => true
            case Annotation(addr) => Near(nextPC, addr)
            case HardCoded(addr) => Extendable(addr) || Sub64(addr, nextPC) != TWO_31
    ensures e.width == 32 || e.width == 64
    ensures e.width == 64 <==>
            && op.HardCoded? && 0x8000_0000 <= op.addr < 0xFFFF_FFFF_8000_0000
            && Ahead(nextPC, op.addr) > 0x8000_0000 && Behind(nextPC, op.addr) > 0x7800_0000
    ensures e.ripRelative <==> op.Annotation? || (op.HardCoded? && e.width == 32 && !Extendable(op.addr))
    ensures e.width == 32 <==> (op.HardCoded? ==> Extendable(op.addr) || AddrIsOffsetReachable(nextPC, op.addr))
    ensures e.segment == if op.InSegment? then Some(op.segment) else None
  {
    e := Encoding(0, 0, false, None);
    ExtendedLow(Target(op));
    if op.InSegment? {
      e := e.(displacement := op.offset);
      if Signed(op.offset) >= 0 {
        e := e.(displacement := op.offset % TWO_31);
      }
      e := e.(width := 32, segment := Some(op.segment));
    } else if op.Annotation? {
      ExtendedLow(Sub64(op.addr, nextPC));
      AddSub(nextPC, op.addr, Extended(Low(Sub64(op.addr, nextPC))));
      e := e.(displacement := Low(Sub64(op.addr, nextPC)), width := 32, ripRelative := true);
    } else {
      var addr := op.addr;
      e := e.(displacement := addr, width := 64);
      HalvesTell(addr);
      if High(addr) == 0xFFFF_FFFF {
        if Bit31(addr) == 1 { e := e.(width := 32); }
      } else if High(addr) == 0 {
        if Bit31(addr) == 0 { e := e.(width := 32); }
      }
      if e.width == 64 && AddrIsOffsetReachable(nextPC, addr) {
        var diff := Sub64(addr, nextPC);
        ExtendedLow(diff);
        AddSub(nextPC, addr, Extended(Low(diff)));
        ReachableIsNearIff(nextPC, addr);
        e := e.(displacement := Low(diff), width := 32, ripRelative := true);
      }
    }
  }

  // The failing case exists: an address 2^31 past the next instruction is called reachable.
  lemma FarByOne(nextPC: Word, addr: Word)
    requires Sub64(addr, nextPC) == TWO_31
    ensures AddrIsOffsetReachable(nextPC, addr) && !Near(nextPC, addr)
  {
  }
}
