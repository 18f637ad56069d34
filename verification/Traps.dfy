/** SWI, by which a program makes a system call (src/arm11/armemu.c, src/arm11/thumbemu.c, src/svc.c). */
module Traps {
  import opened Words
  import opened Architecture
  import opened Memory
  import opened Machine
  import opened Processors

  /** SWI in ARM state, and the number that is passed on. */
  predicate IsSwi(w: bv32) { (w >> 24) & 15 == 15 }

  function SwiNumber(w: bv32): bv32 { w & 0xFF_FFFF }

  /** SWI in Thumb state (format 17). */
  predicate IsThumbSwi(t: bv32) { (t >> 11) & 31 == 27 && t & 0x0F00 == 0x0F00 }

  /** The ARM instruction that stands for it: two numbers are taken for breakpoints. */
  function DecodeSwi(t: bv32): bv32 {
    var number := t & 0x00FF;
    0xEF00_0000 | (if number == 0x18 then number << 16 else if number == 0xFE then 0 else number)
  }

  /** In Thumb state the number that section A7.1 gives the instruction, its lowest eight bits, is passed on exactly if
      it is neither 0x18 nor 0xFE. */
  lemma PassesNumber(t: bv32)
    ensures IsSwi(DecodeSwi(t)) && DecodeSwi(t) >> 28 == 14
    ensures SwiNumber(DecodeSwi(t)) == t & 0xFF <==> t & 0xFF != 0x18 && t & 0xFF != 0xFE
  {
  }

  /** Signalling an event is such a call: SWI 0x18 (0xDF18) asks for the call 0x180000, which there is not. */
  lemma SignalIsLost()
    ensures IsThumbSwi(0xDF18) && SwiNumber(DecodeSwi(0xDF18)) == 0x18_0000
  {
  }

  /** The numbers of the system calls that act on threads. */
  predicate AsksFor(number: bv32, call: Service) {
    match call
    case CreateThread(_) => number == 8
    case ExitThread => number == 9
    case GetPriority => number == 0xB
    case SetPriority => number == 0xC
    case Arbitrate(_) => number == 0x22
    case CloseThread => number == 0x23
    case WaitFor(_, _, _) => number == 0x24 || number == 0x25 || number == 0x32
  }

  /** Is the instruction at the PC one that makes this call? */
  predicate Trapped(a: Core, f: Flat, call: Service) {
    var b := Fetch(CodeIn(f), a);
    && a.pc + 4 < TWO32
    && (if a.thumb then IsThumbSwi(b) else IsSwi(b) && b >> 28 != 15 && Passes((b >> 28) as bv4, a.f))
    && AsksFor(SwiNumber(if a.thumb then DecodeSwi(b) else b), call)
  }
}
