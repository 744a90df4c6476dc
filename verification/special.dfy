/** The interpreter's handler of the reserved primary opcode 0 over the CPU state it
    reads and writes: the PROM/OSI callback, the block fill, the block copy, or the
    invalid-instruction handler. */
module PpcSpecial {
  import opened PpcOps
  import opened PpcDispatch
  import opened PpcBulk
  import opened PpcCopy

  /** A register value read as a uint32. */
  function U(w: Word): (r: U32)
    ensures r as bv32 == w
  {
    w as int
  }

  /** The part of the CPU state the handler touches. */
  class Cpu {
    var pc: Word
    var npc: Word
    var currentOpc: Word
    var gpr: seq<Word>
    /** How many times the handler has handed control to the host's PROM/OSI callback. */
    ghost var promCalls: nat

    ghost predicate Valid()
      reads this
    {
      |gpr| == 32
    }

    constructor (pc0: Word, npc0: Word, opc: Word, regs: seq<Word>)
      requires |regs| == 32
      ensures Valid() && pc == pc0 && npc == npc0 && currentOpc == opc && gpr == regs && promCalls == 0
    {
      pc := pc0;
      npc := npc0;
      currentOpc := opc;
      gpr := regs;
      promCalls := 0;
    }
  }

  /** ppc_opc_special. The action taken is the one `ExecSpecial` selects. The block fill
      and the block copy take `r3`, `r4` and `r5` as their operands and then move `pc`
      to `npc`; the invalid handler leaves the CPU and the memory as they were. The
      PROM/OSI path hands control to the host callback, whose effect on the registers,
      `pc` and memory is outside this model: the contract only records that the call
      was made once. */
  method RunSpecial(cpu: Cpu, mem: Memory, cfg: HostConfig) returns (a: ExecAction)
    requires cpu.Valid() && mem.Valid()
    modifies cpu, mem
    ensures cpu.Valid() && mem.Valid()
    ensures a == ExecSpecial(old(cpu.currentOpc), old(cpu.pc), cfg)
    ensures cpu.promCalls == old(cpu.promCalls) + (if a == PromOsiCall then 1 else 0)
    ensures a != PromOsiCall ==>
      cpu.gpr == old(cpu.gpr) && cpu.npc == old(cpu.npc) && cpu.currentOpc == old(cpu.currentOpc)
    ensures a == BlockFillCall || a == BlockCopyCall ==> cpu.pc == old(cpu.npc)
    ensures a == Execute(Invalid) ==> cpu.pc == old(cpu.pc)
    ensures a == BlockFillCall ==>
      var dest, size := U(old(cpu.gpr[3])), U(old(cpu.gpr[5]));
      && mem.resolved == FillResolves(old(mem.resolved), FillChunks(dest, size))
      && mem.bytes == ApplyFill(old(mem.bytes), FillChunks(dest, size), (old(cpu.gpr[4]) & 0xff) as bv8)
    ensures a == BlockCopyCall ==>
      var dest, src, size := U(old(cpu.gpr[3])), U(old(cpu.gpr[4])), U(old(cpu.gpr[5]));
      && mem.resolved == CopyResolves(old(mem.resolved) + [dest, src], dest, src, size)
      && mem.bytes == CopyForward(old(mem.bytes), dest, src, size)
    ensures a == Execute(Invalid) ==>
      mem.bytes == old(mem.bytes) && mem.resolved == old(mem.resolved)
  {
    a := ExecSpecial(cpu.currentOpc, cpu.pc, cfg);
    if a == BlockFillCall {
      BlockFill(mem, U(cpu.gpr[3]), cpu.gpr[4], U(cpu.gpr[5]));
      cpu.pc := cpu.npc;
    } else if a == BlockCopyCall {
      BlockCopy(mem, U(cpu.gpr[3]), U(cpu.gpr[4]), U(cpu.gpr[5]));
      cpu.pc := cpu.npc;
    } else if a == PromOsiCall {
      cpu.promCalls := cpu.promCalls + 1;
    }
  }
}
