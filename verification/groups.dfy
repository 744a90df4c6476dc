/** The decoders of primary opcodes 19, 59 and 63: switches on the extended opcode,
    written once for the interpret path and once for the code-generation path, as the
    source has them. */
module PpcGroups {
  import opened PpcOps

  /** Group-19 extended opcodes with bit 0 set that name a condition-register op. */
  const CrLogicalCodes: set<bv32> := {33, 129, 193, 225, 257, 289, 417, 449}
  /** Group-19 extended opcodes with bits 0 and 9 clear that decode. */
  const BranchSyncCodes: set<bv32> := {0, 16, 50, 150}
  /** Low five extended-opcode bits that group 59 decodes. */
  const F1Codes: set<bv32> := {18, 20, 21, 22, 24, 25, 28, 29, 30, 31}
  /** Low five extended-opcode bits that group 63 decodes when bit 4 is set. */
  const F2ArithCodes: set<bv32> := {18, 20, 21, 22, 23, 25, 26, 28, 29, 30, 31}
  /** Whole extended opcodes that group 63 decodes when bit 4 is clear. */
  const F2ExactCodes: set<bv32> := {0, 12, 14, 15, 32, 38, 40, 64, 70, 72, 134, 136, 264, 583, 711}

  /** The classification of group 19 that both of its decoders follow. */
  ghost predicate Group19Classified(ext: bv32, op: Op)
  {
    && (ext & 1 != 0 ==> (!op.Invalid? <==> ext in CrLogicalCodes))
    && (ext & 1 == 0 && ext & 0x200 != 0 ==> (!op.Invalid? <==> ext == 528))
    && (ext & 1 == 0 && ext & 0x200 == 0 ==> (!op.Invalid? <==> ext in BranchSyncCodes))
  }

  /** ppc_opc_group_1: the interpreter handler chosen for primary opcode 19. */
  function Group1(ext: bv32): (op: Op)
    ensures Group19Classified(ext, op)
  {
    if ext & 1 != 0 then
      if ext <= 225 then
        if ext == 33 then Crnor
        else if ext == 129 then Crandc
        else if ext == 193 then Crxor
        else if ext == 225 then Crnand
        else Invalid
      else
        if ext == 257 then Crand
        else if ext == 289 then Creqv
        else if ext == 417 then Crorc
        else if ext == 449 then Cror
        else Invalid
    else if ext & (1 << 9) != 0 then
      if ext == 528 then Bcctrx else Invalid
    else
      if ext == 16 then Bclrx
      else if ext == 0 then Mcrf
      else if ext == 50 then Rfi
      else if ext == 150 then Isync
      else Invalid
  }

  /** ppc_opc_gen_group_1: the code-generation handler chosen for primary opcode 19. */
  function GenGroup1(ext: bv32): (op: Op)
    ensures Group19Classified(ext, op)
  {
    if ext & 1 != 0 then
      if ext <= 225 then
        if ext == 33 then Crnor
        else if ext == 129 then Crandc
        else if ext == 193 then Crxor
        else if ext == 225 then Crnand
        else Invalid
      else
        if ext == 257 then Crand
        else if ext == 289 then Creqv
        else if ext == 417 then Crorc
        else if ext == 449 then Cror
        else Invalid
    else if ext & (1 << 9) != 0 then
      if ext == 528 then Bcctrx else Invalid
    else
      if ext == 16 then Bclrx
      else if ext == 0 then Mcrf
      else if ext == 50 then Rfi
      else if ext == 150 then Isync
      else Invalid
  }

  /** The switch of group 59 on the low five extended-opcode bits (interpret path). */
  function F1Switch(low: bv32): (op: Op)
    ensures !op.Invalid? <==> low in F1Codes
  {
    if low == 18 then Fdivsx
    else if low == 20 then Fsubsx
    else if low == 21 then Faddsx
    else if low == 22 then Fsqrtsx
    else if low == 24 then Fresx
    else if low == 25 then Fmulsx
    else if low == 28 then Fmsubsx
    else if low == 29 then Fmaddsx
    else if low == 30 then Fnmsubsx
    else if low == 31 then Fnmaddsx
    else Invalid
  }

  /** The switch of group 59 on the low five extended-opcode bits (code-generation path). */
  function GenF1Switch(low: bv32): (op: Op)
    ensures !op.Invalid? <==> low in F1Codes
  {
    if low == 18 then Fdivsx
    else if low == 20 then Fsubsx
    else if low == 21 then Faddsx
    else if low == 22 then Fsqrtsx
    else if low == 24 then Fresx
    else if low == 25 then Fmulsx
    else if low == 28 then Fmsubsx
    else if low == 29 then Fmaddsx
    else if low == 30 then Fnmsubsx
    else if low == 31 then Fnmaddsx
    else Invalid
  }

  /** ppc_opc_group_f1: with MSR_FP clear nothing is dispatched; otherwise the switch
      on `ext & 0x1f` picks the handler. */
  function GroupF1(msr: Word, opc: Word, cfg: HostConfig): (a: ExecAction)
    ensures a == FpuUnavailable <==> msr & cfg.msrFp == 0
    ensures a != FpuUnavailable ==> a.Execute? && (!a.op.Invalid? <==> Ext(opc) & 0x1f in F1Codes)
  {
    if msr & cfg.msrFp == 0 then FpuUnavailable
    else Execute(F1Switch(Ext(opc) & 0x1f))
  }

  /** ppc_opc_gen_group_f1: always emits the FPU check, then the selected handler. */
  function GenGroupF1(opc: Word): (a: GenAction)
    ensures a.Emit? && a.fpuChecked
    ensures !a.op.Invalid? <==> Ext(opc) & 0x1f in F1Codes
  {
    Emit(GenF1Switch(Ext(opc) & 0x1f), true)
  }

  /** The classification of group 63 that both of its decoders follow. */
  ghost predicate Group63Classified(ext: bv32, op: Op)
  {
    && (ext & 16 != 0 ==> (!op.Invalid? <==> ext & 0x1f in F2ArithCodes))
    && (ext & 16 == 0 ==> (!op.Invalid? <==> ext in F2ExactCodes))
  }

  /** The two switches of group 63 (interpret path). */
  function F2Switch(ext: bv32): (op: Op)
    ensures Group63Classified(ext, op)
  {
    if ext & 16 != 0 then
      var low := ext & 0x1f;
      if low == 18 then Fdivx
      else if low == 20 then Fsubx
      else if low == 21 then Faddx
      else if low == 22 then Fsqrtx
      else if low == 23 then Fselx
      else if low == 25 then Fmulx
      else if low == 26 then Frsqrtex
      else if low == 28 then Fmsubx
      else if low == 29 then Fmaddx
      else if low == 30 then Fnmsubx
      else if low == 31 then Fnmaddx
      else Invalid
    else
      if ext == 0 then Fcmpu
      else if ext == 12 then Frspx
      else if ext == 14 then Fctiwx
      else if ext == 15 then Fctiwzx
      else if ext == 32 then Fcmpo
      else if ext == 38 then Mtfsb1x
      else if ext == 40 then Fnegx
      else if ext == 64 then Mcrfs
      else if ext == 70 then Mtfsb0x
      else if ext == 72 then Fmrx
      else if ext == 134 then Mtfsfix
      else if ext == 136 then Fnabsx
      else if ext == 264 then Fabsx
      else if ext == 583 then Mffsx
      else if ext == 711 then Mtfsfx
      else Invalid
  }

  /** The two switches of group 63 (code-generation path). */
  function GenF2Switch(ext: bv32): (op: Op)
    ensures Group63Classified(ext, op)
  {
    if ext & 16 != 0 then
      var low := ext & 0x1f;
      if low == 18 then Fdivx
      else if low == 20 then Fsubx
      else if low == 21 then Faddx
      else if low == 22 then Fsqrtx
      else if low == 23 then Fselx
      else if low == 25 then Fmulx
      else if low == 26 then Frsqrtex
      else if low == 28 then Fmsubx
      else if low == 29 then Fmaddx
      else if low == 30 then Fnmsubx
      else if low == 31 then Fnmaddx
      else Invalid
    else
      if ext == 0 then Fcmpu
      else if ext == 12 then Frspx
      else if ext == 14 then Fctiwx
      else if ext == 15 then Fctiwzx
      else if ext == 32 then Fcmpo
      else if ext == 38 then Mtfsb1x
      else if ext == 40 then Fnegx
      else if ext == 64 then Mcrfs
      else if ext == 70 then Mtfsb0x
      else if ext == 72 then Fmrx
      else if ext == 134 then Mtfsfix
      else if ext == 136 then Fnabsx
      else if ext == 264 then Fabsx
      else if ext == 583 then Mffsx
      else if ext == 711 then Mtfsfx
      else Invalid
  }

  /** ppc_opc_group_f2: gated on MSR_FP like group 59. */
  function GroupF2(msr: Word, opc: Word, cfg: HostConfig): (a: ExecAction)
    ensures a == FpuUnavailable <==> msr & cfg.msrFp == 0
    ensures a != FpuUnavailable ==> a.Execute? && Group63Classified(Ext(opc), a.op)
  {
    if msr & cfg.msrFp == 0 then FpuUnavailable
    else Execute(F2Switch(Ext(opc)))
  }

  /** ppc_opc_gen_group_f2: always emits the FPU check, then the selected handler. */
  function GenGroupF2(opc: Word): (a: GenAction)
    ensures a.Emit? && a.fpuChecked && Group63Classified(Ext(opc), a.op)
  {
    Emit(GenF2Switch(Ext(opc)), true)
  }

  /** Both group-19 decoders name the same instruction for every extended opcode. */
  lemma Group19Agree(ext: bv32)
    ensures Group1(ext) == GenGroup1(ext)
  {
  }

  /** With the FPU enabled, the interpreter runs exactly the instruction the code
      generator emits, in both floating-point groups. */
  lemma FpuGroupsAgree(msr: Word, opc: Word, cfg: HostConfig)
    requires msr & cfg.msrFp != 0
    ensures GroupF1(msr, opc, cfg) == Execute(GenGroupF1(opc).op)
    ensures GroupF2(msr, opc, cfg) == Execute(GenGroupF2(opc).op)
  {
  }

  /** Every exact-match code of group 63 has bit 4 clear, so each of its cases can be
      reached and decodes to a real instruction. */
  lemma F2ExactCodesReachable(ext: bv32)
    requires ext in F2ExactCodes
    ensures ext & 16 == 0
    ensures !F2Switch(ext).Invalid? && !GenF2Switch(ext).Invalid?
  {
  }
}
