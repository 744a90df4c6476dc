/** Instruction-word fields, the tags that name the handlers the decoder selects, and
    the values the two dispatch paths produce. */
module PpcOps {

  /** A 32-bit PowerPC instruction word (also used for pc, msr and registers). */
  type Word = bv32

  /** The primary opcode: the top six bits of the word (`PPC_OPC_MAIN`).
      Together with the remaining 26 bits it rebuilds the word. */
  function Main(w: Word): (m: nat)
    ensures m < 64
    ensures ((m as bv32) << 26) | (w & 0x03ff_ffff) == w
  {
    (w >> 26) as nat
  }

  /** The extended opcode: the ten bits above the record bit (`PPC_OPC_EXT`),
      kept as a 32-bit value as the decoder does. */
  function Ext(w: Word): (e: bv32)
    ensures e < 1024
    ensures (e << 1) | (w & 0xffff_f801) == w
  {
    (w >> 1) & 0x3ff
  }

  /** One tag per leaf handler pair `ppc_opc_X` / `ppc_opc_gen_X`; `Invalid` is the pair
      `ppc_opc_invalid` / `ppc_opc_gen_invalid`. A trailing underscore in the handler
      name (`addic_`, `stwcx_`) is spelled `Dot`. */
  datatype Op =
    | Invalid
    // leaves of the 64-entry main tables
    | Twi | Mulli | Subfic | Cmpli | Cmpi | Addic | AddicDot | Addi | Addis | Bcx | Sc
    | Bx | Rlwimix | Rlwinmx | Rlwnmx | Ori | Oris | Xori | Xoris | AndiDot | AndisDot
    | Lwz | Lwzu | Lbz | Lbzu | Stw | Stwu | Stb | Stbu | Lhz | Lhzu | Lha | Lhau | Sth
    | Sthu | Lmw | Stmw | Lfs | Lfsu | Lfd | Lfdu | Stfs | Stfsu | Stfd | Stfdu
    // primary opcode 19
    | Crnor | Crandc | Crxor | Crnand | Crand | Creqv | Crorc | Cror | Bcctrx | Bclrx
    | Mcrf | Rfi | Isync
    // primary opcode 31
    | Cmp | Tw | Subfcx | Addcx | Mulhwux | Mfcr | Lwarx | Lwzx | Slwx | Cntlzwx | Andx
    | Cmpl | Subfx | Dcbst | Lwzux | Andcx | Mulhwx | Mfmsr | Dcbf | Lbzx | Negx | Lbzux
    | Norx | Subfex | Addex | Mtcrf | Mtmsr | StwcxDot | Stwx | Stwux | Subfzex | Addzex
    | Mtsr | Stbx | Subfmex | Addmex | Mullwx | Mtsrin | Dcbtst | Stbux | Addx | Dcbt
    | Lhzx | Eqvx | Tlbie | Eciwx | Lhzux | Xorx | Mfspr | Lhax | Tlbia | Mftb | Lhaux
    | Sthx | Orcx | Ecowx | Sthux | Orx | Divwux | Mtspr | Dcbi | Nandx | Divwx | Mcrxr
    | Lswx | Lwbrx | Lfsx | Srwx | Tlbsync | Lfsux | Mfsr | Lswi | Sync | Lfdx | Lfdux
    | Mfsrin | Stswx | Stwbrx | Stfsx | Stfsux | Stswi | Stfdx | Dcba | Stfdux | Lhbrx
    | Srawx | Srawix | Eieio | Sthbrx | Extshx | Extsbx | Icbi | Stfiwx | Dcbz
    // primary opcode 59
    | Fdivsx | Fsubsx | Faddsx | Fsqrtsx | Fresx | Fmulsx | Fmsubsx | Fmaddsx | Fnmsubsx
    | Fnmaddsx
    // primary opcode 63
    | Fdivx | Fsubx | Faddx | Fsqrtx | Fselx | Fmulx | Frsqrtex | Fmsubx | Fmaddx
    | Fnmsubx | Fnmaddx | Fcmpu | Frspx | Fctiwx | Fctiwzx | Fcmpo | Mtfsb1x | Fnegx
    | Mcrfs | Mtfsb0x | Fmrx | Mtfsfix | Fnabsx | Fabsx | Mffsx | Mtfsfx

  /** `JITCFlow`: how code generation for one instruction leaves the translation block. */
  datatype Flow = FlowContinue | FlowEndBlock | FlowEndBlockUnreachable

  /** The constants of the surrounding system that the decoder compares against. */
  datatype HostConfig = HostConfig(
    promOsiEntry: Word,  // gPromOSIEntry
    promMagic: Word,     // PROM_MAGIC_OPCODE
    escapeVm: Word,      // PPC_OPC_ESCAPE_VM
    msrFp: Word)         // MSR_FP

  /** What the interpret path (`ppc_exec_opc`) does with one word. */
  datatype ExecAction =
    | Execute(op: Op)                    // runs the interpreter handler of `op`
    | PromOsiCall                        // call_prom_osi(); the host call decides the new state
    | BlockFillCall                      // the block-fill helper, then pc := npc
    | BlockCopyCall                      // the block-copy helper, then pc := npc
    | FpuUnavailable                     // MSR_FP clear: returns without dispatching
    | InvalidThenOutOfBounds(index: nat) // ppc_opc_invalid, then reads group-31 slot `index` past the table

  /** What the code-generation path (`ppc_gen_opc`) does with one word. */
  datatype GenAction =
    | Emit(op: Op, fpuChecked: bool)     // calls the gen handler of `op`, after ppc_opc_gen_check_fpu when `fpuChecked`
    | EmitEscapeVm                       // the call to ppc_escape_vm
    | EmitPromOsi                        // the call to call_prom_osi

  datatype Option<T> = None | Some(value: T)

  /** The block flow a gen action is known to return; `None` when the leaf handler,
      which is outside this model, decides it. */
  function KnownFlow(a: GenAction): (f: Option<Flow>)
    ensures f.Some? <==> !(a.Emit? && !a.op.Invalid?)
    ensures f == Some(FlowEndBlockUnreachable) <==> a.Emit? && a.op.Invalid?
  {
    match a
    case Emit(op, _) => if op.Invalid? then Some(FlowEndBlockUnreachable) else None
    case EmitEscapeVm => Some(FlowEndBlock)
    case EmitPromOsi => Some(FlowEndBlock)
  }
}
