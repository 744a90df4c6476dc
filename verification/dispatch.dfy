/** The entry points `ppc_exec_opc` and `ppc_gen_opc`: the two 64-entry main tables,
    the reserved primary opcode 0, and the agreement of the two paths. */
module PpcDispatch {
  import opened PpcOps
  import opened PpcGroups
  import opened PpcGroup2

  /** A main-table entry: a leaf handler pair, or one of the decoders that look further
      into the word. */
  datatype Entry =
    | Leaf(op: Op)
    | SpecialEntry   // ppc_opc_special / ppc_opc_gen_special
    | Group1Entry    // primary opcode 19
    | Group2Entry    // primary opcode 31
    | GroupF1Entry   // primary opcode 59
    | GroupF2Entry   // primary opcode 63

  /** ppc_opc_table_main, indexed by primary opcode, written in rows of 16 entries. */
  const MainTable: seq<Entry> := MainRow0 + MainRow1 + MainRow2 + MainRow3
  const MainRow0: seq<Entry> := [
    SpecialEntry, Leaf(Invalid), Leaf(Invalid), Leaf(Twi),  // 0-3
    Leaf(Invalid), Leaf(Invalid), Leaf(Invalid), Leaf(Mulli),  // 4-7
    Leaf(Subfic), Leaf(Invalid), Leaf(Cmpli), Leaf(Cmpi),  // 8-11
    Leaf(Addic), Leaf(AddicDot), Leaf(Addi), Leaf(Addis)  // 12-15
  ]
  const MainRow1: seq<Entry> := [
    Leaf(Bcx), Leaf(Sc), Leaf(Bx), Group1Entry,  // 16-19
    Leaf(Rlwimix), Leaf(Rlwinmx), Leaf(Invalid), Leaf(Rlwnmx),  // 20-23
    Leaf(Ori), Leaf(Oris), Leaf(Xori), Leaf(Xoris),  // 24-27
    Leaf(AndiDot), Leaf(AndisDot), Leaf(Invalid), Group2Entry  // 28-31
  ]
  const MainRow2: seq<Entry> := [
    Leaf(Lwz), Leaf(Lwzu), Leaf(Lbz), Leaf(Lbzu),  // 32-35
    Leaf(Stw), Leaf(Stwu), Leaf(Stb), Leaf(Stbu),  // 36-39
    Leaf(Lhz), Leaf(Lhzu), Leaf(Lha), Leaf(Lhau),  // 40-43
    Leaf(Sth), Leaf(Sthu), Leaf(Lmw), Leaf(Stmw)  // 44-47
  ]
  const MainRow3: seq<Entry> := [
    Leaf(Lfs), Leaf(Lfsu), Leaf(Lfd), Leaf(Lfdu),  // 48-51
    Leaf(Stfs), Leaf(Stfsu), Leaf(Stfd), Leaf(Stfdu),  // 52-55
    Leaf(Invalid), Leaf(Invalid), Leaf(Invalid), GroupF1Entry,  // 56-59
    Leaf(Invalid), Leaf(Invalid), Leaf(Invalid), GroupF2Entry  // 60-63
  ]

  /** ppc_opc_table_gen_main, indexed by primary opcode, in rows of 16 entries. */
  const GenMainTable: seq<Entry> := GenMainRow0 + GenMainRow1 + GenMainRow2 + GenMainRow3
  const GenMainRow0: seq<Entry> := [
    SpecialEntry, Leaf(Invalid), Leaf(Invalid), Leaf(Twi),  // 0-3
    Leaf(Invalid), Leaf(Invalid), Leaf(Invalid), Leaf(Mulli),  // 4-7
    Leaf(Subfic), Leaf(Invalid), Leaf(Cmpli), Leaf(Cmpi),  // 8-11
    Leaf(Addic), Leaf(AddicDot), Leaf(Addi), Leaf(Addis)  // 12-15
  ]
  const GenMainRow1: seq<Entry> := [
    Leaf(Bcx), Leaf(Sc), Leaf(Bx), Group1Entry,  // 16-19
    Leaf(Rlwimix), Leaf(Rlwinmx), Leaf(Invalid), Leaf(Rlwnmx),  // 20-23
    Leaf(Ori), Leaf(Oris), Leaf(Xori), Leaf(Xoris),  // 24-27
    Leaf(AndiDot), Leaf(AndisDot), Leaf(Invalid), Group2Entry  // 28-31
  ]
  const GenMainRow2: seq<Entry> := [
    Leaf(Lwz), Leaf(Lwzu), Leaf(Lbz), Leaf(Lbzu),  // 32-35
    Leaf(Stw), Leaf(Stwu), Leaf(Stb), Leaf(Stbu),  // 36-39
    Leaf(Lhz), Leaf(Lhzu), Leaf(Lha), Leaf(Lhau),  // 40-43
    Leaf(Sth), Leaf(Sthu), Leaf(Lmw), Leaf(Stmw)  // 44-47
  ]
  const GenMainRow3: seq<Entry> := [
    Leaf(Lfs), Leaf(Lfsu), Leaf(Lfd), Leaf(Lfdu),  // 48-51
    Leaf(Stfs), Leaf(Stfsu), Leaf(Stfd), Leaf(Stfdu),  // 52-55
    Leaf(Invalid), Leaf(Invalid), Leaf(Invalid), GroupF1Entry,  // 56-59
    Leaf(Invalid), Leaf(Invalid), Leaf(Invalid), GroupF2Entry  // 60-63
  ]

  /** The primary opcodes that both main tables map to the invalid handler. */
  const InvalidPrimaries: set<nat> := {1, 2, 4, 5, 6, 9, 22, 30, 56, 57, 58, 60, 61, 62}

  /** The block-fill helper word (`memset(r3, r4, r5)`). */
  const BlockFillWord: Word := 0x0033_3301
  /** The block-copy helper word. */
  const BlockCopyWord: Word := 0x0033_3302

  /** ppc_opc_special, the interpreter handler of primary opcode 0: the PROM/OSI
      callback when both the pc and the word match, else the two bulk-memory helpers,
      else the invalid handler. */
  function ExecSpecial(opc: Word, pc: Word, cfg: HostConfig): (a: ExecAction)
    ensures a == PromOsiCall <==> pc == cfg.promOsiEntry && opc == cfg.promMagic
    ensures a == BlockFillCall <==> opc == BlockFillWord && a != PromOsiCall
    ensures a == BlockCopyCall <==> opc == BlockCopyWord && a != PromOsiCall
    ensures a == Execute(Invalid) <==> !(a == PromOsiCall || opc == BlockFillWord || opc == BlockCopyWord)
  {
    if pc == cfg.promOsiEntry && opc == cfg.promMagic then PromOsiCall
    else if opc == BlockFillWord then BlockFillCall
    else if opc == BlockCopyWord then BlockCopyCall
    else Execute(Invalid)
  }

  /** ppc_opc_gen_special, the code-generation handler of primary opcode 0: the VM
      escape first, then the PROM/OSI callback (matching only the page offset of the
      entry address against `jitc.pc`), else the invalid handler, so the bulk-memory
      words are invalid on this path. */
  function GenSpecial(opc: Word, jitPc: Word, cfg: HostConfig): (a: GenAction)
    ensures a == EmitEscapeVm <==> opc == cfg.escapeVm
    ensures a == EmitPromOsi <==>
      opc != cfg.escapeVm && jitPc == cfg.promOsiEntry & 0xfff && opc == cfg.promMagic
    ensures a.Emit? ==> a == Emit(Invalid, false)
  {
    if opc == cfg.escapeVm then EmitEscapeVm
    else if jitPc == cfg.promOsiEntry & 0xfff && opc == cfg.promMagic then EmitPromOsi
    else Emit(Invalid, false)
  }

  /** The two main tables are equal, row by row. */
  lemma MainTablesEqual()
    ensures MainTable == GenMainTable && |MainTable| == 64
  {
    assert MainRow0 == GenMainRow0 && MainRow1 == GenMainRow1;
    assert MainRow2 == GenMainRow2 && MainRow3 == GenMainRow3;
  }

  /** Every primary opcode selects one entry of each main table, the same in both;
      exactly the opcodes of `InvalidPrimaries` select the invalid handler, and each
      decoder entry sits at its own primary opcode. */
  lemma MainTableShape(m: nat)
    requires m < 64
    ensures |MainTable| == |GenMainTable| == 64
    ensures MainTable[m] == GenMainTable[m]
    ensures MainTable[m].Leaf? && MainTable[m].op.Invalid? <==> m in InvalidPrimaries
    ensures MainTable[m].SpecialEntry? <==> m == 0
    ensures MainTable[m].Group1Entry? <==> m == 19
    ensures MainTable[m].Group2Entry? <==> m == 31
    ensures MainTable[m].GroupF1Entry? <==> m == 59
    ensures MainTable[m].GroupF2Entry? <==> m == 63
  {
    MainTablesEqual();
    if m < 16 {
      assert MainTable[m] == MainRow0[m];
      MainRowShape0(m);
    } else if m < 32 {
      assert MainTable[m] == MainRow1[m - 16];
      MainRowShape1(m);
    } else if m < 48 {
      assert MainTable[m] == MainRow2[m - 32];
      MainRowShape2(m);
    } else {
      assert MainTable[m] == MainRow3[m - 48];
      MainRowShape3(m);
    }
  }

  /** The entries of each row of 16, checked one row at a time. */
  lemma MainRowShape0(m: nat)
    requires m < 16
    ensures var e := MainRow0[m];
      && (e.Leaf? && e.op.Invalid? <==> m in InvalidPrimaries)
      && (e.SpecialEntry? <==> m == 0) && !e.Group1Entry? && !e.Group2Entry?
      && !e.GroupF1Entry? && !e.GroupF2Entry?
  {
  }

  lemma MainRowShape1(m: nat)
    requires 16 <= m < 32
    ensures var e := MainRow1[m - 16];
      && (e.Leaf? && e.op.Invalid? <==> m in InvalidPrimaries)
      && !e.SpecialEntry? && (e.Group1Entry? <==> m == 19) && (e.Group2Entry? <==> m == 31)
      && !e.GroupF1Entry? && !e.GroupF2Entry?
  {
  }

  lemma MainRowShape2(m: nat)
    requires 32 <= m < 48
    ensures var e := MainRow2[m - 32];
      && e.Leaf? && !e.op.Invalid? && m !in InvalidPrimaries
  {
  }

  lemma MainRowShape3(m: nat)
    requires 48 <= m < 64
    ensures var e := MainRow3[m - 48];
      && (e.Leaf? && e.op.Invalid? <==> m in InvalidPrimaries)
      && !e.SpecialEntry? && !e.Group1Entry? && !e.Group2Entry?
      && (e.GroupF1Entry? <==> m == 59) && (e.GroupF2Entry? <==> m == 63)
  {
  }

  /** ppc_exec_opc: the interpreter's dispatch of one word through `ppc_opc_table_main`,
      given the current group-31 table. */
  function ExecOpc(group2: seq<Op>, opc: Word, pc: Word, msr: Word, cfg: HostConfig): (a: ExecAction)
    requires |group2| == TableSize
    ensures a.InvalidThenOutOfBounds? <==> Main(opc) == 31 && Ext(opc) as int >= TableSize
    ensures a == FpuUnavailable <==> (Main(opc) == 59 || Main(opc) == 63) && msr & cfg.msrFp == 0
    ensures a == PromOsiCall || a == BlockFillCall || a == BlockCopyCall ==> Main(opc) == 0
  {
    MainTableShape(Main(opc));
    match MainTable[Main(opc)]
    case Leaf(op) => Execute(op)
    case SpecialEntry => ExecSpecial(opc, pc, cfg)
    case Group1Entry => Execute(Group1(Ext(opc)))
    case Group2Entry => ExecGroup2(group2, Ext(opc))
    case GroupF1Entry => GroupF1(msr, opc, cfg)
    case GroupF2Entry => GroupF2(msr, opc, cfg)
  }

  /** ppc_exec_opc with the group-31 lookup returning after the invalid handler, as
      the code-generation path does. */
  function ExecOpcIntended(group2: seq<Op>, opc: Word, pc: Word, msr: Word, cfg: HostConfig): (a: ExecAction)
    requires |group2| == TableSize
    ensures !a.InvalidThenOutOfBounds?
    ensures a == FpuUnavailable <==> (Main(opc) == 59 || Main(opc) == 63) && msr & cfg.msrFp == 0
  {
    MainTableShape(Main(opc));
    match MainTable[Main(opc)]
    case Leaf(op) => Execute(op)
    case SpecialEntry => ExecSpecial(opc, pc, cfg)
    case Group1Entry => Execute(Group1(Ext(opc)))
    case Group2Entry => ExecGroup2Intended(group2, Ext(opc))
    case GroupF1Entry => GroupF1(msr, opc, cfg)
    case GroupF2Entry => GroupF2(msr, opc, cfg)
  }

  /** ppc_gen_opc: the code generator's dispatch of one word through
      `ppc_opc_table_gen_main`, given the current group-31 table. */
  function GenOpc(genGroup2: seq<Op>, opc: Word, jitPc: Word, cfg: HostConfig): (a: GenAction)
    requires |genGroup2| == TableSize
    ensures !a.Emit? ==> Main(opc) == 0
    ensures a.Emit? && a.fpuChecked <==> Main(opc) == 59 || Main(opc) == 63
  {
    MainTableShape(Main(opc));
    match GenMainTable[Main(opc)]
    case Leaf(op) => Emit(op, false)
    case SpecialEntry => GenSpecial(opc, jitPc, cfg)
    case Group1Entry => Emit(GenGroup1(Ext(opc)), false)
    case Group2Entry => GenGroup2(genGroup2, Ext(opc))
    case GroupF1Entry => GenGroupF1(opc)
    case GroupF2Entry => GenGroupF2(opc)
  }

  /** The central invariant over the initialised tables: outside primary opcode 0 and
      with the FPU enabled, the interpreter runs the very instruction the code
      generator emits, except that a group-31 extended opcode past the table makes the
      interpreter read out of bounds while the code generator emits the invalid
      handler. */
  lemma DispatchAgree(opc: Word, pc: Word, jitPc: Word, msr: Word, cfg: HostConfig)
    requires Main(opc) != 0 && msr & cfg.msrFp != 0
    ensures GenOpc(GenTable(), opc, jitPc, cfg).Emit?
    ensures Main(opc) == 31 && Ext(opc) as int >= TableSize ==>
      ExecOpc(ExecTable(), opc, pc, msr, cfg) == InvalidThenOutOfBounds(Ext(opc) as nat) &&
      GenOpc(GenTable(), opc, jitPc, cfg).op.Invalid?
    ensures !(Main(opc) == 31 && Ext(opc) as int >= TableSize) ==>
      ExecOpc(ExecTable(), opc, pc, msr, cfg) == Execute(GenOpc(GenTable(), opc, jitPc, cfg).op)
  {
    var m := Main(opc);
    MainTableShape(m);
    if m == 19 {
      Group19Agree(Ext(opc));
    } else if m == 31 {
      Group2Agree(Ext(opc));
    } else if m == 59 || m == 63 {
      FpuGroupsAgree(msr, opc, cfg);
    }
  }

  /** With the intended `return` in the group-31 lookup the two paths agree on every
      word outside primary opcode 0 while the FPU is enabled. */
  lemma DispatchIntendedAgree(opc: Word, pc: Word, jitPc: Word, msr: Word, cfg: HostConfig)
    requires Main(opc) != 0 && msr & cfg.msrFp != 0
    ensures GenOpc(GenTable(), opc, jitPc, cfg).Emit?
    ensures ExecOpcIntended(ExecTable(), opc, pc, msr, cfg) == Execute(GenOpc(GenTable(), opc, jitPc, cfg).op)
  {
    var m := Main(opc);
    MainTableShape(m);
    if m == 19 {
      Group19Agree(Ext(opc));
    } else if m == 31 {
      Group2IntendedAgree(Ext(opc));
    } else if m == 59 || m == 63 {
      FpuGroupsAgree(msr, opc, cfg);
    }
  }

  /** A primary opcode of `InvalidPrimaries` decodes to the invalid handler on both
      paths, whatever the other bits; on the code-generation path that ends the block
      with control never returning. */
  lemma InvalidPrimaryDecodesInvalid(opc: Word, pc: Word, jitPc: Word, msr: Word, cfg: HostConfig)
    requires Main(opc) in InvalidPrimaries
    ensures ExecOpc(ExecTable(), opc, pc, msr, cfg) == Execute(Invalid)
    ensures GenOpc(GenTable(), opc, jitPc, cfg) == Emit(Invalid, false)
    ensures KnownFlow(GenOpc(GenTable(), opc, jitPc, cfg)) == Some(FlowEndBlockUnreachable)
  {
    MainTableShape(Main(opc));
  }

  /** The word 0x7C632378 (`or r3,r3,r4`) goes through main entry 31 to group-31 slot
      444 and decodes to orx on both paths. */
  lemma OrWordDecodesToOrx(pc: Word, jitPc: Word, msr: Word, cfg: HostConfig)
    ensures Main(0x7C63_2378) == 31 && Ext(0x7C63_2378) == 444
    ensures ExecOpc(ExecTable(), 0x7C63_2378, pc, msr, cfg) == Execute(Orx)
    ensures GenOpc(GenTable(), 0x7C63_2378, jitPc, cfg) == Emit(Orx, false)
  {
    MainTableShape(31);
    Slot444IsOrx();
  }

  /** The word 0x7C0007FE has primary opcode 31 and extended opcode 1023: the code
      generator emits the invalid handler, but the interpreter reads slot 1023 of a
      1015-slot table. */
  lemma Group2OverrunWord(pc: Word, jitPc: Word, msr: Word, cfg: HostConfig)
    ensures Main(0x7C00_07FE) == 31 && Ext(0x7C00_07FE) == 1023
    ensures ExecOpc(ExecTable(), 0x7C00_07FE, pc, msr, cfg) == InvalidThenOutOfBounds(1023)
    ensures GenOpc(GenTable(), 0x7C00_07FE, jitPc, cfg) == Emit(Invalid, false)
    ensures ExecOpcIntended(ExecTable(), 0x7C00_07FE, pc, msr, cfg) == Execute(Invalid)
  {
    MainTableShape(31);
  }

  /** The bulk-memory words are helpers of the interpreter only: the code generator
      treats them as invalid unless they happen to equal the escape or PROM word. */
  lemma BulkWordsInvalidInCodegen(opc: Word, pc: Word, jitPc: Word, msr: Word, cfg: HostConfig)
    requires opc == BlockFillWord || opc == BlockCopyWord
    requires opc != cfg.escapeVm && opc != cfg.promMagic
    ensures ExecOpc(ExecTable(), opc, pc, msr, cfg) == (if opc == BlockFillWord then BlockFillCall else BlockCopyCall)
    ensures GenOpc(GenTable(), opc, jitPc, cfg) == Emit(Invalid, false)
  {
    MainTableShape(0);
  }
}
