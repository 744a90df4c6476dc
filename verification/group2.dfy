/** Primary opcode 31: the two 1015-slot handler tables, their initialiser, and the
    table lookups of both dispatch paths. */
module PpcGroup2 {
  import opened PpcOps

  /** The number of slots of `ppc_opc_table_group2` and `ppc_opc_table_gen_group2`. */
  const TableSize: nat := 1015

  /** The slot stores of the interpreter table, in source order: (slot, handler).
      The list is written in eight runs of at most 12 stores. */
  const ExecInstalls: seq<(nat, Op)> :=
    ExecInstallsA + ExecInstallsB + ExecInstallsC + ExecInstallsD + ExecInstallsE + ExecInstallsF + ExecInstallsG + ExecInstallsH
  const ExecInstallsA: seq<(nat, Op)> := [
    (0, Cmp), (4, Tw), (8, Subfcx), (10, Addcx), (11, Mulhwux), (19, Mfcr), (20, Lwarx),
    (23, Lwzx), (24, Slwx), (26, Cntlzwx), (28, Andx), (32, Cmpl)
  ]
  const ExecInstallsB: seq<(nat, Op)> := [
    (40, Subfx), (54, Dcbst), (55, Lwzux), (60, Andcx), (75, Mulhwx), (83, Mfmsr),
    (86, Dcbf), (87, Lbzx), (104, Negx), (119, Lbzux), (124, Norx), (136, Subfex)
  ]
  const ExecInstallsC: seq<(nat, Op)> := [
    (138, Addex), (144, Mtcrf), (146, Mtmsr), (150, StwcxDot), (151, Stwx), (183, Stwux),
    (200, Subfzex), (202, Addzex), (210, Mtsr), (215, Stbx), (232, Subfmex),
    (234, Addmex)
  ]
  const ExecInstallsD: seq<(nat, Op)> := [
    (235, Mullwx), (242, Mtsrin), (246, Dcbtst), (247, Stbux), (266, Addx), (278, Dcbt),
    (279, Lhzx), (284, Eqvx), (306, Tlbie), (310, Eciwx), (311, Lhzux), (316, Xorx)
  ]
  const ExecInstallsE: seq<(nat, Op)> := [
    (339, Mfspr), (343, Lhax), (370, Tlbia), (371, Mftb), (375, Lhaux), (407, Sthx),
    (412, Orcx), (438, Ecowx), (439, Sthux), (444, Orx), (459, Divwux), (467, Mtspr)
  ]
  const ExecInstallsF: seq<(nat, Op)> := [
    (470, Dcbi), (476, Nandx), (491, Divwx), (512, Mcrxr), (533, Lswx), (534, Lwbrx),
    (535, Lfsx), (536, Srwx), (566, Tlbsync), (567, Lfsux), (595, Mfsr), (597, Lswi)
  ]
  const ExecInstallsG: seq<(nat, Op)> := [
    (598, Sync), (599, Lfdx), (631, Lfdux), (659, Mfsrin), (661, Stswx), (662, Stwbrx),
    (663, Stfsx), (695, Stfsux), (725, Stswi), (727, Stfdx), (758, Dcba), (759, Stfdux)
  ]
  const ExecInstallsH: seq<(nat, Op)> := [
    (790, Lhbrx), (792, Srawx), (824, Srawix), (854, Eieio), (918, Sthbrx),
    (922, Extshx), (954, Extsbx), (982, Icbi), (983, Stfiwx), (1014, Dcbz)
  ]

  /** The slot stores of the code-generation table, in source order, in eight runs. */
  const GenInstalls: seq<(nat, Op)> :=
    GenInstallsA + GenInstallsB + GenInstallsC + GenInstallsD + GenInstallsE + GenInstallsF + GenInstallsG + GenInstallsH
  const GenInstallsA: seq<(nat, Op)> := [
    (0, Cmp), (4, Tw), (8, Subfcx), (10, Addcx), (11, Mulhwux), (19, Mfcr), (20, Lwarx),
    (23, Lwzx), (24, Slwx), (26, Cntlzwx), (28, Andx), (32, Cmpl)
  ]
  const GenInstallsB: seq<(nat, Op)> := [
    (40, Subfx), (54, Dcbst), (55, Lwzux), (60, Andcx), (75, Mulhwx), (83, Mfmsr),
    (86, Dcbf), (87, Lbzx), (104, Negx), (119, Lbzux), (124, Norx), (136, Subfex)
  ]
  const GenInstallsC: seq<(nat, Op)> := [
    (138, Addex), (144, Mtcrf), (146, Mtmsr), (150, StwcxDot), (151, Stwx), (183, Stwux),
    (200, Subfzex), (202, Addzex), (210, Mtsr), (215, Stbx), (232, Subfmex),
    (234, Addmex)
  ]
  const GenInstallsD: seq<(nat, Op)> := [
    (235, Mullwx), (242, Mtsrin), (246, Dcbtst), (247, Stbux), (266, Addx), (278, Dcbt),
    (279, Lhzx), (284, Eqvx), (306, Tlbie), (310, Eciwx), (311, Lhzux), (316, Xorx)
  ]
  const GenInstallsE: seq<(nat, Op)> := [
    (339, Mfspr), (343, Lhax), (370, Tlbia), (371, Mftb), (375, Lhaux), (407, Sthx),
    (412, Orcx), (438, Ecowx), (439, Sthux), (444, Orx), (459, Divwux), (467, Mtspr)
  ]
  const GenInstallsF: seq<(nat, Op)> := [
    (470, Dcbi), (476, Nandx), (491, Divwx), (512, Mcrxr), (533, Lswx), (534, Lwbrx),
    (535, Lfsx), (536, Srwx), (566, Tlbsync), (567, Lfsux), (595, Mfsr), (597, Lswi)
  ]
  const GenInstallsG: seq<(nat, Op)> := [
    (598, Sync), (599, Lfdx), (631, Lfdux), (659, Mfsrin), (661, Stswx), (662, Stwbrx),
    (663, Stfsx), (695, Stfsux), (725, Stswi), (727, Stfdx), (758, Dcba), (759, Stfdux)
  ]
  const GenInstallsH: seq<(nat, Op)> := [
    (790, Lhbrx), (792, Srawx), (824, Srawix), (854, Eieio), (918, Sthbrx),
    (922, Extshx), (954, Extsbx), (982, Icbi), (983, Stfiwx), (1014, Dcbz)
  ]

  /** The handler slot `i` holds once `installs` have been stored, in order, into a table
      whose every slot was first set to the invalid handler: the last store to `i`
      wins, and a slot nobody stores to stays invalid. */
  function SlotAfter(installs: seq<(nat, Op)>, i: nat): (op: Op)
    ensures op.Invalid? || exists k :: 0 <= k < |installs| && installs[k] == (i, op)
    ensures (forall k :: 0 <= k < |installs| ==> installs[k].0 != i) ==> op.Invalid?
    decreases |installs|
  {
    if installs == [] then Invalid
    else
      var last := installs[|installs| - 1];
      if last.0 == i then last.1
      else
        var r := SlotAfter(installs[..|installs| - 1], i);
        assert !r.Invalid? ==> exists k :: 0 <= k < |installs| - 1 && installs[k] == (i, r);
        r
  }

  /** The table that storing `installs` over an all-invalid table produces. */
  function TableAfter(installs: seq<(nat, Op)>): (t: seq<Op>)
    ensures |t| == TableSize
  {
    seq(TableSize, i requires 0 <= i < TableSize => SlotAfter(installs, i))
  }

  /** `ppc_opc_table_group2` after `ppc_opc_init_group2`. */
  function ExecTable(): (t: seq<Op>)
    ensures |t| == TableSize
  {
    TableAfter(ExecInstalls)
  }

  /** `ppc_opc_table_gen_group2` after `ppc_opc_init_group2`. */
  function GenTable(): (t: seq<Op>)
    ensures |t| == TableSize
  {
    TableAfter(GenInstalls)
  }

  /** No slot is stored twice: the slot numbers of a store list strictly increase. */
  ghost predicate StrictlyIncreasing(installs: seq<(nat, Op)>)
  {
    forall a, b :: 0 <= a < b < |installs| ==> installs[a].0 < installs[b].0
  }

  /** Each store's slot is below the next store's slot. */
  ghost predicate NeighboursIncrease(installs: seq<(nat, Op)>)
  {
    forall k :: 0 <= k < |installs| - 1 ==> installs[k].0 < installs[k + 1].0
  }

  /** Increasing neighbours make the whole list increasing. */
  lemma {:induction false} NeighboursIncreaseSound(installs: seq<(nat, Op)>)
    requires NeighboursIncrease(installs)
    ensures StrictlyIncreasing(installs)
    decreases |installs|
  {
    if |installs| > 1 {
      var tail := installs[1..];
      assert NeighboursIncrease(tail) by {
        forall k | 0 <= k < |tail| - 1 ensures tail[k].0 < tail[k + 1].0 {
          assert tail[k] == installs[k + 1] && tail[k + 1] == installs[k + 2];
        }
      }
      NeighboursIncreaseSound(tail);
      forall a, b | 0 <= a < b < |installs| ensures installs[a].0 < installs[b].0 {
        if a == 0 {
          assert installs[1] == tail[0];
          if b > 1 { assert installs[b] == tail[b - 1]; }
        } else {
          assert installs[a] == tail[a - 1] && installs[b] == tail[b - 1];
        }
      }
    }
  }

  /** Every store of a list hits a slot of the table and installs a real handler. */
  ghost predicate WellFormed(installs: seq<(nat, Op)>)
  {
    forall k :: 0 <= k < |installs| ==> installs[k].0 < TableSize && !installs[k].1.Invalid?
  }

  class Group2Tables {
    /** ppc_opc_table_group2 */
    var exec: array<Op>
    /** ppc_opc_table_gen_group2 */
    var gen: array<Op>

    ghost predicate Valid()
      reads this
    {
      exec.Length == TableSize && gen.Length == TableSize && exec != gen
    }

    constructor ()
      ensures Valid() && fresh(exec) && fresh(gen)
    {
      exec := new Op[TableSize];
      gen := new Op[TableSize];
    }

    /** ppc_opc_init_group2: every slot of both tables is set to the invalid handler,
        then the interpreter stores and the code-generation stores are made. The final
        tables do not depend on what the arrays held before, so a second call leaves
        them as the first one did. */
    method InitGroup2()
      requires Valid()
      modifies exec, gen
      ensures exec[..] == ExecTable()
      ensures gen[..] == GenTable()
    {
      for i := 0 to TableSize
        invariant forall k :: 0 <= k < i ==> exec[k].Invalid? && gen[k].Invalid?
      {
        exec[i] := Invalid;
        gen[i] := Invalid;
      }
      InstallListsWellFormed();
      StoreAll(exec, ExecInstalls);
      StoreAll(gen, GenInstalls);
    }
  }

  /** ppc_dec_init: builds the group-31 tables. The vector-unit tables it would install
      when the processor version `pvr` is that of a G4 are compiled out, so the
      result does not depend on `pvr`, and primary opcode 4 stays invalid. */
  method DecInit(t: Group2Tables, pvr: Word)
    requires t.Valid()
    modifies t.exec, t.gen
    ensures t.exec[..] == ExecTable() && t.gen[..] == GenTable()
  {
    t.InitGroup2();
  }

  /** A run of slot stores `table[slot] = handler`, in list order, over a table whose
      every slot holds the invalid handler. */
  method StoreAll(table: array<Op>, installs: seq<(nat, Op)>)
    requires table.Length == TableSize && WellFormed(installs)
    requires forall k :: 0 <= k < TableSize ==> table[k].Invalid?
    modifies table
    ensures table[..] == TableAfter(installs)
  {
    for j := 0 to |installs|
      invariant forall k :: 0 <= k < TableSize ==> table[k] == SlotAfter(installs[..j], k)
    {
      var (slot, op) := installs[j];
      table[slot] := op;
      assert installs[..j + 1][..j] == installs[..j];
    }
    assert installs[..|installs|] == installs;
  }

  /** Two store lists that are each well formed and increasing, with every slot of the
      first below every slot of the second, make a well-formed increasing list. */
  lemma ConcatWellFormed(a: seq<(nat, Op)>, b: seq<(nat, Op)>)
    requires WellFormed(a) && StrictlyIncreasing(a)
    requires WellFormed(b) && StrictlyIncreasing(b)
    requires |a| > 0 && |b| > 0 && a[|a| - 1].0 < b[0].0
    ensures WellFormed(a + b) && StrictlyIncreasing(a + b)
    ensures (a + b)[0] == a[0] && (a + b)[|a + b| - 1] == b[|b| - 1]
  {
    var c := a + b;
    forall x, y | 0 <= x < y < |c|
      ensures c[x].0 < c[y].0
    {
      if x < |a| && y >= |a| {
        assert c[x].0 <= a[|a| - 1].0;
        assert b[0].0 <= c[y].0;
      }
    }
  }

  /** The stores from the `i`-th on name slots of the table and real handlers, each
      slot below the next: the check a literal list can be unfolded against. */
  predicate RunChecks(installs: seq<(nat, Op)>, i: nat)
    decreases |installs| - i
  {
    || i >= |installs|
    || (&& installs[i].0 < TableSize
        && !installs[i].1.Invalid?
        && (i + 1 < |installs| ==> installs[i].0 < installs[i + 1].0)
        && RunChecks(installs, i + 1))
  }

  /** A list that passes the check from `i` on is well formed and increasing from `i`
      on. */
  lemma {:induction false} RunChecksSound(installs: seq<(nat, Op)>, i: nat)
    requires RunChecks(installs, i)
    ensures forall k :: i <= k < |installs| ==> installs[k].0 < TableSize && !installs[k].1.Invalid?
    ensures forall k :: i <= k < |installs| - 1 ==> installs[k].0 < installs[k + 1].0
    decreases |installs| - i
  {
    if i < |installs| {
      RunChecksSound(installs, i + 1);
    }
  }

  /** Each run of the interpreter stores is well formed and increasing (one lemma per
      run keeps each literal check small). */
  lemma ExecRunAChecked()
    ensures WellFormed(ExecInstallsA) && NeighboursIncrease(ExecInstallsA)
  {
    assert RunChecks(ExecInstallsA, 0);
    RunChecksSound(ExecInstallsA, 0);
  }

  lemma ExecRunBChecked()
    ensures WellFormed(ExecInstallsB) && NeighboursIncrease(ExecInstallsB)
  {
    assert RunChecks(ExecInstallsB, 0);
    RunChecksSound(ExecInstallsB, 0);
  }

  lemma ExecRunCChecked()
    ensures WellFormed(ExecInstallsC) && NeighboursIncrease(ExecInstallsC)
  {
    assert RunChecks(ExecInstallsC, 0);
    RunChecksSound(ExecInstallsC, 0);
  }

  lemma ExecRunDChecked()
    ensures WellFormed(ExecInstallsD) && NeighboursIncrease(ExecInstallsD)
  {
    assert RunChecks(ExecInstallsD, 0);
    RunChecksSound(ExecInstallsD, 0);
  }

  lemma ExecRunEChecked()
    ensures WellFormed(ExecInstallsE) && NeighboursIncrease(ExecInstallsE)
  {
    assert RunChecks(ExecInstallsE, 0);
    RunChecksSound(ExecInstallsE, 0);
  }

  lemma ExecRunFChecked()
    ensures WellFormed(ExecInstallsF) && NeighboursIncrease(ExecInstallsF)
  {
    assert RunChecks(ExecInstallsF, 0);
    RunChecksSound(ExecInstallsF, 0);
  }

  lemma ExecRunGChecked()
    ensures WellFormed(ExecInstallsG) && NeighboursIncrease(ExecInstallsG)
  {
    assert RunChecks(ExecInstallsG, 0);
    RunChecksSound(ExecInstallsG, 0);
  }

  lemma ExecRunHChecked()
    ensures WellFormed(ExecInstallsH) && NeighboursIncrease(ExecInstallsH)
  {
    assert RunChecks(ExecInstallsH, 0);
    RunChecksSound(ExecInstallsH, 0);
  }

  /** The code-generation stores are the interpreter stores, run by run. */
  lemma InstallListsEqual()
    ensures GenInstalls == ExecInstalls
  {
    assert GenInstallsA == ExecInstallsA;
    assert GenInstallsB == ExecInstallsB;
    assert GenInstallsC == ExecInstallsC;
    assert GenInstallsD == ExecInstallsD;
    assert GenInstallsE == ExecInstallsE;
    assert GenInstallsF == ExecInstallsF;
    assert GenInstallsG == ExecInstallsG;
    assert GenInstallsH == ExecInstallsH;
  }

  /** Both store lists only name slots of the table and real handlers, and neither
      stores to a slot twice. */
  lemma InstallListsWellFormed()
    ensures WellFormed(ExecInstalls) && StrictlyIncreasing(ExecInstalls)
    ensures WellFormed(GenInstalls) && StrictlyIncreasing(GenInstalls)
  {
    ExecRunAChecked();
    ExecRunBChecked();
    ExecRunCChecked();
    ExecRunDChecked();
    ExecRunEChecked();
    ExecRunFChecked();
    ExecRunGChecked();
    ExecRunHChecked();
    NeighboursIncreaseSound(ExecInstallsA);
    NeighboursIncreaseSound(ExecInstallsB);
    NeighboursIncreaseSound(ExecInstallsC);
    NeighboursIncreaseSound(ExecInstallsD);
    NeighboursIncreaseSound(ExecInstallsE);
    NeighboursIncreaseSound(ExecInstallsF);
    NeighboursIncreaseSound(ExecInstallsG);
    NeighboursIncreaseSound(ExecInstallsH);
    ConcatWellFormed(ExecInstallsA, ExecInstallsB);
    ConcatWellFormed(ExecInstallsA + ExecInstallsB, ExecInstallsC);
    ConcatWellFormed(ExecInstallsA + ExecInstallsB + ExecInstallsC, ExecInstallsD);
    ConcatWellFormed(ExecInstallsA + ExecInstallsB + ExecInstallsC + ExecInstallsD, ExecInstallsE);
    ConcatWellFormed(ExecInstallsA + ExecInstallsB + ExecInstallsC + ExecInstallsD + ExecInstallsE, ExecInstallsF);
    ConcatWellFormed(ExecInstallsA + ExecInstallsB + ExecInstallsC + ExecInstallsD + ExecInstallsE + ExecInstallsF, ExecInstallsG);
    ConcatWellFormed(ExecInstallsA + ExecInstallsB + ExecInstallsC + ExecInstallsD + ExecInstallsE + ExecInstallsF + ExecInstallsG, ExecInstallsH);
    InstallListsEqual();
  }

  /** When no slot is stored twice, every stored slot ends up holding its handler. */
  lemma {:induction false} StoredSlotHoldsHandler(installs: seq<(nat, Op)>, k: nat)
    requires StrictlyIncreasing(installs) && k < |installs|
    ensures SlotAfter(installs, installs[k].0) == installs[k].1
    decreases |installs|
  {
    var n := |installs| - 1;
    if k < n {
      assert installs[n].0 != installs[k].0;
      var front := installs[..n];
      assert front[k] == installs[k];
      StoredSlotHoldsHandler(front, k);
    }
  }

  /** The slots that hold a real handler. */
  function InstalledSlots(t: seq<Op>): set<nat>
  {
    set i: nat | i < |t| && !t[i].Invalid?
  }

  /** The slots a store list names. */
  function StoredSlots(installs: seq<(nat, Op)>): set<nat>
  {
    set k | 0 <= k < |installs| :: installs[k].0
  }

  /** After initialisation each slot of the interpreter table holds the handler stored
      to it, or the invalid handler when no store names it; the code-generation
      table holds the same handler in every slot. */
  lemma TableSlot(i: nat)
    requires i < TableSize
    ensures ExecTable()[i] == GenTable()[i]
    ensures !ExecTable()[i].Invalid? <==> i in StoredSlots(ExecInstalls)
    ensures forall k :: 0 <= k < |ExecInstalls| && ExecInstalls[k].0 == i ==> ExecTable()[i] == ExecInstalls[k].1
  {
    InstallListsWellFormed();
    forall k | 0 <= k < |ExecInstalls| && ExecInstalls[k].0 == i
      ensures ExecTable()[i] == ExecInstalls[k].1
    {
      StoredSlotHoldsHandler(ExecInstalls, k);
    }
  }

  /** Both tables are equal after initialisation, and their installed slots are exactly
      the slots the stores name. */
  lemma TablesAgree()
    ensures ExecTable() == GenTable()
    ensures InstalledSlots(ExecTable()) == InstalledSlots(GenTable()) == StoredSlots(ExecInstalls)
  {
    InstallListsEqual();
    forall i: nat | i < TableSize
      ensures !ExecTable()[i].Invalid? <==> i in StoredSlots(ExecInstalls)
    {
      TableSlot(i);
    }
    InstallListsWellFormed();
  }

  /** ppc_opc_group_2 as written: for an extended opcode past the table it calls the
      invalid handler and then, having no `return`, still reads slot `ext`. */
  function ExecGroup2(table: seq<Op>, ext: bv32): (a: ExecAction)
    requires |table| == TableSize
    ensures a.InvalidThenOutOfBounds? <==> ext as int >= TableSize
    ensures a.InvalidThenOutOfBounds? ==> a.index == ext as nat
    ensures ext as int < TableSize ==> a == Execute(table[ext])
  {
    if ext as int >= TableSize then InvalidThenOutOfBounds(ext as nat)
    else Execute(table[ext])
  }

  /** ppc_opc_group_2 with the `return` after the invalid handler that it evidently
      intends: out-of-range extended opcodes decode to the invalid handler. */
  function ExecGroup2Intended(table: seq<Op>, ext: bv32): (a: ExecAction)
    requires |table| == TableSize
    ensures a.Execute?
    ensures !a.op.Invalid? ==> ext as int < TableSize && a.op == table[ext]
  {
    if ext as int >= TableSize then Execute(Invalid)
    else Execute(table[ext])
  }

  /** ppc_opc_gen_group_2: extended opcodes past the table emit the invalid handler. */
  function GenGroup2(table: seq<Op>, ext: bv32): (a: GenAction)
    requires |table| == TableSize
    ensures a.Emit? && !a.fpuChecked
    ensures ext as int >= TableSize ==> a.op.Invalid?
    ensures ext as int < TableSize ==> a.op == table[ext]
  {
    if ext as int >= TableSize then Emit(Invalid, false)
    else Emit(table[ext], false)
  }

  /** Over the initialised tables the two lookups agree on every extended opcode inside
      the table; past it the code generator emits the invalid handler while the
      interpreter reads out of bounds. */
  lemma Group2Agree(ext: bv32)
    ensures ext as int < TableSize ==>
      ExecGroup2(ExecTable(), ext) == Execute(GenGroup2(GenTable(), ext).op)
    ensures ext as int >= TableSize ==>
      ExecGroup2(ExecTable(), ext) == InvalidThenOutOfBounds(ext as nat) &&
      GenGroup2(GenTable(), ext) == Emit(Invalid, false)
  {
    TablesAgree();
  }

  /** With the intended `return` the two lookups agree on every extended opcode. */
  lemma Group2IntendedAgree(ext: bv32)
    ensures ExecGroup2Intended(ExecTable(), ext) == Execute(GenGroup2(GenTable(), ext).op)
  {
    TablesAgree();
  }

  /** Slot 444 holds orx in both tables. */
  lemma Slot444IsOrx()
    ensures ExecTable()[444] == Orx && GenTable()[444] == Orx
  {
    assert ExecInstalls[57] == (444, Orx);
    TableSlot(444);
  }
}
