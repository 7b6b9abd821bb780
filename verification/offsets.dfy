/**
 * The reference data of the titrated residues and the numbers the cpin
 * script derives from it: one block of protonation-state records per
 * distinct residue name (in the order of the distinct names), the
 * FIRST_CHARGE / FIRST_STATE offsets into the flattened CHRGDAT and
 * state arrays, NUM_ATOMS and NUM_STATES, the CHRGDAT, PROTCNT and
 * STATENE token lists, and the initial states.
 */
module Offsets {
  import opened Outcomes
  import opened Text
  import opened Selection

  /**
   * One protonation state of a residue, the record `[energy, protcnt,
   * charge, ...]` of the reference data: its reference energy, its proton
   * count and one partial charge per atom. Energies and charges are kept as
   * the text `str()` gives them.
   */
  datatype StateRecord = StateRecord(energy: string, protons: nat, charges: seq<string>)

  /**
   * NUM_ATOMS of a block, `len(record) - 2` of its first record. An empty
   * block is given 0 here; the script never reaches that case, because the
   * state range check rejects every residue whose block is empty.
   */
  function NumAtoms(block: seq<StateRecord>): nat {
    if block == [] then 0 else |block[0].charges|
  }

  /** Every record of the block has NUM_ATOMS charges, as reference data for one residue type does. */
  predicate Uniform(block: seq<StateRecord>) {
    forall s :: 0 <= s < |block| ==> |block[s].charges| == NumAtoms(block)
  }

  /** FIRST_CHARGE of the `k`-th distinct name: the charges of all states of the names before it. */
  function FirstCharge(blocks: seq<seq<StateRecord>>, k: nat): nat
    requires k <= |blocks|
    decreases k
  {
    if k == 0 then 0 else FirstCharge(blocks, k - 1) + NumAtoms(blocks[k - 1]) * |blocks[k - 1]|
  }

  /** FIRST_STATE of the `k`-th distinct name: the number of states of the names before it. */
  function FirstState(blocks: seq<seq<StateRecord>>, k: nat): nat
    requires k <= |blocks|
    decreases k
  {
    if k == 0 then 0 else FirstState(blocks, k - 1) + |blocks[k - 1]|
  }

  /**
   * The offset loop of lines 366-375 for the residue named `name`: walk the
   * distinct names, adding up charges and states, until the name is found.
   */
  method BlockOffsets(names: seq<string>, blocks: seq<seq<StateRecord>>, name: string)
      returns (startchrg: nat, startst: nat, natm: nat, nst: nat)
    requires |names| == |blocks| && name in names
    ensures var k := FirstIndex(names, name);
            startchrg == FirstCharge(blocks, k) && startst == FirstState(blocks, k)
            && natm == NumAtoms(blocks[k]) && nst == |blocks[k]|
  {
    var k := FirstIndex(names, name);
    startchrg, startst := 0, 0;
    natm, nst := 0, 0;
    var y := 0;
    while y < |names|
      invariant 0 <= y <= k
      invariant startchrg == FirstCharge(blocks, y) && startst == FirstState(blocks, y)
      invariant name !in names[..y]
    {
      if names[y] == name {
        natm := NumAtoms(blocks[y]);
        nst := |blocks[y]|;
        break;
      }
      assert names[..y + 1] == names[..y] + [names[y]];
      startchrg := startchrg + NumAtoms(blocks[y]) * |blocks[y]|;
      startst := startst + |blocks[y]|;
      y := y + 1;
    }
    assert y == k by {
      assert names[..k][y..] == names[y..k];
    }
  }

  // ---------------------------------------------------------------------------
  // The flattened arrays

  /** Every state of every block, block after block: the order of PROTCNT and STATENE. */
  function StatesOf(blocks: seq<seq<StateRecord>>): seq<StateRecord> {
    Concat(blocks)
  }

  /** The CHRGDAT tokens of one record: each charge followed by a comma. */
  function RecordCharges(r: StateRecord): seq<string> {
    seq(|r.charges|, a requires 0 <= a < |r.charges| => r.charges[a] + ",")
  }

  function RecordParts(block: seq<StateRecord>): seq<seq<string>> {
    seq(|block|, s requires 0 <= s < |block| => RecordCharges(block[s]))
  }

  /** The CHRGDAT tokens of one block, record after record. */
  function BlockCharges(block: seq<StateRecord>): seq<string> {
    Concat(RecordParts(block))
  }

  function BlockParts(blocks: seq<seq<StateRecord>>): seq<seq<string>> {
    seq(|blocks|, k requires 0 <= k < |blocks| => BlockCharges(blocks[k]))
  }

  /** All CHRGDAT tokens (lines 300-310). */
  function ChargeTokens(blocks: seq<seq<StateRecord>>): seq<string> {
    Concat(BlockParts(blocks))
  }

  /** All PROTCNT tokens (lines 318-323): each state's proton count, then a comma. */
  function ProtonTokens(blocks: seq<seq<StateRecord>>): seq<string> {
    var st := StatesOf(blocks);
    seq(|st|, i requires 0 <= i < |st| => NatStr(st[i].protons) + ",")
  }

  /** All STATENE tokens (lines 392-395): each state's reference energy, then a comma. */
  function EnergyTokens(blocks: seq<seq<StateRecord>>): seq<string> {
    var st := StatesOf(blocks);
    seq(|st|, i requires 0 <= i < |st| => st[i].energy + ",")
  }

  /** The states of the first `k` blocks number FIRST_STATE of block `k`. */
  lemma {:induction false} StatesPrefixLength(blocks: seq<seq<StateRecord>>, k: nat)
    requires k <= |blocks|
    ensures |Concat(blocks[..k])| == FirstState(blocks, k)
    decreases k
  {
    if k > 0 {
      StatesPrefixLength(blocks, k - 1);
      ConcatSnoc(blocks, k - 1);
    }
  }

  /**
   * FIRST_STATE indexes the flattened states: state `s` of the `k`-th name
   * sits at FIRST_STATE + s, and the flattened array holds exactly
   * FIRST_STATE of one past the last name states.
   */
  lemma StatesOfIndex(blocks: seq<seq<StateRecord>>, k: nat, s: nat)
    requires k < |blocks| && s < |blocks[k]|
    ensures FirstState(blocks, k) + s < |StatesOf(blocks)|
    ensures StatesOf(blocks)[FirstState(blocks, k) + s] == blocks[k][s]
  {
    StatesPrefixLength(blocks, k);
    ConcatIndex(blocks, k, s);
  }

  lemma StatesOfLength(blocks: seq<seq<StateRecord>>)
    ensures |StatesOf(blocks)| == FirstState(blocks, |blocks|)
  {
    StatesPrefixLength(blocks, |blocks|);
    assert blocks[..|blocks|] == blocks;
  }

  /**
   * PROTCNT and STATENE carry one token per state, in the same order, so
   * the token of state `s` of the `k`-th name is the one at FIRST_STATE + s.
   */
  lemma StateTokensAligned(blocks: seq<seq<StateRecord>>, k: nat, s: nat)
    requires k < |blocks| && s < |blocks[k]|
    ensures |ProtonTokens(blocks)| == |EnergyTokens(blocks)| == FirstState(blocks, |blocks|)
    ensures FirstState(blocks, k) + s < FirstState(blocks, |blocks|)
    ensures ProtonTokens(blocks)[FirstState(blocks, k) + s] == NatStr(blocks[k][s].protons) + ","
    ensures EnergyTokens(blocks)[FirstState(blocks, k) + s] == blocks[k][s].energy + ","
  {
    StatesOfLength(blocks);
    StatesOfIndex(blocks, k, s);
  }

  /** In a uniform block the first `s` records hold `s` times NUM_ATOMS charges. */
  lemma {:induction false} RecordPrefixLength(block: seq<StateRecord>, s: nat)
    requires Uniform(block) && s <= |block|
    ensures |Concat(RecordParts(block)[..s])| == s * NumAtoms(block)
    decreases s
  {
    if s > 0 {
      RecordPrefixLength(block, s - 1);
      ConcatSnoc(RecordParts(block), s - 1);
    }
  }

  /** In a uniform block, charge `a` of record `s` is CHRGDAT token `s * NUM_ATOMS + a` of the block. */
  lemma BlockChargesIndex(block: seq<StateRecord>, s: nat, a: nat)
    requires Uniform(block) && s < |block| && a < NumAtoms(block)
    ensures s * NumAtoms(block) + a < |BlockCharges(block)|
    ensures BlockCharges(block)[s * NumAtoms(block) + a] == block[s].charges[a] + ","
  {
    RecordPrefixLength(block, s);
    ConcatIndex(RecordParts(block), s, a);
  }

  lemma BlockChargesLength(block: seq<StateRecord>)
    requires Uniform(block)
    ensures |BlockCharges(block)| == NumAtoms(block) * |block|
  {
    RecordPrefixLength(block, |block|);
    assert RecordParts(block)[..|block|] == RecordParts(block);
  }

  /** With uniform blocks, the charges of the first `k` blocks number FIRST_CHARGE of block `k`. */
  lemma {:induction false} ChargePrefixLength(blocks: seq<seq<StateRecord>>, k: nat)
    requires k <= |blocks|
    requires forall j :: 0 <= j < k ==> Uniform(blocks[j])
    ensures |Concat(BlockParts(blocks)[..k])| == FirstCharge(blocks, k)
    decreases k
  {
    if k > 0 {
      ChargePrefixLength(blocks, k - 1);
      ConcatSnoc(BlockParts(blocks), k - 1);
      BlockChargesLength(blocks[k - 1]);
    }
  }

  /**
   * FIRST_CHARGE indexes CHRGDAT: when every record of a name has NUM_ATOMS
   * charges, charge `a` of state `s` of the `k`-th name is the token at
   * FIRST_CHARGE + s * NUM_ATOMS + a.
   */
  lemma ChargeTokensIndex(blocks: seq<seq<StateRecord>>, k: nat, s: nat, a: nat)
    requires forall j :: 0 <= j < |blocks| ==> Uniform(blocks[j])
    requires k < |blocks| && s < |blocks[k]| && a < |blocks[k][s].charges|
    ensures FirstCharge(blocks, k) + s * NumAtoms(blocks[k]) + a < |ChargeTokens(blocks)|
    ensures ChargeTokens(blocks)[FirstCharge(blocks, k) + s * NumAtoms(blocks[k]) + a] == blocks[k][s].charges[a] + ","
  {
    assert Uniform(blocks[k]);
    ChargePrefixLength(blocks, k);
    BlockChargesIndex(blocks[k], s, a);
    ConcatIndex(BlockParts(blocks), k, s * NumAtoms(blocks[k]) + a);
  }

  /**
   * The charge range a residue's STATEINF entry points at lies inside
   * CHRGDAT: FIRST_CHARGE + NUM_ATOMS * NUM_STATES never exceeds the number
   * of CHRGDAT tokens, which is FIRST_CHARGE one past the last name.
   */
  lemma ChargeRangeFits(blocks: seq<seq<StateRecord>>, k: nat)
    requires forall j :: 0 <= j < |blocks| ==> Uniform(blocks[j])
    requires k < |blocks|
    ensures |ChargeTokens(blocks)| == FirstCharge(blocks, |blocks|)
    ensures FirstCharge(blocks, k) + NumAtoms(blocks[k]) * |blocks[k]| <= |ChargeTokens(blocks)|
  {
    ChargeTokensLength(blocks);
    FirstChargeMonotone(blocks, k + 1, |blocks|);
  }

  lemma ChargeTokensLength(blocks: seq<seq<StateRecord>>)
    requires forall j :: 0 <= j < |blocks| ==> Uniform(blocks[j])
    ensures |ChargeTokens(blocks)| == FirstCharge(blocks, |blocks|)
  {
    ChargePrefixLength(blocks, |blocks|);
    assert BlockParts(blocks)[..|blocks|] == BlockParts(blocks);
  }

  lemma {:induction false} FirstChargeMonotone(blocks: seq<seq<StateRecord>>, j: nat, k: nat)
    requires j <= k <= |blocks|
    ensures FirstCharge(blocks, j) <= FirstCharge(blocks, k)
    decreases k
  {
    if j < k {
      FirstChargeMonotone(blocks, j, k - 1);
    }
  }

  /** The CHRGDAT loop of lines 300-310 over blocks that were all found: every charge of every record. */
  method ChargeData(blocks: seq<seq<StateRecord>>) returns (tokens: seq<string>)
    ensures tokens == ChargeTokens(blocks)
  {
    tokens := [];
    for x := 0 to |blocks|
      invariant tokens == Concat(BlockParts(blocks)[..x])
    {
      var block := blocks[x];
      ghost var before := tokens;
      for y := 0 to |block|
        invariant tokens == before + Concat(RecordParts(block)[..y])
      {
        ghost var mid := tokens;
        var record := block[y];
        for z := 0 to |record.charges|
          invariant tokens == mid + RecordCharges(record)[..z]
        {
          assert RecordCharges(record)[..z + 1] == RecordCharges(record)[..z] + [record.charges[z] + ","];
          tokens := tokens + [record.charges[z] + ","];
        }
        assert RecordCharges(record)[..|record.charges|] == RecordCharges(record) == RecordParts(block)[y];
        ConcatSnoc(RecordParts(block), y);
      }
      assert Concat(RecordParts(block)[..|block|]) == BlockCharges(block) == BlockParts(blocks)[x] by {
        assert RecordParts(block)[..|block|] == RecordParts(block);
      }
      ConcatSnoc(BlockParts(blocks), x);
    }
    assert BlockParts(blocks)[..|blocks|] == BlockParts(blocks);
  }

  /** The PROTCNT loop of lines 318-323. */
  method ProtonCounts(blocks: seq<seq<StateRecord>>) returns (tokens: seq<string>)
    ensures tokens == ProtonTokens(blocks)
  {
    tokens := [];
    for x := 0 to |blocks|
      invariant |tokens| == |Concat(blocks[..x])|
      invariant forall i :: 0 <= i < |tokens| ==> tokens[i] == NatStr(Concat(blocks[..x])[i].protons) + ","
    {
      for y := 0 to |blocks[x]|
        invariant |tokens| == |Concat(blocks[..x]) + blocks[x][..y]|
        invariant forall i :: 0 <= i < |tokens| ==>
                    tokens[i] == NatStr((Concat(blocks[..x]) + blocks[x][..y])[i].protons) + ","
      {
        assert blocks[x][..y + 1] == blocks[x][..y] + [blocks[x][y]];
        tokens := tokens + [NatStr(blocks[x][y].protons) + ","];
      }
      assert blocks[x][..|blocks[x]|] == blocks[x];
      ConcatSnoc(blocks, x);
    }
    assert blocks[..|blocks|] == blocks;
  }

  /** The STATENE loop of lines 392-395. */
  method StateEnergies(blocks: seq<seq<StateRecord>>) returns (tokens: seq<string>)
    ensures tokens == EnergyTokens(blocks)
  {
    tokens := [];
    for x := 0 to |blocks|
      invariant |tokens| == |Concat(blocks[..x])|
      invariant forall i :: 0 <= i < |tokens| ==> tokens[i] == Concat(blocks[..x])[i].energy + ","
    {
      for y := 0 to |blocks[x]|
        invariant |tokens| == |Concat(blocks[..x]) + blocks[x][..y]|
        invariant forall i :: 0 <= i < |tokens| ==>
                    tokens[i] == (Concat(blocks[..x]) + blocks[x][..y])[i].energy + ","
      {
        assert blocks[x][..y + 1] == blocks[x][..y] + [blocks[x][y]];
        tokens := tokens + [blocks[x][y].energy + ","];
      }
      assert blocks[x][..|blocks[x]|] == blocks[x];
      ConcatSnoc(blocks, x);
    }
    assert blocks[..|blocks|] == blocks;
  }

  // ---------------------------------------------------------------------------
  // Initial states

  /**
   * Lines 274-281: a non-empty `-states` list must give one state per
   * selected residue; no list means state 0 for every residue.
   */
  function InitialStates(given: seq<int>, count: nat): (r: Result<seq<int>>)
    ensures r.Ok? <==> given == [] || |given| == count
    ensures r.Err? ==> r.error == StateCountMismatch(|given|, count)
    ensures r.Ok? ==> |r.value| == count
    ensures r.Ok? && given != [] ==> r.value == given
    ensures r.Ok? && given == [] ==> forall x :: 0 <= x < count ==> r.value[x] == 0
  {
    if given != [] && |given| != count then Err(StateCountMismatch(|given|, count))
    else if given == [] then Ok(seq(count, _ => 0))
    else Ok(given)
  }

  /** The check and the filling loop of lines 274-281. */
  method DefaultStates(given: seq<int>, count: nat) returns (r: Result<seq<int>>)
    ensures r == InitialStates(given, count)
  {
    if |given| != 0 && |given| != count {
      return Err(StateCountMismatch(|given|, count));
    }
    if |given| == 0 {
      var states: seq<int> := [];
      for x := 0 to count
        invariant states == seq(x, _ => 0)
      {
        states := states + [0];
      }
      return Ok(states);
    }
    r := Ok(given);
  }

  /** A state the residue's block offers: 0 up to NUM_STATES - 1. */
  predicate StateInRange(state: int, block: seq<StateRecord>) {
    0 <= state < |block|
  }

  /** The range is exact: NUM_STATES - 1 is accepted and NUM_STATES is not. */
  lemma StateRangeBoundary(block: seq<StateRecord>)
    requires block != []
    ensures StateInRange(|block| - 1, block) && !StateInRange(|block|, block)
    ensures !StateInRange(-1, block)
  {
  }

  /** An empty block admits no state, so a residue whose block is empty always fails the check. */
  lemma EmptyBlockRejects(state: int)
    ensures !StateInRange(state, [])
  {
  }
}
