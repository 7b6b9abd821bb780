/**
 * The cpin script from the residue list of a topology to the `&CNSTPH`
 * namelist it prints: selection, distinct names, initial states, the
 * reference data of each distinct name, and the fields CHRGDAT, PROTCNT,
 * RESNAME, RESSTATE, STATEINF, STATENE and TRESCNT, each wrapped at 80
 * columns by `addOn`.
 *
 * A run either prints the whole namelist, or stops with an error; the two
 * errors found while the namelist is being printed (missing reference data,
 * a state out of range) leave behind the lines already printed.
 */
module Cpin {
  import opened Outcomes
  import opened Text
  import opened Wrap
  import opened Selection
  import opened Offsets

  /** One residue of the topology: its RESIDUE_LABEL entry and its RESIDUE_POINTER entry (the first atom, as text). */
  datatype Residue = Residue(name: string, pointer: string)

  /** The selection criteria once the command line is parsed. */
  datatype Criteria = Criteria(names: NameFilter, numbers: NumberFilter, minPka: real, maxPka: real, states: seq<int>)

  /** The lines a run prints on standard output, and the error that stopped it, if any. */
  datatype Outcome = Outcome(stdout: seq<string>, error: Option<Error>)

  const Header := "&CNSTPH"
  const Footer := "/"
  const ChargePrefix := " CHRGDAT="
  const ProtonPrefix := " PROTCNT="
  /** The RESNAME field always starts with the system name 'Unknown'. */
  const ResnamePrefix := " RESNAME='System: Unknown',"
  const StatePrefix := " RESSTATE="
  const InfoPrefix := " "
  const EnergyPrefix := " STATENE="

  function Labels(top: seq<Residue>): (ls: seq<string>)
    ensures |ls| == |top| && forall i :: 0 <= i < |top| ==> ls[i] == top[i].name
  {
    seq(|top|, i requires 0 <= i < |top| => top[i].name)
  }

  // ---------------------------------------------------------------------------
  // Reference data

  /** The position of the first distinct name the reference table lacks (`getData` returning -1), or `|names|`. */
  function FirstMissing(names: seq<string>, table: map<string, seq<StateRecord>>): (k: nat)
    ensures k <= |names|
    ensures forall j :: 0 <= j < k ==> names[j] in table
    ensures k < |names| ==> names[k] !in table
    decreases |names|
  {
    if names == [] || names[0] !in table then 0 else 1 + FirstMissing(names[1..], table)
  }

  /** The blocks of the given names, in their order (`resdata`, lines 290-293). */
  function BlocksOf(names: seq<string>, table: map<string, seq<StateRecord>>): (blocks: seq<seq<StateRecord>>)
    requires forall j :: 0 <= j < |names| ==> names[j] in table
    ensures |blocks| == |names|
  {
    seq(|names|, j requires 0 <= j < |names| && names[j] in table => table[names[j]])
  }

  // ---------------------------------------------------------------------------
  // The per-residue fields

  /** Every selected residue's label is one of the distinct names. */
  predicate Covers(labels: seq<string>, nums: seq<int>, names: seq<string>) {
    InTopology(labels, nums) && forall x :: 0 <= x < |nums| ==> labels[nums[x] - 1] in names
  }

  /** The distinct names of a selection cover it. */
  lemma DistinctNamesCover(labels: seq<string>, nums: seq<int>)
    requires InTopology(labels, nums)
    ensures Covers(labels, nums, Dedup(NamesOf(labels, nums)))
    ensures NoDuplicates(Dedup(NamesOf(labels, nums)))
  {
    var ns := NamesOf(labels, nums);
    DedupSpec(ns);
    assert forall x :: 0 <= x < |nums| ==> ns[x] in ns;
  }

  /** RESNAME tokens (lines 331-335): `'Residue: <label> <number>',` for each selected residue. */
  function ResnameTokens(labels: seq<string>, nums: seq<int>): (ts: seq<string>)
    requires InTopology(labels, nums)
    ensures |ts| == |nums|
  {
    seq(|nums|, x requires 0 <= x < |nums| => "'Residue: " + labels[nums[x] - 1] + " " + NatStr(nums[x]) + "',")
  }

  /** The block of the name of the `x`-th selected residue. */
  function BlockFor(labels: seq<string>, nums: seq<int>, names: seq<string>, blocks: seq<seq<StateRecord>>, x: nat)
    : seq<StateRecord>
    requires Covers(labels, nums, names) && |blocks| == |names| && x < |nums|
  {
    blocks[FirstIndex(names, labels[nums[x] - 1])]
  }

  /** The position of the first residue at or after `from` whose initial state its block does not offer, or `|nums|`. */
  function FirstBadState(labels: seq<string>, nums: seq<int>, names: seq<string>, blocks: seq<seq<StateRecord>>,
                         states: seq<int>, from: nat): (bad: nat)
    requires Covers(labels, nums, names) && |blocks| == |names| && |states| == |nums| && from <= |nums|
    ensures from <= bad <= |nums|
    ensures forall x :: from <= x < bad ==> StateInRange(states[x], BlockFor(labels, nums, names, blocks, x))
    ensures bad < |nums| ==> !StateInRange(states[bad], BlockFor(labels, nums, names, blocks, bad))
    decreases |nums| - from
  {
    if from == |nums| then from
    else if !StateInRange(states[from], BlockFor(labels, nums, names, blocks, from)) then from
    else FirstBadState(labels, nums, names, blocks, states, from + 1)
  }

  /** RESSTATE tokens (line 350): each initial state, then a comma. */
  function StateTokens(states: seq<int>): (ts: seq<string>)
    ensures |ts| == |states|
  {
    seq(|states|, x requires 0 <= x < |states| => IntStr(states[x]) + ",")
  }

  /** One STATEINF token of residue `x`: `STATEINF(<x>)%<field>=<value>, `. */
  function InfoToken(x: nat, field: string, value: string): string {
    "STATEINF(" + NatStr(x) + ")%" + field + "=" + value + ", "
  }

  /** The five STATEINF tokens of residue `x` (lines 361-383). */
  function InfoTokens(x: nat, pointer: string, firstCharge: nat, firstState: nat, numAtoms: nat, numStates: nat)
    : (ts: seq<string>)
    ensures |ts| == 5
  {
    [InfoToken(x, "FIRST_ATOM", pointer),
     InfoToken(x, "FIRST_CHARGE", NatStr(firstCharge)),
     InfoToken(x, "FIRST_STATE", NatStr(firstState)),
     InfoToken(x, "NUM_ATOMS", NatStr(numAtoms)),
     InfoToken(x, "NUM_STATES", NatStr(numStates))]
  }

  /** The STATEINF tokens of the `x`-th selected residue, with the offsets of its name's block. */
  function ResidueInfo(top: seq<Residue>, nums: seq<int>, names: seq<string>, blocks: seq<seq<StateRecord>>, x: nat)
    : seq<string>
    requires Covers(Labels(top), nums, names) && |blocks| == |names| && x < |nums|
  {
    var k := FirstIndex(names, top[nums[x] - 1].name);
    InfoTokens(x, top[nums[x] - 1].pointer, FirstCharge(blocks, k), FirstState(blocks, k), NumAtoms(blocks[k]), |blocks[k]|)
  }

  function InfoParts(top: seq<Residue>, nums: seq<int>, names: seq<string>, blocks: seq<seq<StateRecord>>)
    : seq<seq<string>>
    requires Covers(Labels(top), nums, names) && |blocks| == |names|
  {
    seq(|nums|, x requires 0 <= x < |nums| => ResidueInfo(top, nums, names, blocks, x))
  }

  /** All STATEINF tokens, residue after residue. */
  function InfoTokensOf(top: seq<Residue>, nums: seq<int>, names: seq<string>, blocks: seq<seq<StateRecord>>)
    : seq<string>
    requires Covers(Labels(top), nums, names) && |blocks| == |names|
  {
    Concat(InfoParts(top, nums, names, blocks))
  }

  /** The last field, a line of its own (line 401). */
  function TrescntLine(count: nat): string {
    " TRESCNT=" + NatStr(count) + ","
  }

  // ---------------------------------------------------------------------------
  // The whole run

  /** The whole namelist (line 286, lines 298-407) once the reference data of every distinct name is found. */
  function Fields(top: seq<Residue>, nums: seq<int>, names: seq<string>, blocks: seq<seq<StateRecord>>, states: seq<int>)
    : Outcome
    requires Covers(Labels(top), nums, names) && |blocks| == |names| && |states| == |nums|
  {
    var labels := Labels(top);
    var head := [Header] + Lines(ChargePrefix, ChargeTokens(blocks)) + Lines(ProtonPrefix, ProtonTokens(blocks))
                + Lines(ResnamePrefix, ResnameTokens(labels, nums));
    var bad := FirstBadState(labels, nums, names, blocks, states, 0);
    if bad < |nums| then
      Outcome(head + Fill(StatePrefix, StateTokens(states[..bad])).emitted, Some(StateOutOfRange(bad, states[bad])))
    else
      Outcome(head + Lines(StatePrefix, StateTokens(states)) + Lines(InfoPrefix, InfoTokensOf(top, nums, names, blocks))
              + Lines(EnergyPrefix, EnergyTokens(blocks)) + [TrescntLine(|nums|), Footer], None)
  }

  /** The namelist for a selection and its initial states (lines 286-407). */
  function Namelist(top: seq<Residue>, nums: seq<int>, states: seq<int>, table: map<string, seq<StateRecord>>): Outcome
    requires InTopology(Labels(top), nums) && |states| == |nums|
  {
    var names := Dedup(NamesOf(Labels(top), nums));
    var k := FirstMissing(names, table);
    if k < |names| then
      Outcome([Header] + Fill(ChargePrefix, ChargeTokens(BlocksOf(names[..k], table))).emitted,
              Some(MissingReferenceData(names[k])))
    else
      DistinctNamesCover(Labels(top), nums);
      Fields(top, nums, names, BlocksOf(names, table), states)
  }

  /**
   * A run once the `titrate_residues` string is fixed: the residue check
   * (line 173), the selection, the initial states, then the namelist.
   */
  function Run(top: seq<Residue>, active: string, numbers: NumberFilter, given: seq<int>,
               table: map<string, seq<StateRecord>>): Outcome
  {
    if top == [] then Outcome([], Some(NoResidueInfo))
    else
      var labels := Labels(top);
      var sel := Select(labels, active, numbers);
      if sel.Err? then Outcome([], Some(sel.error))
      else
        var init := InitialStates(given, |sel.value|);
        if init.Err? then Outcome([], Some(init.error))
        else
          SelectInTopology(labels, active, numbers);
          Namelist(top, sel.value, init.value, table)
  }

  /**
   * A whole run on a topology, the parsed criteria and the reference table
   * of the chosen igb model. The pKa filter cannot fail, so running it
   * before or after the residue check makes no difference.
   */
  function Cpin(top: seq<Residue>, crit: Criteria, table: map<string, seq<StateRecord>>): Outcome {
    Run(top, TitrateResidues(crit.names, crit.minPka, crit.maxPka), crit.numbers, crit.states, table)
  }

  // ---------------------------------------------------------------------------
  // Properties of a run

  /** The errors raised before the header is printed. */
  predicate EarlyError(e: Error) {
    !e.MissingReferenceData? && !e.StateOutOfRange?
  }

  /** The selection only ever fails with an early error. */
  lemma SelectErrorsEarly(labels: seq<string>, active: string, numbers: NumberFilter)
    ensures Select(labels, active, numbers).Err? ==> EarlyError(Select(labels, active, numbers).error)
  {
    if GivesNumbers(numbers) {
      var r := ByNumbers(labels, active, numbers.numbers);
      if r.Err? {
        var i :| 0 <= i < |numbers.numbers| && NumberCheck(labels, active, numbers.numbers[i]) == Some(r.error);
      }
    }
  }

  /**
   * A run prints nothing exactly when it stops before the header; whatever
   * it prints starts with the header.
   */
  lemma SilentExactlyOnEarlyErrors(top: seq<Residue>, active: string, numbers: NumberFilter, given: seq<int>,
                                   table: map<string, seq<StateRecord>>)
    ensures var o := Run(top, active, numbers, given, table);
            (o.stdout == [] <==> o.error.Some? && EarlyError(o.error.value))
            && (o.stdout != [] ==> o.stdout[0] == Header)
  {
    if top != [] {
      var labels := Labels(top);
      var sel := Select(labels, active, numbers);
      SelectErrorsEarly(labels, active, numbers);
      SelectInTopology(labels, active, numbers);
      if sel.Ok? {
        var init := InitialStates(given, |sel.value|);
        if init.Ok? {
          NamelistShape(top, sel.value, init.value, table);
        }
      }
    }
  }

  /** The namelist always starts with the header, and only the two late errors stop it. */
  lemma NamelistShape(top: seq<Residue>, nums: seq<int>, states: seq<int>, table: map<string, seq<StateRecord>>)
    requires InTopology(Labels(top), nums) && |states| == |nums|
    ensures var o := Namelist(top, nums, states, table);
            o.stdout != [] && o.stdout[0] == Header && (o.error.Some? ==> !EarlyError(o.error.value))
  {
    var names := Dedup(NamesOf(Labels(top), nums));
    if FirstMissing(names, table) == |names| {
      DistinctNamesCover(Labels(top), nums);
      var o := Fields(top, nums, names, BlocksOf(names, table), states);
      assert o.stdout[0] == Header;
    }
  }

  /**
   * What a run needs to succeed: a residue list, a selection, as many
   * states as residues (or none), and for every selected residue reference
   * data for its name offering its initial state.
   */
  predicate Accepts(top: seq<Residue>, active: string, numbers: NumberFilter, given: seq<int>,
                    table: map<string, seq<StateRecord>>) {
    top != [] &&
    var sel := Select(Labels(top), active, numbers);
    sel.Ok? &&
    var init := InitialStates(given, |sel.value|);
    init.Ok? && DataFits(top, sel.value, init.value, table)
  }

  /** Every selected residue names a residue of the topology whose name has data offering its initial state. */
  predicate DataFits(top: seq<Residue>, nums: seq<int>, states: seq<int>, table: map<string, seq<StateRecord>>)
    requires |states| == |nums|
  {
    forall x :: 0 <= x < |nums| ==>
      1 <= nums[x] <= |top| && top[nums[x] - 1].name in table && StateInRange(states[x], table[top[nums[x] - 1].name])
  }

  /** The reference block of every distinct name is the table's block for the residue's own label. */
  lemma BlockForLabel(top: seq<Residue>, nums: seq<int>, table: map<string, seq<StateRecord>>, x: nat)
    requires InTopology(Labels(top), nums) && x < |nums|
    requires var names := Dedup(NamesOf(Labels(top), nums)); forall j :: 0 <= j < |names| ==> names[j] in table
    ensures var names := Dedup(NamesOf(Labels(top), nums));
            Covers(Labels(top), nums, names) && top[nums[x] - 1].name in table
            && BlockFor(Labels(top), nums, names, BlocksOf(names, table), x) == table[top[nums[x] - 1].name]
  {
    var labels := Labels(top);
    var names := Dedup(NamesOf(labels, nums));
    DistinctNamesCover(labels, nums);
    var k := FirstIndex(names, labels[nums[x] - 1]);
    assert names[k] == top[nums[x] - 1].name;
  }

  /** The namelist is written in full exactly when every selected residue's name has data offering its state. */
  lemma NamelistSucceedsExactly(top: seq<Residue>, nums: seq<int>, states: seq<int>, table: map<string, seq<StateRecord>>)
    requires InTopology(Labels(top), nums) && |states| == |nums|
    ensures Namelist(top, nums, states, table).error.None? <==> DataFits(top, nums, states, table)
  {
    var names := Dedup(NamesOf(Labels(top), nums));
    if FirstMissing(names, table) < |names| {
      MissingNameUnfit(top, nums, states, table);
    } else {
      CoveredNamelist(top, nums, states, table);
    }
  }

  /** A distinct name without reference data belongs to some selected residue, whose data then does not fit. */
  lemma MissingNameUnfit(top: seq<Residue>, nums: seq<int>, states: seq<int>, table: map<string, seq<StateRecord>>)
    requires InTopology(Labels(top), nums) && |states| == |nums|
    requires var names := Dedup(NamesOf(Labels(top), nums)); FirstMissing(names, table) < |names|
    ensures !DataFits(top, nums, states, table)
  {
    var ns := NamesOf(Labels(top), nums);
    var names := Dedup(ns);
    DedupSpec(ns);
    var k := FirstMissing(names, table);
    assert names[k] in ns;
    var x :| 0 <= x < |nums| && ns[x] == names[k];
    assert top[nums[x] - 1].name !in table;
  }

  /** With data for every distinct name, the namelist is complete exactly when every initial state is in range. */
  lemma CoveredNamelist(top: seq<Residue>, nums: seq<int>, states: seq<int>, table: map<string, seq<StateRecord>>)
    requires InTopology(Labels(top), nums) && |states| == |nums|
    requires var names := Dedup(NamesOf(Labels(top), nums)); FirstMissing(names, table) == |names|
    ensures Namelist(top, nums, states, table).error.None? <==> DataFits(top, nums, states, table)
  {
    var labels := Labels(top);
    var names := Dedup(NamesOf(labels, nums));
    var blocks := BlocksOf(names, table);
    DistinctNamesCover(labels, nums);
    forall x | 0 <= x < |nums|
      ensures top[nums[x] - 1].name in table
      ensures BlockFor(labels, nums, names, blocks, x) == table[top[nums[x] - 1].name]
    {
      BlockForLabel(top, nums, table, x);
    }
    var bad := FirstBadState(labels, nums, names, blocks, states, 0);
    if bad < |nums| {
      assert !StateInRange(states[bad], table[top[nums[bad] - 1].name]);
    }
  }

  /** Once the early checks pass, a run is the namelist of its selection and initial states. */
  lemma RunIsNamelist(top: seq<Residue>, active: string, numbers: NumberFilter, given: seq<int>,
                      table: map<string, seq<StateRecord>>)
    requires top != [] && Select(Labels(top), active, numbers).Ok?
    ensures var nums := Select(Labels(top), active, numbers).value;
            InTopology(Labels(top), nums)
            && (InitialStates(given, |nums|).Ok? ==>
                  Run(top, active, numbers, given, table) == Namelist(top, nums, InitialStates(given, |nums|).value, table))
  {
    SelectInTopology(Labels(top), active, numbers);
  }

  /** A run succeeds exactly when it is accepted. */
  lemma RunSucceedsExactly(top: seq<Residue>, active: string, numbers: NumberFilter, given: seq<int>,
                           table: map<string, seq<StateRecord>>)
    ensures Run(top, active, numbers, given, table).error.None? <==> Accepts(top, active, numbers, given, table)
  {
    if top != [] {
      var sel := Select(Labels(top), active, numbers);
      if sel.Ok? {
        var init := InitialStates(given, |sel.value|);
        RunIsNamelist(top, active, numbers, given, table);
        if init.Ok? {
          var nums := sel.value;
          NamelistSucceedsExactly(top, nums, init.value, table);
        } else {
          assert Run(top, active, numbers, given, table).error == Some(init.error);
        }
      } else {
        assert Run(top, active, numbers, given, table).error == Some(sel.error);
      }
    }
  }

  /** A successful namelist ends with TRESCNT and `/`. */
  lemma NamelistSuccessShape(top: seq<Residue>, nums: seq<int>, states: seq<int>, table: map<string, seq<StateRecord>>)
    requires InTopology(Labels(top), nums) && |states| == |nums|
    requires Namelist(top, nums, states, table).error.None?
    ensures var o := Namelist(top, nums, states, table).stdout;
            |o| >= 3 && o[0] == Header && o[|o| - 2] == TrescntLine(|nums|) && o[|o| - 1] == Footer
  {
    var names := Dedup(NamesOf(Labels(top), nums));
    DistinctNamesCover(Labels(top), nums);
    var blocks := BlocksOf(names, table);
    assert Namelist(top, nums, states, table) == Fields(top, nums, names, blocks, states);
  }

  /** A successful run prints the header first, TRESCNT with the number of selected residues second to last, and `/` last. */
  lemma SuccessfulRunShape(top: seq<Residue>, active: string, numbers: NumberFilter, given: seq<int>,
                           table: map<string, seq<StateRecord>>)
    requires Run(top, active, numbers, given, table).error.None?
    ensures top != []
    ensures var sel := Select(Labels(top), active, numbers);
            var o := Run(top, active, numbers, given, table).stdout;
            sel.Ok? && |o| >= 3 && o[0] == Header && o[|o| - 2] == TrescntLine(|sel.value|) && o[|o| - 1] == Footer
  {
    var sel := Select(Labels(top), active, numbers);
    RunIsNamelist(top, active, numbers, given, table);
    NamelistSuccessShape(top, sel.value, InitialStates(given, |sel.value|).value, table);
  }

  /** The TRESCNT line reads back as the count it was written from. */
  lemma TrescntReadsBack(count: nat)
    ensures var t := TrescntLine(count);
            |t| >= 11 && t[..9] == " TRESCNT=" && t[|t| - 1] == ','
            && IsDigits(t[9..|t| - 1]) && ParseNat(t[9..|t| - 1]) == count
  {
    var t := TrescntLine(count);
    assert t[9..|t| - 1] == NatStr(count);
    ParseNatStr(count);
  }

  /** Every STATEINF part has five tokens, so the part of residue `x` starts at token `5 * x`. */
  lemma {:induction false} InfoPrefixLength(top: seq<Residue>, nums: seq<int>, names: seq<string>,
                                            blocks: seq<seq<StateRecord>>, x: nat)
    requires Covers(Labels(top), nums, names) && |blocks| == |names| && x <= |nums|
    ensures |Concat(InfoParts(top, nums, names, blocks)[..x])| == 5 * x
    decreases x
  {
    if x > 0 {
      InfoPrefixLength(top, nums, names, blocks, x - 1);
      ConcatSnoc(InfoParts(top, nums, names, blocks), x - 1);
    }
  }

  /** The STATEINF tokens of residue `x` are the five tokens starting at `5 * x`. */
  lemma StateInfoEntry(top: seq<Residue>, nums: seq<int>, names: seq<string>, blocks: seq<seq<StateRecord>>, x: nat)
    requires Covers(Labels(top), nums, names) && |blocks| == |names| && x < |nums|
    ensures var info := InfoTokensOf(top, nums, names, blocks);
            5 * x + 5 <= |info| && info[5 * x..5 * x + 5] == ResidueInfo(top, nums, names, blocks, x)
  {
    var parts := InfoParts(top, nums, names, blocks);
    var info := Concat(parts);
    InfoPrefixLength(top, nums, names, blocks, x);
    forall i | 0 <= i < 5
      ensures 5 * x + i < |info| && info[5 * x + i] == parts[x][i]
    {
      ConcatIndex(parts, x, i);
    }
    assert |parts[x]| == 5;
    ConcatIndex(parts, x, 4);
    assert info[5 * x..5 * x + 5] == parts[x];
  }

  /**
   * The STATEINF entries of the `x`-th selected residue name FIRST_CHARGE,
   * FIRST_STATE, NUM_ATOMS and NUM_STATES of its name's block `k`, and
   * these offsets locate exactly that block's data: its charges in CHRGDAT,
   * its proton counts in PROTCNT, its energies in STATENE.
   */
  lemma StateInfoLocatesData(top: seq<Residue>, nums: seq<int>, names: seq<string>, blocks: seq<seq<StateRecord>>,
                             x: nat, k: nat)
    requires Covers(Labels(top), nums, names) && |blocks| == |names| && x < |nums|
    requires forall j :: 0 <= j < |blocks| ==> Uniform(blocks[j])
    requires top[nums[x] - 1].name in names && k == FirstIndex(names, top[nums[x] - 1].name)
    ensures var info := InfoTokensOf(top, nums, names, blocks);
            5 * x + 5 <= |info|
            && info[5 * x..5 * x + 5]
               == InfoTokens(x, top[nums[x] - 1].pointer, FirstCharge(blocks, k), FirstState(blocks, k),
                             NumAtoms(blocks[k]), |blocks[k]|)
    ensures forall s: nat, a: nat :: s < |blocks[k]| && a < |blocks[k][s].charges| ==> ChargeLocated(blocks, k, s, a)
    ensures forall s: nat :: s < |blocks[k]| ==> StateLocated(blocks, k, s)
  {
    StateInfoEntry(top, nums, names, blocks, x);
    BlockDataLocated(blocks, k);
  }

  /** CHRGDAT holds charge `a` of state `s` of block `k` at FIRST_CHARGE + s * NUM_ATOMS + a. */
  predicate ChargeLocated(blocks: seq<seq<StateRecord>>, k: nat, s: nat, a: nat)
    requires k < |blocks| && s < |blocks[k]| && a < |blocks[k][s].charges|
  {
    var i := FirstCharge(blocks, k) + s * NumAtoms(blocks[k]) + a;
    i < |ChargeTokens(blocks)| && ChargeTokens(blocks)[i] == blocks[k][s].charges[a] + ","
  }

  /** PROTCNT and STATENE hold the proton count and the energy of state `s` of block `k` at FIRST_STATE + s. */
  predicate StateLocated(blocks: seq<seq<StateRecord>>, k: nat, s: nat)
    requires k < |blocks| && s < |blocks[k]|
  {
    var i := FirstState(blocks, k) + s;
    i < |ProtonTokens(blocks)| && i < |EnergyTokens(blocks)|
    && ProtonTokens(blocks)[i] == NatStr(blocks[k][s].protons) + ","
    && EnergyTokens(blocks)[i] == blocks[k][s].energy + ","
  }

  /** The offsets of block `k` locate its charges, proton counts and energies. */
  lemma BlockDataLocated(blocks: seq<seq<StateRecord>>, k: nat)
    requires k < |blocks| && forall j :: 0 <= j < |blocks| ==> Uniform(blocks[j])
    ensures forall s: nat, a: nat :: s < |blocks[k]| && a < |blocks[k][s].charges| ==> ChargeLocated(blocks, k, s, a)
    ensures forall s: nat :: s < |blocks[k]| ==> StateLocated(blocks, k, s)
  {
    forall s: nat, a: nat | s < |blocks[k]| && a < |blocks[k][s].charges|
      ensures ChargeLocated(blocks, k, s, a)
    {
      ChargeTokensIndex(blocks, k, s, a);
    }
    forall s: nat | s < |blocks[k]|
      ensures StateLocated(blocks, k, s)
    {
      StateTokensAligned(blocks, k, s);
    }
  }

  // ---------------------------------------------------------------------------
  // A worked example

  /** The topology ALA, GLU, AS4, TYR with its first atoms. */
  const SmallTopology: seq<Residue> := [Residue("ALA", "1"), Residue("GLU", "11"), Residue("AS4", "26"), Residue("TYR", "38")]

  /** Reference data with two states of two atoms for AS4 and for TYR. */
  const SmallTable: map<string, seq<StateRecord>> :=
    map["AS4" := [StateRecord("0.0", 0, ["-0.5", "0.1"]), StateRecord("26.8", 1, ["0.2", "0.4"])],
        "TYR" := [StateRecord("0.0", 1, ["-0.3", "0.3"]), StateRecord("-65.1", 0, ["-0.6", "0.1"])]]

  /** The selected residues 3 and 4 carry the distinct names AS4 and TYR, in that order. */
  lemma SmallTopologyNames()
    ensures Labels(SmallTopology) == ["ALA", "GLU", "AS4", "TYR"]
    ensures Dedup(NamesOf(Labels(SmallTopology), [3, 4])) == ["AS4", "TYR"]
  {
    var labels := Labels(SmallTopology);
    assert labels == ["ALA", "GLU", "AS4", "TYR"];
    var ns := NamesOf(labels, [3, 4]);
    assert ns == ["AS4", "TYR"];
    assert ns[..1] == ["AS4"];
    assert Dedup(ns[..1]) == ["AS4"];
  }

  /** On the small topology every built-in name selects AS4 and TYR, the residues numbered 3 and 4. */
  lemma SmallSelection(active: string)
    requires BuiltinActive(active)
    ensures Select(Labels(SmallTopology), active, AllResidues) == Ok([3, 4])
  {
    SmallTopologyExamples(active);
    SmallTopologyNames();
  }

  /** On the small topology with every built-in name active, the default run succeeds. */
  lemma SmallDefaultRun(active: string)
    requires BuiltinActive(active)
    ensures Run(SmallTopology, active, AllResidues, [], SmallTable).error == None
  {
    SmallSelection(active);
    SmallTopologyNames();
    RunIsNamelist(SmallTopology, active, AllResidues, [], SmallTable);
    TwoDefaultStates();
    NamelistSucceedsExactly(SmallTopology, [3, 4], [0, 0], SmallTable);
    SmallDataFits();
  }

  lemma SmallDataFits()
    ensures DataFits(SmallTopology, [3, 4], [0, 0], SmallTable)
  {
    SmallTopologyNames();
    assert SmallTopology[2].name == "AS4" && SmallTopology[3].name == "TYR";
  }

  /** Without reference data for TYR the run stops with CHRGDAT. */
  lemma SmallMissingRun(active: string)
    requires BuiltinActive(active)
    ensures Run(SmallTopology, active, AllResidues, [], SmallTable - {"TYR"}).error == Some(MissingReferenceData("TYR"))
  {
    SmallSelection(active);
    RunIsNamelist(SmallTopology, active, AllResidues, [], SmallTable - {"TYR"});
    TwoDefaultStates();
    SmallMissing([3, 4]);
  }

  /** The initial state 2 of TYR, which has two states, stops the run at RESSTATE. */
  lemma SmallBadStateRun(active: string)
    requires BuiltinActive(active)
    ensures Run(SmallTopology, active, AllResidues, [0, 2], SmallTable).error == Some(StateOutOfRange(1, 2))
  {
    SmallSelection(active);
    RunIsNamelist(SmallTopology, active, AllResidues, [0, 2], SmallTable);
    assert InitialStates([0, 2], 2) == Ok([0, 2]);
    SmallBadState([3, 4]);
  }

  /** A single initial state for two selected residues stops the run before the header. */
  lemma SmallShortStatesRun(active: string)
    requires BuiltinActive(active)
    ensures Run(SmallTopology, active, AllResidues, [0], SmallTable) == Outcome([], Some(StateCountMismatch(1, 2)))
  {
    SmallSelection(active);
  }

  /** With the default criteria (all built-in names, pKa bounds -100 and 100), the small topology yields a namelist. */
  lemma SmallTopologyDefaultRun()
    ensures Cpin(SmallTopology, Criteria(BuiltinSet, AllResidues, -100.0, 100.0, []), SmallTable).error == None
  {
    DefaultBoundsKeepAll(BuiltinSet);
    TitratableBuiltinActive();
    SmallDefaultRun(Titratable);
  }

  lemma TwoDefaultStates()
    ensures InitialStates([], 2) == Ok([0, 0])
  {
    var r := InitialStates([], 2);
    assert r.value[0] == 0 && r.value[1] == 0;
    assert r.value == [0, 0];
  }

  lemma SmallMissing(nums: seq<int>)
    requires nums == [3, 4]
    ensures Namelist(SmallTopology, nums, [0, 0], SmallTable - {"TYR"}).error == Some(MissingReferenceData("TYR"))
  {
    SmallTopologyNames();
    var table := SmallTable - {"TYR"};
    var names := ["AS4", "TYR"];
    assert FirstMissing(names[1..], table) == 0;
    assert FirstMissing(names, table) == 1;
  }

  lemma SmallBadState(nums: seq<int>)
    requires nums == [3, 4]
    ensures Namelist(SmallTopology, nums, [0, 2], SmallTable).error == Some(StateOutOfRange(1, 2))
  {
    SmallTopologyNames();
    var labels := Labels(SmallTopology);
    var names := ["AS4", "TYR"];
    assert FirstMissing(names, SmallTable) == 2;
    var blocks := BlocksOf(names, SmallTable);
    DistinctNamesCover(labels, nums);
    assert FirstIndex(names, "AS4") == 0 && FirstIndex(names, "TYR") == 1;
    assert BlockFor(labels, nums, names, blocks, 0) == SmallTable["AS4"];
    assert BlockFor(labels, nums, names, blocks, 1) == SmallTable["TYR"];
    assert FirstBadState(labels, nums, names, blocks, [0, 2], 1) == 1;
    assert FirstBadState(labels, nums, names, blocks, [0, 2], 0) == 1;
  }

  // ---------------------------------------------------------------------------
  // The loops of the script

  /** The RESNAME loop of lines 331-335. */
  method ResidueNames(labels: seq<string>, nums: seq<int>) returns (tokens: seq<string>)
    requires InTopology(labels, nums)
    ensures tokens == ResnameTokens(labels, nums)
  {
    tokens := [];
    for x := 0 to |nums|
      invariant tokens == ResnameTokens(labels, nums)[..x]
    {
      var toadd := "'Residue: ";
      toadd := toadd + labels[nums[x] - 1] + " " + NatStr(nums[x]) + "',";
      tokens := tokens + [toadd];
    }
  }

  /** Distinct names: the only name equal to a residue's label is the one whose block `BlockFor` picks. */
  lemma MatchingNameBlock(labels: seq<string>, nums: seq<int>, names: seq<string>, blocks: seq<seq<StateRecord>>,
                          x: nat, y: nat)
    requires Covers(labels, nums, names) && NoDuplicates(names) && |blocks| == |names| && x < |nums|
    requires y < |names| && names[y] == labels[nums[x] - 1]
    ensures BlockFor(labels, nums, names, blocks, x) == blocks[y]
  {
    var k := FirstIndex(names, labels[nums[x] - 1]);
    assert names[k] == names[y];
  }

  lemma StateTokensSnoc(states: seq<int>, i: nat)
    requires i < |states|
    ensures StateTokens(states[..i + 1]) == StateTokens(states[..i]) + [IntStr(states[i]) + ","]
  {
    assert states[..i + 1] == states[..i] + [states[i]];
  }

  /**
   * The RESSTATE loop of lines 343-351: for each residue, check its state
   * against the block of every distinct name equal to its label, then add
   * its token. Stops at the first residue that fails.
   */
  method CheckStates(labels: seq<string>, nums: seq<int>, names: seq<string>, blocks: seq<seq<StateRecord>>,
                     states: seq<int>) returns (bad: nat, tokens: seq<string>)
    requires Covers(labels, nums, names) && NoDuplicates(names) && |blocks| == |names| && |states| == |nums|
    ensures bad == FirstBadState(labels, nums, names, blocks, states, 0)
    ensures bad <= |nums| && tokens == StateTokens(states[..bad])
  {
    tokens := [];
    bad := 0;
    while bad < |nums|
      invariant bad <= |nums|
      invariant forall x :: 0 <= x < bad ==> StateInRange(states[x], BlockFor(labels, nums, names, blocks, x))
      invariant tokens == StateTokens(states[..bad])
    {
      var resLabel := labels[nums[bad] - 1];
      for y := 0 to |names|
        invariant forall j :: 0 <= j < y && names[j] == resLabel ==> StateInRange(states[bad], blocks[j])
      {
        if names[y] == resLabel && (states[bad] < 0 || states[bad] >= |blocks[y]|) {
          MatchingNameBlock(labels, nums, names, blocks, bad, y);
          return;
        }
      }
      MatchingNameBlock(labels, nums, names, blocks, bad, FirstIndex(names, resLabel));
      StateTokensSnoc(states, bad);
      tokens := tokens + [IntStr(states[bad]) + ","];
      bad := bad + 1;
    }
  }

  /** The STATEINF loop of lines 359-383. */
  method StateInfo(top: seq<Residue>, nums: seq<int>, names: seq<string>, blocks: seq<seq<StateRecord>>)
      returns (tokens: seq<string>)
    requires Covers(Labels(top), nums, names) && |blocks| == |names|
    ensures tokens == InfoTokensOf(top, nums, names, blocks)
  {
    var parts := InfoParts(top, nums, names, blocks);
    tokens := [];
    for x := 0 to |nums|
      invariant tokens == Concat(parts[..x])
    {
      var residue := top[nums[x] - 1];
      var entry := [InfoToken(x, "FIRST_ATOM", residue.pointer)];
      var startchrg, startst, natm, nst := BlockOffsets(names, blocks, residue.name);
      entry := entry + [InfoToken(x, "FIRST_CHARGE", NatStr(startchrg))];
      entry := entry + [InfoToken(x, "FIRST_STATE", NatStr(startst))];
      entry := entry + [InfoToken(x, "NUM_ATOMS", NatStr(natm))];
      entry := entry + [InfoToken(x, "NUM_STATES", NatStr(nst))];
      assert entry == InfoTokens(x, residue.pointer, startchrg, startst, natm, nst) == parts[x];
      ConcatSnoc(parts, x);
      tokens := tokens + entry;
    }
    assert parts[..|nums|] == parts;
  }

  /** Lines 286 and 298-407, once every name's reference data is found. */
  method WriteFields(top: seq<Residue>, nums: seq<int>, names: seq<string>, blocks: seq<seq<StateRecord>>,
                     states: seq<int>) returns (out: seq<string>, error: Option<Error>)
    requires Covers(Labels(top), nums, names) && NoDuplicates(names) && |blocks| == |names| && |states| == |nums|
    ensures Outcome(out, error) == Fields(top, nums, names, blocks, states)
  {
    var labels := Labels(top);
    out := [Header];
    var chrg := ChargeData(blocks);
    var lines := EmitField(ChargePrefix, chrg);
    out := out + lines;
    var prot := ProtonCounts(blocks);
    lines := EmitField(ProtonPrefix, prot);
    out := out + lines;
    var resn := ResidueNames(labels, nums);
    lines := EmitField(ResnamePrefix, resn);
    out := out + lines;
    var bad, stateTokens := CheckStates(labels, nums, names, blocks, states);
    if bad < |nums| {
      var emitted, _ := FeedTokens(StatePrefix, stateTokens);
      return out + emitted, Some(StateOutOfRange(bad, states[bad]));
    }
    assert states[..bad] == states;
    lines := EmitField(StatePrefix, stateTokens);
    out := out + lines;
    var info := StateInfo(top, nums, names, blocks);
    lines := EmitField(InfoPrefix, info);
    out := out + lines;
    var ene := StateEnergies(blocks);
    lines := EmitField(EnergyPrefix, ene);
    out := out + lines;
    out := out + [TrescntLine(|nums|), Footer];
    error := None;
  }

  /** Lines 286-407: the header, the reference data of each distinct name, then the fields. */
  method WriteNamelist(top: seq<Residue>, nums: seq<int>, states: seq<int>, table: map<string, seq<StateRecord>>)
      returns (out: seq<string>, error: Option<Error>)
    requires InTopology(Labels(top), nums) && |states| == |nums|
    ensures Outcome(out, error) == Namelist(top, nums, states, table)
  {
    var labels := Labels(top);
    var names := TitratedNames(labels, nums);
    var blocks: seq<seq<StateRecord>> := [];
    var k := 0;
    while k < |names| && names[k] in table
      invariant k <= |names| && forall j :: 0 <= j < k ==> names[j] in table
      invariant blocks == BlocksOf(names[..k], table)
    {
      blocks := blocks + [table[names[k]]];
      k := k + 1;
    }
    assert k == FirstMissing(names, table);
    if k < |names| {
      var chrg := ChargeData(blocks);
      var emitted, _ := FeedTokens(ChargePrefix, chrg);
      return [Header] + emitted, Some(MissingReferenceData(names[k]));
    }
    assert names[..k] == names;
    DistinctNamesCover(labels, nums);
    out, error := WriteFields(top, nums, names, blocks, states);
  }

  /** The script from the selection (line 217) to the end of the namelist. */
  method WriteSelected(top: seq<Residue>, active: string, numbers: NumberFilter, given: seq<int>,
                       table: map<string, seq<StateRecord>>) returns (out: seq<string>, error: Option<Error>)
    requires top != []
    ensures Outcome(out, error) == Run(top, active, numbers, given, table)
  {
    var labels := Labels(top);
    var sel := SelectResidues(labels, active, numbers);
    if sel.Err? {
      return [], Some(sel.error);
    }
    var init := DefaultStates(given, |sel.value|);
    if init.Err? {
      return [], Some(init.error);
    }
    SelectInTopology(labels, active, numbers);
    out, error := WriteNamelist(top, sel.value, init.value, table);
  }

  /** The script from the residue check of line 173 to the end of the namelist. */
  method WriteCpin(top: seq<Residue>, crit: Criteria, table: map<string, seq<StateRecord>>)
      returns (out: seq<string>, error: Option<Error>)
    ensures Outcome(out, error) == Cpin(top, crit, table)
  {
    if |top| == 0 {
      return [], Some(NoResidueInfo);
    }
    var active := BuildTitrateResidues(crit.names, crit.minPka, crit.maxPka);
    out, error := WriteSelected(top, active, crit.numbers, crit.states, table);
  }
}
