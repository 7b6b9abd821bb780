# cpinutil: the constant-pH input generator, modelled in Dafny

`cpinutil.py` turns a topology (the residue labels and residue pointers of a
prmtop file) plus selection criteria into the `&CNSTPH` namelist that a
constant-pH simulation reads. This project models the script from the
residue check onwards. It covers:

- the active name string `titrate_residues`, which is shaped by `-resname`,
  `-notresname` and the pKa bounds;
- the residue selection: the explicit `-resnum` numbers when that list is
  non-empty, otherwise a scan of the topology; then the empty check and
  `-notresnum`;
- the distinct titrated names, and the reference data (`getData`) for each;
- the initial states (`-states`, or all zeros);
- the `addOn` line filler, which wraps a field at 80 columns;
- the fields `CHRGDAT`, `PROTCNT`, `RESNAME`, `RESSTATE`, `STATEINF`
  (`FIRST_ATOM`, `FIRST_CHARGE`, `FIRST_STATE`, `NUM_ATOMS`, `NUM_STATES`),
  `STATENE` and `TRESCNT`, then the closing `/`.

A run is a value of type `Outcome`: the lines printed on standard output and
the error that stopped the run, if any. Two errors strike while the namelist
is being printed: a name without reference data, and a state out of range.
Both leave behind the lines already printed, exactly as the script does.

Files:

- `outcomes.dfy`: `Option`, `Result` and the script's error conditions.
- `text.dfy`: the Python string operations the script relies on, stated
  literally:
  - `x in s` is substring containment;
  - `string.replace(s, x, '')` deletes every occurrence of `x`;
  - `strip()`;
  - `str()` of an integer.
- `wrap.dfy`: `addOn` and the printed lines of one field.
- `selection.dfy`: the name string, the pKa filter, the residue selection
  and the distinct names.
- `offsets.dfy`: the reference-data records, the `FIRST_CHARGE` and
  `FIRST_STATE` offsets, and the `CHRGDAT`, `PROTCNT` and `STATENE` token
  lists.
- `cpin.dfy`: the whole run as functions (`Namelist`, `Run`, `Cpin`), its
  properties, a worked example, and the imperative script (`WriteCpin`)
  proved equal to `Cpin`.

Each loop of the script is a `method` with a `while` or `for` loop. Each
such method is proved equal to a specification function, and the
properties are proved about those functions.

## Model

| member | source | states |
|---|---|---|
| Text.ContainsAt | cpinutil.py:237 | `name in s` holds exactly when `name` starts at some position of `s` |
| Text.ContainsInConcat | cpinutil.py:81 | a name found in part of a string is found in the whole string |
| Text.ContainsAcrossSpace | cpinutil.py:81 | a space-free name found in `a + " " + b` lies wholly in `a` or wholly in `b` |
| Text.JoinWordsContains | cpinutil.py:28 | among space-joined words that have a space-free name's length or are empty (where a name was deleted), the name is a substring exactly when it is one of the words |
| Text.RemoveAroundChar | cpinutil.py:98 | a character that cannot be part of the deleted name splits `replace`: the text on each side of it is handled on its own |
| Text.RemoveJoined | cpinutil.py:98 | on space-joined words of the name's length or empty, `replace(s, name, '')` blanks out exactly the words equal to the name and keeps all spaces |
| Text.RemovePadded | cpinutil.py:209 | whitespace around a string survives the deletion of a name without whitespace |
| Text.StripExact | cpinutil.py:209 | a string that neither starts nor ends with whitespace, padded with whitespace, strips back to itself |
| Text.StripParts | cpinutil.py:209 | every string is its strip with only whitespace before and after it |
| Text.StripTwice | cpinutil.py:209 | `strip()` applied twice gives the same as once |
| Text.ContainsStripped | cpinutil.py:209 | stripping does not change whether a name without whitespace is found in a string |
| Text.StripRemove | cpinutil.py:209 | deleting a name without whitespace and stripping gives the same whether or not the string was stripped first |
| Text.RemoveAll | cpinutil.py:98 | deleting a pattern never lengthens the string |
| Text.RemoveAllUnchanged | cpinutil.py:98 | `replace(s, x, '')` leaves `s` unchanged exactly when `x` does not occur in `s` |
| Text.RemoveLeadingPattern | cpinutil.py:209 | deleting a pattern from `pattern + s` gives the same result as deleting it from `s` |
| Text.StripLeftSpec | cpinutil.py:80 | the left strip is a suffix of the input; it does not start with whitespace, and only whitespace was cut |
| Text.StripRightSpec | cpinutil.py:80 | the right strip is a prefix of the input; it does not end with whitespace, and only whitespace was cut |
| Text.StripSpec | cpinutil.py:80 | `strip()` returns a slice of the input with no whitespace at either end; everything cut was whitespace |
| Text.StripLeadingSpace | cpinutil.py:209 | stripping `" " + t` gives `t` when `t` has no whitespace at either end |
| Text.NatStr | cpinutil.py:334 | `str(n)` is a non-empty string of digits with no leading zero |
| Text.IntStr | cpinutil.py:350 | `str(i)` is the digits of the magnitude, preceded by `-` when `i` is negative |
| Text.ParseNatStr | cpinutil.py:401 | reading back the digits of `str(n)` gives `n` |
| Text.NatStrInjective | cpinutil.py:334 | different numbers are printed differently |
| Wrap.AddOn | cpinutil.py:11-18 | a token is appended when line plus token fit in 80 columns; otherwise the line is printed and the new line is a space and the token |
| Wrap.Fill | cpinutil.py:11-18 | feeding `n` tokens prints at most `n` lines |
| Wrap.LinesFirst | cpinutil.py:298 | the first printed line of a field starts with the field's prefix |
| Wrap.LinesContinued | cpinutil.py:16 | every later line of a field starts with a space |
| Wrap.RejoinLines | cpinutil.py:11-18 | the printed lines, each continuation without its leading space, concatenate to the prefix and all tokens in order: nothing lost, nothing repeated |
| Wrap.BreakBetweenTokens | cpinutil.py:14-16 | the first `n` lines of a field end between two whole tokens |
| Wrap.LinesBreakBetweenTokens | cpinutil.py:14-16 | no line break ever splits a token |
| Wrap.LinesWidth | cpinutil.py:14 | a printed line exceeds 80 columns only when it is the prefix alone, or a space and a single token that is too long on its own |
| Wrap.FeedTokens | cpinutil.py:307-310 | the loop of `addOn` calls prints exactly the lines of `Fill` and leaves its working line |
| Wrap.EmitField | cpinutil.py:298-312 | a field prints `Lines(prefix, tokens)`: the lines `addOn` prints, then the last working line |
| Selection.BuiltinNamesPlain | cpinutil.py:28 | each built-in name is a three-letter word without spaces |
| Selection.TitratableWords | cpinutil.py:28 | the built-in string is the six built-in names joined by single spaces |
| Selection.TitratableMembership | cpinutil.py:237 | under the defaults, a three-letter label without spaces is titratable exactly when it is a built-in name |
| Selection.PartialLabelIsActive | cpinutil.py:237 | the substring test also admits a label such as `AS` that is not a built-in name |
| Selection.ListedNamesActive | cpinutil.py:77-82 | every non-empty stripped piece given to `-resname` is in the resulting name string |
| Selection.ListedNames | cpinutil.py:75-82 | the `-resname` string: each non-empty stripped piece, in the order given, followed by one space |
| Selection.ListedNamesWords | cpinutil.py:75-82 | the `-resname` string is the listed names joined by single spaces and ending in a space; a plain label is in it exactly when some stripped piece equals it |
| Selection.ListNames | cpinutil.py:75-82 | the `-resname` loop builds `ListedNames`: each non-empty stripped piece followed by a space |
| Selection.WithoutNames | cpinutil.py:94-99 | the `-notresname` string: each non-empty stripped piece in turn is deleted from the built-in string with `string.replace` |
| Selection.WithoutNamesWords | cpinutil.py:94-99 | on space-joined names, each listed plain name blanks out its word; a plain label survives exactly when it was a word and no piece lists it |
| Selection.NotResnameMembership | cpinutil.py:94-99 | when the pieces are plain names, a plain label is in the `-notresname` string exactly when it is a built-in name that no stripped piece equals |
| Selection.DropNames | cpinutil.py:94-99 | the `-notresname` loop deletes each non-empty stripped piece from the built-in string |
| Selection.DropFirstWord | cpinutil.py:209 | deleting the first of several distinct words, then stripping, leaves the other words joined |
| Selection.PkaFiltered | cpinutil.py:203-209 | the intended pKa filter: for each built-in name in turn, a name whose pKa is out of bounds and that occurs in the string is deleted, and the string is stripped |
| Selection.TitrateResidues | cpinutil.py:198-209 | the final `titrate_residues`: the string the name options leave, through the intended pKa filter over the six built-in names and pKa values |
| Selection.PkaFilteredPruned | cpinutil.py:203-209 | the `strip()` calls and the presence test of the filter change only the whitespace at either end, compared with deleting each out-of-bounds name in turn |
| Selection.PrunedWords | cpinutil.py:207-209 | on space-joined names, deleting the out-of-bounds names blanks out exactly their words |
| Selection.PkaFilterWords | cpinutil.py:203-209 | on space-joined plain names, a plain label is found after the filter exactly when it was a word and no name equal to it has its pKa out of bounds |
| Selection.PkaFilterMembership | cpinutil.py:198-209 | with neither name option, a plain label is active after the filter exactly when it is a built-in name whose reference pKa lies within the bounds |
| Selection.ActiveNames | cpinutil.py:69-209 | for each kind of name option (listed plain names), a plain label is active exactly when the option admits it and no built-in name equal to it has its pKa out of bounds; a listed name outside the built-in set stays |
| Selection.PkaFilterKeepsRange | cpinutil.py:207 | names whose reference pKa is within the bounds leave the name string unchanged |
| Selection.DefaultBoundsKeepAll | cpinutil.py:40-41 | with the default bounds -100 and 100, the pKa filter changes nothing |
| Selection.PkaStepDrops | cpinutil.py:207-209 | a name out of bounds that leads the string is deleted, and the string is stripped |
| Selection.PkaDropsFirstTwo | cpinutil.py:203-209 | when exactly the first two of several distinct names are out of bounds, the filter leaves the others |
| Selection.PkaFilterDropsAcidic | cpinutil.py:198-209 | the corrected filter with bounds 5.0 and 11.0 drops AS4 (4.0) and GL4 (4.4) and leaves `HIP TYR LYS CYS` |
| Selection.PkaFilterAsWrittenNeverFilters | cpinutil.py:207-209 | the filter as written stops with a TypeError exactly when some pKa is out of bounds; otherwise it leaves the string unchanged |
| Selection.PkaFilterAsWrittenFails | cpinutil.py:208 | as written, bounds 5.0 and 11.0 stop the script with a TypeError |
| Selection.FilterByPka | cpinutil.py:203-209 | the pKa loop computes `PkaFiltered` |
| Selection.BuildTitrateResidues | cpinutil.py:32 | the name string after the name options and the pKa filter is `TitrateResidues` |
| Selection.ResidueIndexAsWritten | cpinutil.py:221-226 | Python's `prmtop_residues[n - 1]` reads a label for every `n` from `1 - count` to `count` |
| Selection.ResidueZeroReadsLast | cpinutil.py:221-226 | as written, residue number 0 passes the range check and reads the last label |
| Selection.NumberCheck | cpinutil.py:221-229 | an explicit number is accepted exactly when it is within 1 to the residue count and its label is in the name string |
| Selection.FirstRejected | cpinutil.py:220-229 | the first explicit number that fails the check; all numbers before it pass |
| Selection.ByNumbers | cpinutil.py:219-231 | explicit numbers succeed exactly when each one passes, and then yield themselves, in the order given and with repeats; an error names a failing number |
| Selection.SelectGiven | cpinutil.py:219-231 | the explicit-number loop computes `ByNumbers` |
| Selection.Matching | cpinutil.py:235-238 | the default scan: the 1-based numbers of the residues whose label is in the name string, in topology order |
| Selection.MatchingSpec | cpinutil.py:235-238 | the scan yields 1-based, strictly ascending numbers: exactly those whose label is in the name string |
| Selection.MatchingAppend | cpinutil.py:236-238 | scanning one more residue appends its number exactly when its label is in the name string |
| Selection.ScanTopology | cpinutil.py:235-238 | the scan loop computes `Matching` |
| Selection.RemoveFirstAt | cpinutil.py:249-252 | `pop` removes the first occurrence of the value, and nothing else |
| Selection.RemoveFirstAbsent | cpinutil.py:249-252 | a value that is not selected removes nothing |
| Selection.RemoveEach | cpinutil.py:248-252 | `-notresnum`: each excluded value in turn removes its first occurrence from the selection |
| Selection.RemoveEachSpec | cpinutil.py:248-252 | `-notresnum` removes one occurrence of each excluded value (a multiset difference) and keeps the order of the rest |
| Selection.SubseqAscending | cpinutil.py:248-252 | what remains of an ascending selection is ascending |
| Selection.ExcludeNumbers | cpinutil.py:248-252 | the exclusion loop computes `RemoveEach` |
| Selection.SelectInTopology | cpinutil.py:219-252 | every selected number names a residue of the topology |
| Selection.Select | cpinutil.py:219-252 | the selection in the script's order: the explicit numbers when the list is non-empty, else the scan; then the empty check; then `-notresnum` |
| Selection.SelectExplicit | cpinutil.py:219-238 | with a non-empty `-resnum` list the selection is the first number error or the numbers themselves; an empty list selects exactly as if the option were absent |
| Selection.SelectScanned | cpinutil.py:235-252 | without explicit numbers (no `-resnum`, or an empty list), a scanned selection fails exactly when the scan finds nothing; otherwise it is the scan minus the excluded values, as a multiset, in ascending order |
| Selection.ExclusionCanEmptySelection | cpinutil.py:242-252 | because exclusion comes after the empty check, it can leave an empty selection |
| Selection.SelectResidues | cpinutil.py:219-252 | the selection code computes `Select` |
| Selection.NamesOf | cpinutil.py:260 | the label of each selected residue, position by position |
| Selection.Dedup | cpinutil.py:258-269 | the distinct names: each label is appended unless already present |
| Selection.DedupSpec | cpinutil.py:258-269 | the distinct names hold no duplicates and the same names as the input, in order of first occurrence |
| Selection.TitratedNames | cpinutil.py:258-269 | the name loop with its `present` search computes `Dedup` |
| Selection.SmallTopologyScan | cpinutil.py:235-238 | on ALA, GLU, AS4, TYR, the scan with any name string holding the built-in names selects 3 and 4 |
| Selection.SmallTopologyExamples | cpinutil.py:219-238 | on ALA, GLU, AS4, TYR: the defaults select [3, 4], `-resnum 3` selects [3], `-resnum 2` fails, citing GLU, and `-resnum` without numbers selects [3, 4] |
| Offsets.FirstCharge | cpinutil.py:366-375 | `FIRST_CHARGE` of the `k`-th distinct name: atoms times states, summed over the earlier names' blocks |
| Offsets.FirstState | cpinutil.py:366-375 | `FIRST_STATE` of the `k`-th distinct name: the states of the earlier names' blocks, summed |
| Offsets.ChargeTokens | cpinutil.py:300-310 | the CHRGDAT tokens: every charge of every record, block by block |
| Offsets.BlockOffsets | cpinutil.py:366-375 | the offset loop yields `FIRST_CHARGE` and `FIRST_STATE` (the sums over the earlier distinct names) and `NUM_ATOMS` and `NUM_STATES` of the name's block |
| Offsets.StatesOfIndex | cpinutil.py:318-323 | state `s` of the `k`-th block sits at `FIRST_STATE + s` in the list of all states |
| Offsets.StateTokensAligned | cpinutil.py:316-325 | PROTCNT and STATENE hold state `s` of block `k` at position `FIRST_STATE + s`, and both have one token per state |
| Offsets.BlockChargesIndex | cpinutil.py:307-310 | within one block, charge `a` of state `s` comes at `s * NUM_ATOMS + a` |
| Offsets.ChargeTokensIndex | cpinutil.py:300-310 | CHRGDAT holds charge `a` of state `s` of block `k` at `FIRST_CHARGE + s * NUM_ATOMS + a` |
| Offsets.ChargeRangeFits | cpinutil.py:374 | the charges of block `k` fit inside CHRGDAT, which has `FIRST_CHARGE` of the end tokens |
| Offsets.FirstChargeMonotone | cpinutil.py:374 | `FIRST_CHARGE` never decreases along the distinct names |
| Offsets.ChargeData | cpinutil.py:300-310 | the CHRGDAT loop yields every charge of every record, block by block |
| Offsets.ProtonCounts | cpinutil.py:318-323 | the PROTCNT loop yields every record's proton count |
| Offsets.StateEnergies | cpinutil.py:392-395 | the STATENE loop yields every record's energy |
| Offsets.InitialStates | cpinutil.py:274-281 | a `-states` list is accepted exactly when it is empty or has one state per residue, and is then kept as given; an empty list becomes all zeros; a mismatch reports both counts |
| Offsets.DefaultStates | cpinutil.py:274-281 | the check and the filling loop compute `InitialStates` |
| Offsets.StateRangeBoundary | cpinutil.py:346 | state `NUM_STATES - 1` is accepted, while `NUM_STATES` and -1 are rejected |
| Offsets.EmptyBlockRejects | cpinutil.py:346 | a block without states accepts no state |
| Cpin.FirstMissing | cpinutil.py:300-305 | the first distinct name without reference data; all earlier names have data |
| Cpin.DistinctNamesCover | cpinutil.py:258-269 | every selected residue's label is among the distinct names, and these are distinct |
| Cpin.FirstBadState | cpinutil.py:343-349 | the first residue whose initial state is outside its block's range; all earlier residues are within range |
| Cpin.SelectErrorsEarly | cpinutil.py:219-244 | the selection only fails before the header is printed |
| Cpin.SilentExactlyOnEarlyErrors | cpinutil.py:173-286 | a run prints nothing exactly when it stops before line 286; otherwise its output starts with `&CNSTPH` |
| Cpin.NamelistShape | cpinutil.py:286 | the namelist always prints the header, and fails only on missing data or a bad state |
| Cpin.BlockForLabel | cpinutil.py:343-345 | the block chosen through the first matching distinct name is the table's block for the residue's own label |
| Cpin.MatchingNameBlock | cpinutil.py:344-346 | the only distinct name equal to a residue's label is the one whose block is checked |
| Cpin.NamelistSucceedsExactly | cpinutil.py:292-349 | the namelist is complete exactly when every selected residue's label has reference data and its initial state lies within that data's states |
| Cpin.Fields | cpinutil.py:298-407 | the namelist once every name has data: the seven fields and `/`, or the fields up to a partial RESSTATE when a state is out of range |
| Cpin.Namelist | cpinutil.py:286-407 | the header, then the missing-data check inside CHRGDAT, then `Fields` |
| Cpin.Run | cpinutil.py:173-286 | the residue check, the selection, the state count, each error stopping the run before any output, then `Namelist` |
| Cpin.Cpin | cpinutil.py:173-407 | the whole run: `Run` over the name string that the name options and the pKa filter leave |
| Cpin.RunIsNamelist | cpinutil.py:173-286 | once the early checks pass, the run is the namelist of the selection and its initial states |
| Cpin.RunSucceedsExactly | cpinutil.py:173-407 | a run completes exactly when the topology has residues, the selection and the state count succeed, and the data fits every selected residue |
| Cpin.NamelistSuccessShape | cpinutil.py:401-407 | a complete namelist starts with `&CNSTPH` and ends with the TRESCNT line and `/` |
| Cpin.SuccessfulRunShape | cpinutil.py:401-407 | a complete run starts with `&CNSTPH` and ends with `TRESCNT=<number of selected residues>,` and `/` |
| Cpin.TrescntReadsBack | cpinutil.py:401 | the TRESCNT line holds the residue count in digits, and reading them back gives the count |
| Cpin.StateInfoEntry | cpinutil.py:359-383 | the STATEINF tokens of residue `x` are the five tokens at positions `5x` to `5x + 4` |
| Cpin.StateInfoLocatesData | cpinutil.py:357-386 | residue `x`'s STATEINF names its first atom and its block's offsets and sizes; these offsets locate that block's charges in CHRGDAT and its proton counts and energies in PROTCNT and STATENE |
| Cpin.BlockDataLocated | cpinutil.py:300-323 | the offsets of block `k` locate its charges, proton counts and energies |
| Cpin.ResidueNames | cpinutil.py:331-335 | the RESNAME loop yields `'Residue: <label> <number>',` for each selected residue |
| Cpin.CheckStates | cpinutil.py:343-351 | the RESSTATE loop stops at the first residue with a bad state, having gathered the tokens of the states before it |
| Cpin.StateInfo | cpinutil.py:359-383 | the STATEINF loop yields the five tokens of each selected residue in turn |
| Cpin.WriteFields | cpinutil.py:298-407 | once every name has data, the script prints `Fields`: the header, the seven fields, `/`, or stops at the first bad state |
| Cpin.WriteNamelist | cpinutil.py:286-407 | from the header on, the script prints `Namelist`, stopping at the first name without data |
| Cpin.WriteSelected | cpinutil.py:219-407 | from the selection on, the script computes `Run` |
| Cpin.WriteCpin | cpinutil.py:173-407 | the whole script computes `Cpin` |
| Cpin.SmallDefaultRun | cpinutil.py:286-407 | on ALA, GLU, AS4, TYR, with data for AS4 and TYR, the default run completes |
| Cpin.SmallMissingRun | cpinutil.py:300-305 | without data for TYR, the run stops with CHRGDAT, citing TYR |
| Cpin.SmallBadStateRun | cpinutil.py:343-349 | states [0, 2] stop the run at RESSTATE on residue 1, whose block has two states |
| Cpin.SmallShortStatesRun | cpinutil.py:274-277 | one state for two selected residues stops the run before the header, reporting 1 and 2 |
| Cpin.SmallTopologyDefaultRun | cpinutil.py:28-41 | the default criteria (every built-in name, bounds -100 and 100) complete the run on the small topology |

## Left out

- Command-line parsing (lines 21-147) is left out. `Criteria` holds the parsed values, so two checks cannot arise:
  - `-resname` together with `-notresname` (lines 70-73, 88-91);
  - `-resnum` together with `-notresnum` (lines 105-108, 122-125).

  `NameFilter` and `NumberFilter` each hold only one of their two options.
- Converting numbers, states and pKa bounds from text with `int` and `float` (lines 181-196) is left out. `Criteria` holds integers and reals.
- Checking that the topology file exists, reading it, and the radius-set and igb warnings (lines 152-170) are file I/O and are left out.
- The two topology lists (lines 160-161) are one sequence of `Residue` pairs. Labels and pointers of different lengths cannot be represented.
- `getData` lives in `cpin_data.py`, which is not part of this model. Its result for the chosen igb model is a parameter: a table from residue name to records, in which a name may be missing.
- Charges and energies are the text that `str()` gives for them. Float formatting is not modelled.
- Messages on standard error are left out: the error texts and `CPin created!` (line 409). A stopped run carries an `Error` value instead.
- `-system` is read (line 60), but line 329 always writes `System: Unknown`. The model writes that constant as well.
- `running_titration_curve.py` is not part of this model.
- Each field's tokens are gathered first and then wrapped by one `Fill`. This prints the same lines as calling `addOn` once per token inside the loop (`Wrap.FeedTokens`).
- The missing-data test of lines 303-305 is a separate pass (`Cpin.FirstMissing`) before CHRGDAT is emitted. The output and the error are the same as the test inside the loop.
- Cpin.CheckStates: requires distinct names. The names passed to it always come from `Dedup`, which guarantees this (`Selection.DedupSpec`).
- Selection.PkaFiltered: requires non-empty names. `split()` on line 200 never yields an empty word.
- Offsets.NumAtoms: an empty block is given 0 atoms. The script would fail on `resdata[y][0]` there, but the state check rejects every residue whose block is empty first (`Offsets.EmptyBlockRejects`).
- Behaviours of the code that a reader may not expect, all followed by the model:
  - an empty `-resnum` list (the option followed directly by another option, or by nothing but commas) is treated as no `-resnum` at all, because line 219 tests the length of the list (`Selection.SelectExplicit`);
  - the exclusion of `-notresnum` values comes after the empty check, so an empty selection can remain (`Selection.ExclusionCanEmptySelection`);
  - explicit `-resnum` numbers may repeat;
  - missing reference data and bad states stop the run after part of the namelist is printed, not before any output.

## Findings

| source | as written | input that shows it | evidently intended | confidence | as-written member | corrected member |
|---|---|---|---|---|---|---|
| cpinutil.py:208-209 | the pKa filter tests `titrate_pka_holder[x] in titrate_residues`, a float on the left of `in` on a string, which raises a TypeError | `-minpKa 5` (AS4 has pKa 4.0) | delete the out-of-range name `titrate_name_holder[x]`, then strip | not executed | Selection.PkaFilterAsWrittenFails | Selection.PkaFilterDropsAcidic |
| cpinutil.py:221-226 | `-resnum` is only checked against the upper bound, so residue 0 reads `prmtop_residues[-1]`, the last label | `-resnum 0` on ALA, GLU, AS4, TYR is accepted as TYR | reject numbers below 1 | not executed | Selection.ResidueZeroReadsLast | Selection.NumberCheck |
