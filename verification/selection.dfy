/**
 * Residue selection of the cpin script: the string of active titratable
 * names (`titrate_residues`), the residue numbers picked from the topology
 * (`titrated_residue_nums`), the numbers excluded afterwards, and the
 * de-duplicated list of the picked residues' names (`titrated_residue_names`).
 *
 * Name membership is Python's `name in titrate_residues`, i.e. substring
 * containment in a space-separated string, and is modelled as such.
 */
module Selection {
  import opened Outcomes
  import opened Text

  /** The residue names the script can titrate, as one space-separated string. */
  const Titratable: string := "AS4 GL4 HIP TYR LYS CYS"

  /** The same names one by one, and their reference pKa values, position by position. */
  const BuiltinNames: seq<string> := ["AS4", "GL4", "HIP", "TYR", "LYS", "CYS"]
  const BuiltinPkas: seq<real> := [4.0, 4.4, 6.5, 9.6, 10.4, 8.55]

  /** `-resname` and `-notresname` exclude each other, so a name criterion is one of three kinds. */
  datatype NameFilter =
    | BuiltinSet                       // neither option: every built-in name
    | OnlyNames(names: seq<string>)    // -resname: the comma-separated pieces given
    | ExceptNames(names: seq<string>)  // -notresname: the comma-separated pieces given

  /** `-resnum` and `-notresnum` exclude each other, so a number criterion is one of three kinds. */
  datatype NumberFilter =
    | AllResidues                      // neither option: scan the whole topology
    | OnlyNumbers(numbers: seq<int>)   // -resnum; an empty list scans, as with neither option
    | ExceptNumbers(numbers: seq<int>) // -notresnum

  /** Three characters, none of them whitespace: the shape of every built-in name. */
  predicate PlainWord(v: string) {
    |v| == 3 && !IsSpace(v[0]) && !IsSpace(v[1]) && !IsSpace(v[2])
  }

  lemma BuiltinNamesPlain()
    ensures forall i :: 0 <= i < |BuiltinNames| ==> PlainWord(BuiltinNames[i])
  {
    assert PlainWord("AS4") && PlainWord("GL4") && PlainWord("HIP");
    assert PlainWord("TYR") && PlainWord("LYS") && PlainWord("CYS");
  }

  lemma TitratableWords()
    ensures Titratable == JoinWords(BuiltinNames)
  {
    var ns := BuiltinNames;
    assert ns[1..][1..][1..][1..][1..] == ["CYS"];
    assert ns[1..][1..][1..][1..] == ["LYS", "CYS"];
    assert ns[1..][1..][1..] == ["TYR", "LYS", "CYS"];
    assert ns[1..][1..] == ["HIP", "TYR", "LYS", "CYS"];
    assert ns[1..] == ["GL4", "HIP", "TYR", "LYS", "CYS"];
  }

  /**
   * A three-letter label without spaces (the form of the built-in names) is
   * contained in the titratable string exactly when it is one of the
   * built-in names: for such labels substring membership is word membership.
   */
  lemma TitratableMembership(name: string)
    requires PlainWord(name)
    ensures Contains(Titratable, name) <==> name in BuiltinNames
  {
    assert ' ' !in name by {
      assert forall k :: 0 <= k < 3 ==> name[k] != ' ';
    }
    JoinedMembership(name);
    TitratableWords();
  }

  lemma JoinedMembership(name: string)
    requires |name| == 3 && ' ' !in name
    ensures Contains(JoinWords(BuiltinNames), name) <==> name in BuiltinNames
  {
    assert forall w :: w in BuiltinNames ==> |w| == 3 by {
      BuiltinNamesPlain();
    }
    JoinWordsContains(BuiltinNames, name);
  }

  /** Membership is by substring, so a label that is only part of a built-in name is active too. */
  lemma PartialLabelIsActive()
    ensures Contains(Titratable, "AS") && "AS" !in BuiltinNames
  {
    assert StartsWith(Titratable, "AS");
  }

  // ---------------------------------------------------------------------------
  // The active name string

  /** `-resname`: each listed piece, stripped, followed by one space; empty pieces are skipped. */
  function ListedNames(pieces: seq<string>): string
    decreases |pieces|
  {
    if pieces == [] then ""
    else
      var n := Strip(pieces[|pieces| - 1]);
      ListedNames(pieces[..|pieces| - 1]) + (if |n| != 0 then n + " " else "")
  }

  /** `-notresname`: each listed piece, stripped, deleted from `s` with `str.replace`; empty pieces are skipped. */
  function WithoutNames(s: string, pieces: seq<string>): string
    decreases |pieces|
  {
    if pieces == [] then s
    else
      var n := Strip(pieces[|pieces| - 1]);
      var t := WithoutNames(s, pieces[..|pieces| - 1]);
      if |n| != 0 then RemoveAll(t, n) else t
  }

  /** The name string the command line leaves before the pKa filter. */
  function NamesString(filter: NameFilter): string {
    match filter
    case BuiltinSet => Titratable
    case OnlyNames(pieces) => ListedNames(pieces)
    case ExceptNames(pieces) => WithoutNames(Titratable, pieces)
  }

  /** Names as `str.split()` yields them: none is empty. */
  predicate NonEmptyWords(names: seq<string>) {
    forall i :: 0 <= i < |names| ==> |names[i]| > 0
  }

  lemma BuiltinNamesNonEmpty()
    ensures NonEmptyWords(BuiltinNames)
  {
    BuiltinNamesPlain();
  }

  /** A reference pKa outside `[minPka, maxPka]`. */
  predicate OutOfBounds(pka: real, minPka: real, maxPka: real) {
    pka < minPka || pka > maxPka
  }

  /**
   * The pKa filter over the first `count` names of a name list and its pKa
   * list, as evidently intended: a name whose pKa is out of bounds and that
   * occurs in the string is deleted from it, and the result is stripped.
   */
  function PkaFiltered(s: string, names: seq<string>, pkas: seq<real>, minPka: real, maxPka: real, count: nat): string
    requires count <= |names| && count <= |pkas| && NonEmptyWords(names)
    decreases count
  {
    if count == 0 then s
    else
      var t := PkaFiltered(s, names, pkas, minPka, maxPka, count - 1);
      var name := names[count - 1];
      if OutOfBounds(pkas[count - 1], minPka, maxPka) && Contains(t, name) then Strip(RemoveAll(t, name)) else t
  }

  /** The final `titrate_residues` string that residue labels are tested against. */
  function TitrateResidues(filter: NameFilter, minPka: real, maxPka: real): string {
    BuiltinNamesNonEmpty();
    PkaFiltered(NamesString(filter), BuiltinNames, BuiltinPkas, minPka, maxPka, |BuiltinNames|)
  }

  /**
   * The pKa filter as written: its test `pka in titrate_residues` puts a
   * float on the left of `in` on a string, which raises a TypeError the
   * first time a pKa is out of bounds; otherwise nothing changes.
   */
  function PkaFilterAsWritten(s: string, pkas: seq<real>, minPka: real, maxPka: real, count: nat): (r: Result<string>)
    requires count <= |pkas|
    decreases count
  {
    if count == 0 then Ok(s)
    else
      match PkaFilterAsWritten(s, pkas, minPka, maxPka, count - 1)
      case Err(e) => Err(e)
      case Ok(t) => if OutOfBounds(pkas[count - 1], minPka, maxPka) then Err(PkaTypeError) else Ok(t)
  }

  /** As written, the pKa filter never removes a name: it either changes nothing or stops the script. */
  lemma {:induction false} PkaFilterAsWrittenNeverFilters(s: string, pkas: seq<real>, minPka: real, maxPka: real,
                                                          count: nat)
    requires count <= |pkas|
    ensures PkaFilterAsWritten(s, pkas, minPka, maxPka, count) ==
              if exists i :: 0 <= i < count && OutOfBounds(pkas[i], minPka, maxPka) then Err(PkaTypeError) else Ok(s)
    decreases count
  {
    if count > 0 {
      PkaFilterAsWrittenNeverFilters(s, pkas, minPka, maxPka, count - 1);
    }
  }

  /** Names whose pKa is inside the bounds leave the string as it is. */
  lemma {:induction false} PkaFilterKeepsRange(s: string, names: seq<string>, pkas: seq<real>, minPka: real,
                                               maxPka: real, from: nat, count: nat)
    requires from <= count <= |names| && count <= |pkas| && NonEmptyWords(names)
    requires forall i :: from <= i < count ==> !OutOfBounds(pkas[i], minPka, maxPka)
    ensures PkaFiltered(s, names, pkas, minPka, maxPka, count) == PkaFiltered(s, names, pkas, minPka, maxPka, from)
    decreases count
  {
    if count > from {
      PkaFilterKeepsRange(s, names, pkas, minPka, maxPka, from, count - 1);
    }
  }

  /** The default bounds, -100 and 100, keep every built-in name. */
  lemma DefaultBoundsKeepAll(filter: NameFilter)
    ensures TitrateResidues(filter, -100.0, 100.0) == NamesString(filter)
  {
    var pkas := BuiltinPkas;
    BuiltinNamesNonEmpty();
    assert forall i :: 0 <= i < |pkas| ==> -100.0 <= pkas[i] <= 100.0;
    PkaFilterKeepsRange(NamesString(filter), BuiltinNames, pkas, -100.0, 100.0, 0, |BuiltinNames|);
  }

  /** Every non-empty name given to `-resname` is active. */
  lemma {:induction false} ListedNamesActive(pieces: seq<string>, i: nat)
    requires i < |pieces| && |Strip(pieces[i])| > 0
    ensures Contains(ListedNames(pieces), Strip(pieces[i]))
    decreases |pieces|
  {
    var last := |pieces| - 1;
    var n := Strip(pieces[last]);
    var front := ListedNames(pieces[..last]);
    if i == last {
      ContainsInConcat(n, " ", n);
      assert StartsWith(n, n);
      ContainsInConcat(front, n + " ", n);
    } else {
      assert pieces[..last][i] == pieces[i];
      ListedNamesActive(pieces[..last], i);
      ContainsInConcat(front, if |n| != 0 then n + " " else "", Strip(pieces[i]));
    }
  }

  /** Deleting the first word of a list of distinct three-letter words, then stripping, leaves the other words. */
  lemma DropFirstWord(w: string, rest: seq<string>)
    requires PlainWord(w) && rest != [] && w !in rest
    requires forall v :: v in rest ==> PlainWord(v)
    ensures Strip(RemoveAll(JoinWords([w] + rest), w)) == JoinWords(rest)
  {
    var tail := JoinWords(rest);
    assert JoinWords([w] + rest) == w + " " + tail by {
      assert ([w] + rest)[1..] == rest;
    }
    RemoveLeadingPattern(w, " " + tail);
    assert w + " " + tail == w + (" " + tail);
    JoinWordsContains(rest, w);
    ContainsAfterSpace(tail, w);
    RemoveAllUnchanged(" " + tail, w);
    JoinWordsEnds(rest);
    StripLeadingSpace(tail);
  }

  /** A joined list of words without surrounding spaces neither starts nor ends with a space. */
  lemma {:induction false} JoinWordsEnds(ws: seq<string>)
    requires ws != []
    requires forall v :: v in ws ==> PlainWord(v)
    ensures var j := JoinWords(ws); |j| > 0 && !IsSpace(j[0]) && !IsSpace(j[|j| - 1])
    decreases |ws|
  {
    assert PlainWord(ws[0]);
    if |ws| > 1 {
      assert forall v :: v in ws[1..] ==> v in ws;
      JoinWordsEnds(ws[1..]);
    }
  }

  /** One step of the intended pKa filter that removes the leading word of the string. */
  lemma PkaStepDrops(s: string, names: seq<string>, pkas: seq<real>, minPka: real, maxPka: real, i: nat,
                     rest: seq<string>)
    requires i < |names| && i < |pkas| && NonEmptyWords(names) && OutOfBounds(pkas[i], minPka, maxPka)
    requires PkaFiltered(s, names, pkas, minPka, maxPka, i) == JoinWords([names[i]] + rest)
    requires PlainWord(names[i]) && rest != [] && names[i] !in rest
    requires forall v :: v in rest ==> PlainWord(v)
    ensures PkaFiltered(s, names, pkas, minPka, maxPka, i + 1) == JoinWords(rest)
  {
    var w := names[i];
    var t := PkaFiltered(s, names, pkas, minPka, maxPka, i);
    DropFirstWord(w, rest);
    assert forall v :: v in [w] + rest ==> |v| == |w|;
    JoinWordsContains([w] + rest, w);
    assert Contains(t, w);
  }

  lemma BasicWords()
    ensures BuiltinNames[2..] == ["HIP", "TYR", "LYS", "CYS"]
    ensures JoinWords(BuiltinNames[2..]) == "HIP TYR LYS CYS"
  {
    var ns: seq<string> := ["HIP", "TYR", "LYS", "CYS"];
    assert ns[1..][1..][1..] == ["CYS"];
    assert JoinWords(ns[1..][1..]) == "LYS CYS" by {
      assert ns[1..][1..] == ["LYS", "CYS"];
    }
    assert JoinWords(ns[1..]) == "TYR LYS CYS" by {
      assert ns[1..] == ["TYR", "LYS", "CYS"];
    }
  }

  /**
   * Bounds 5.0 and 11.0 drop AS4 (pKa 4.0) and GL4 (pKa 4.4) from the
   * built-in set and keep HIP, TYR, LYS and CYS.
   */
  lemma PkaFilterDropsAcidic()
    ensures TitrateResidues(BuiltinSet, 5.0, 11.0) == "HIP TYR LYS CYS"
  {
    TitratableWords();
    BasicWords();
    BuiltinNamesPlain();
    BuiltinNamesNonEmpty();
    BuiltinNamesDistinct();
    AcidicBounds();
    PkaDropsFirstTwo(Titratable, BuiltinNames, BuiltinPkas, 5.0, 11.0);
  }

  lemma BuiltinNamesDistinct()
    ensures NoDuplicates(BuiltinNames)
  {
    var ns := BuiltinNames;
    assert ns[0] == "AS4" && ns[1] == "GL4" && ns[2] == "HIP" && ns[3] == "TYR" && ns[4] == "LYS" && ns[5] == "CYS";
  }

  /** Only the first two reference pKa values fall outside 5.0 and 11.0. */
  lemma AcidicBounds()
    ensures OutOfBounds(BuiltinPkas[0], 5.0, 11.0) && OutOfBounds(BuiltinPkas[1], 5.0, 11.0)
    ensures forall i :: 2 <= i < |BuiltinPkas| ==> !OutOfBounds(BuiltinPkas[i], 5.0, 11.0)
  {
  }

  /** When exactly the first two of at least three distinct words are out of bounds, the filter leaves the others. */
  lemma PkaDropsFirstTwo(s: string, names: seq<string>, pkas: seq<real>, minPka: real, maxPka: real)
    requires |names| == |pkas| >= 3 && NonEmptyWords(names) && NoDuplicates(names)
    requires forall i :: 0 <= i < |names| ==> PlainWord(names[i])
    requires s == JoinWords(names)
    requires OutOfBounds(pkas[0], minPka, maxPka) && OutOfBounds(pkas[1], minPka, maxPka)
    requires forall i :: 2 <= i < |pkas| ==> !OutOfBounds(pkas[i], minPka, maxPka)
    ensures PkaFiltered(s, names, pkas, minPka, maxPka, |names|) == JoinWords(names[2..])
  {
    var rest1 := names[1..];
    var rest2 := names[2..];
    assert names == [names[0]] + rest1;
    assert rest1 == [names[1]] + rest2;
    assert forall v :: v in rest1 ==> PlainWord(v);
    assert names[0] !in rest1;
    assert names[1] !in rest2;
    PkaStepDrops(s, names, pkas, minPka, maxPka, 0, rest1);
    PkaStepDrops(s, names, pkas, minPka, maxPka, 1, rest2);
    PkaFilterKeepsRange(s, names, pkas, minPka, maxPka, 2, |names|);
  }

  /** The same bounds stop the code as written with a TypeError. */
  lemma PkaFilterAsWrittenFails()
    ensures PkaFilterAsWritten(Titratable, BuiltinPkas, 5.0, 11.0, |BuiltinPkas|) == Err(PkaTypeError)
  {
    PkaFilterAsWrittenNeverFilters(Titratable, BuiltinPkas, 5.0, 11.0, |BuiltinPkas|);
    assert OutOfBounds(BuiltinPkas[0], 5.0, 11.0);
  }

  // ---------------------------------------------------------------------------
  // Which names the name string holds

  /**
   * Word lists in the shape of a name string: three-letter words, and empty
   * words where a name was deleted (leaving two spaces side by side) or
   * where `-resname` left its trailing space.
   */
  predicate Slots(ws: seq<string>) {
    forall w :: w in ws ==> |w| == 3 || |w| == 0
  }

  /** Name-option pieces that, once stripped, are empty or plain three-letter words. */
  predicate PlainPieces(pieces: seq<string>) {
    forall i :: 0 <= i < |pieces| ==> |Strip(pieces[i])| == 0 || PlainWord(Strip(pieces[i]))
  }

  /** Some piece, once stripped, is `w`. */
  predicate Listed(pieces: seq<string>, w: string) {
    exists i :: 0 <= i < |pieces| && Strip(pieces[i]) == w
  }

  lemma PlainNoSpace(w: string)
    requires PlainWord(w)
    ensures |w| > 0 && NoSpace(w) && ' ' !in w
  {
    assert forall k :: 0 <= k < |w| ==> !IsSpace(w[k]);
  }

  lemma {:induction false} ListedFront(pieces: seq<string>, w: string)
    requires pieces != []
    ensures Listed(pieces, w) <==> Listed(pieces[..|pieces| - 1], w) || Strip(pieces[|pieces| - 1]) == w
    ensures PlainPieces(pieces) ==> PlainPieces(pieces[..|pieces| - 1])
  {
    var front := pieces[..|pieces| - 1];
    assert forall i :: 0 <= i < |front| ==> front[i] == pieces[i];
    if Listed(pieces, w) && Strip(pieces[|pieces| - 1]) != w {
      var i :| 0 <= i < |pieces| && Strip(pieces[i]) == w;
      assert front[i] == pieces[i];
    }
  }

  /** Blanking a word keeps the shape, and removes exactly that word. */
  lemma BlankMembers(ws: seq<string>, n: string)
    requires Slots(ws)
    ensures Slots(Blank(ws, n))
    ensures forall w :: w != "" ==> (w in Blank(ws, n) <==> w in ws && w != n)
  {
    var b := Blank(ws, n);
    forall w | w != "" ensures w in b <==> w in ws && w != n {
      if w in b {
        var i :| 0 <= i < |b| && b[i] == w;
      }
      if w in ws && w != n {
        var i :| 0 <= i < |ws| && ws[i] == w;
        assert b[i] == w;
      }
    }
  }

  /** Deleting a plain name from joined names blanks out its word and no other. */
  lemma BlankStep(ws: seq<string>, n: string) returns (vs: seq<string>)
    requires Slots(ws) && PlainWord(n)
    ensures Slots(vs) && RemoveAll(JoinWords(ws), n) == JoinWords(vs)
    ensures forall w :: PlainWord(w) ==> (w in vs <==> w in ws && w != n)
  {
    PlainNoSpace(n);
    RemoveJoined(ws, n);
    BlankMembers(ws, n);
    vs := Blank(ws, n);
  }

  /**
   * The `-notresname` deletions on joined names: each listed name blanks
   * its word, and a plain word survives exactly when it was there and no
   * piece lists it.
   */
  lemma {:induction false} WithoutNamesWords(ws: seq<string>, pieces: seq<string>) returns (vs: seq<string>)
    requires Slots(ws) && PlainPieces(pieces)
    ensures Slots(vs) && WithoutNames(JoinWords(ws), pieces) == JoinWords(vs)
    ensures forall w :: PlainWord(w) ==> (w in vs <==> w in ws && !Listed(pieces, w))
    decreases |pieces|
  {
    if pieces == [] {
      vs := ws;
    } else {
      var front := pieces[..|pieces| - 1];
      var n := Strip(pieces[|pieces| - 1]);
      forall w ensures Listed(pieces, w) <==> Listed(front, w) || n == w {
        ListedFront(pieces, w);
      }
      ListedFront(pieces, "");
      var before := WithoutNamesWords(ws, front);
      if |n| == 0 {
        vs := before;
      } else {
        vs := BlankStep(before, n);
      }
    }
  }

  /**
   * `-notresname` with plain names: a plain label stays active exactly when
   * it is a built-in name that no piece lists.
   */
  lemma NotResnameMembership(pieces: seq<string>, w: string)
    requires PlainPieces(pieces) && PlainWord(w)
    ensures Contains(WithoutNames(Titratable, pieces), w) <==>
              w in BuiltinNames && forall i :: 0 <= i < |pieces| ==> Strip(pieces[i]) != w
  {
    BuiltinSlots();
    var vs := WithoutNamesWords(BuiltinNames, pieces);
    PlainNoSpace(w);
    JoinWordsContains(vs, w);
  }

  lemma BuiltinSlots()
    ensures Slots(BuiltinNames) && Titratable == JoinWords(BuiltinNames)
  {
    BuiltinNamesPlain();
    TitratableWords();
  }

  /**
   * The `-resname` string is the listed names joined by single spaces,
   * ending in an empty word for the trailing space.
   */
  lemma {:induction false} ListedNamesWords(pieces: seq<string>) returns (vs: seq<string>)
    requires PlainPieces(pieces)
    ensures Slots(vs) && ListedNames(pieces) == JoinWords(vs) && vs != [] && vs[|vs| - 1] == ""
    ensures forall w :: PlainWord(w) ==> (w in vs <==> Listed(pieces, w))
    decreases |pieces|
  {
    if pieces == [] {
      vs := [""];
    } else {
      var front := pieces[..|pieces| - 1];
      var n := Strip(pieces[|pieces| - 1]);
      forall w ensures Listed(pieces, w) <==> Listed(front, w) || n == w {
        ListedFront(pieces, w);
      }
      ListedFront(pieces, "");
      var before := ListedNamesWords(front);
      if |n| == 0 {
        vs := before;
      } else {
        vs := ListedStep(before, n);
      }
    }
  }

  /** A `-resname` string with one more plain name appended is again joined words ending in an empty word. */
  lemma ListedStep(before: seq<string>, n: string) returns (vs: seq<string>)
    requires Slots(before) && before != [] && before[|before| - 1] == "" && PlainWord(n)
    ensures Slots(vs) && JoinWords(before) + n + " " == JoinWords(vs) && vs != [] && vs[|vs| - 1] == ""
    ensures forall w :: PlainWord(w) ==> (w in vs <==> w in before || w == n)
  {
    var names := before[..|before| - 1];
    assert before == names + [""];
    vs := names + [n] + [""];
    AppendListed(names, n);
  }

  /** One more listed name after the others, with the trailing space moving behind it. */
  lemma AppendListed(names: seq<string>, n: string)
    ensures JoinWords(names + [""]) + n + " " == JoinWords(names + [n] + [""])
    ensures forall w :: w in names + [n] + [""] <==> w in names + [""] || w == n
  {
    if names == [] {
      assert names + [n] + [""] == [n, ""];
    } else {
      JoinWordsSnoc(names, "");
      JoinWordsSnoc(names, n);
      JoinWordsSnoc(names + [n], "");
    }
  }

  /** No name equal to `w` among the first `count` has its pKa out of bounds. */
  predicate InBoundsAs(names: seq<string>, pkas: seq<real>, minPka: real, maxPka: real, count: nat, w: string)
    requires count <= |names| && count <= |pkas|
  {
    forall i :: 0 <= i < count ==> !(names[i] == w && OutOfBounds(pkas[i], minPka, maxPka))
  }

  lemma InBoundsStep(names: seq<string>, pkas: seq<real>, minPka: real, maxPka: real, count: nat, w: string)
    requires 0 < count <= |names| && count <= |pkas|
    ensures InBoundsAs(names, pkas, minPka, maxPka, count, w) <==>
              InBoundsAs(names, pkas, minPka, maxPka, count - 1, w)
              && !(names[count - 1] == w && OutOfBounds(pkas[count - 1], minPka, maxPka))
  {
  }

  /** The pKa filter without its `strip()` calls and its presence test: each out-of-bounds name deleted in turn. */
  function Pruned(s: string, names: seq<string>, pkas: seq<real>, minPka: real, maxPka: real, count: nat): string
    requires count <= |names| && count <= |pkas| && NonEmptyWords(names)
    decreases count
  {
    if count == 0 then s
    else
      var t := Pruned(s, names, pkas, minPka, maxPka, count - 1);
      if OutOfBounds(pkas[count - 1], minPka, maxPka) then RemoveAll(t, names[count - 1]) else t
  }

  /** The `strip()` calls and the presence test of the pKa filter change nothing but surrounding whitespace. */
  lemma {:induction false} PkaFilteredPruned(s: string, names: seq<string>, pkas: seq<real>, minPka: real,
                                             maxPka: real, count: nat)
    requires count <= |names| && count <= |pkas| && NonEmptyWords(names)
    requires forall i :: 0 <= i < |names| ==> NoSpace(names[i])
    ensures Strip(PkaFiltered(s, names, pkas, minPka, maxPka, count)) == Strip(Pruned(s, names, pkas, minPka, maxPka, count))
    decreases count
  {
    if count > 0 {
      PkaFilteredPruned(s, names, pkas, minPka, maxPka, count - 1);
      var t := PkaFiltered(s, names, pkas, minPka, maxPka, count - 1);
      var p := Pruned(s, names, pkas, minPka, maxPka, count - 1);
      var n := names[count - 1];
      if OutOfBounds(pkas[count - 1], minPka, maxPka) {
        if Contains(t, n) {
          StripTwice(RemoveAll(t, n));
          StripRemove(t, n);
          StripRemove(p, n);
        } else {
          ContainsStripped(t, n);
          ContainsStripped(p, n);
          RemoveAllUnchanged(p, n);
        }
      }
    }
  }

  /** The deletions of the pKa filter on joined names blank out exactly the out-of-bounds names. */
  lemma {:induction false} PrunedWords(ws: seq<string>, names: seq<string>, pkas: seq<real>, minPka: real,
                                       maxPka: real, count: nat) returns (vs: seq<string>)
    requires count <= |names| && count <= |pkas| && NonEmptyWords(names)
    requires forall i :: 0 <= i < |names| ==> PlainWord(names[i])
    requires Slots(ws)
    ensures Slots(vs) && Pruned(JoinWords(ws), names, pkas, minPka, maxPka, count) == JoinWords(vs)
    ensures forall w :: PlainWord(w) ==> (w in vs <==> w in ws && InBoundsAs(names, pkas, minPka, maxPka, count, w))
    decreases count
  {
    if count == 0 {
      vs := ws;
    } else {
      var before := PrunedWords(ws, names, pkas, minPka, maxPka, count - 1);
      var n := names[count - 1];
      forall w ensures InBoundsAs(names, pkas, minPka, maxPka, count, w) <==>
                         InBoundsAs(names, pkas, minPka, maxPka, count - 1, w)
                         && !(n == w && OutOfBounds(pkas[count - 1], minPka, maxPka)) {
        InBoundsStep(names, pkas, minPka, maxPka, count, w);
      }
      if OutOfBounds(pkas[count - 1], minPka, maxPka) {
        vs := BlankStep(before, n);
      } else {
        vs := before;
      }
    }
  }

  /**
   * The pKa filter on joined names, for plain names: a plain label is found
   * afterwards exactly when it was one of the words and no name equal to it
   * has its pKa out of bounds.
   */
  lemma PkaFilterWords(ws: seq<string>, names: seq<string>, pkas: seq<real>, minPka: real, maxPka: real, w: string)
    requires |names| == |pkas| && NonEmptyWords(names) && Slots(ws) && PlainWord(w)
    requires forall i :: 0 <= i < |names| ==> PlainWord(names[i])
    ensures Contains(PkaFiltered(JoinWords(ws), names, pkas, minPka, maxPka, |names|), w) <==>
              w in ws && forall i :: 0 <= i < |names| ==> !(names[i] == w && OutOfBounds(pkas[i], minPka, maxPka))
  {
    var s := JoinWords(ws);
    forall i | 0 <= i < |names| ensures NoSpace(names[i]) {
      PlainNoSpace(names[i]);
    }
    PlainNoSpace(w);
    PkaFilteredPruned(s, names, pkas, minPka, maxPka, |names|);
    ContainsStripped(PkaFiltered(s, names, pkas, minPka, maxPka, |names|), w);
    ContainsStripped(Pruned(s, names, pkas, minPka, maxPka, |names|), w);
    var vs := PrunedWords(ws, names, pkas, minPka, maxPka, |names|);
    JoinWordsContains(vs, w);
  }

  /**
   * The intended pKa filter on the built-in names: a plain label is active
   * exactly when it is a built-in name whose reference pKa lies within the
   * bounds.
   */
  lemma PkaFilterMembership(minPka: real, maxPka: real, w: string)
    requires PlainWord(w)
    ensures Contains(TitrateResidues(BuiltinSet, minPka, maxPka), w) <==>
              exists i :: 0 <= i < |BuiltinNames| && BuiltinNames[i] == w && !OutOfBounds(BuiltinPkas[i], minPka, maxPka)
  {
    BuiltinSlots();
    BuiltinNamesNonEmpty();
    BuiltinNamesDistinct();
    BuiltinNamesPlain();
    PkaFilterWords(BuiltinNames, BuiltinNames, BuiltinPkas, minPka, maxPka, w);
    DistinctBounds(BuiltinNames, BuiltinPkas, minPka, maxPka, w);
  }

  /** Among distinct names, "present and no equal name out of bounds" is "some equal name within bounds". */
  lemma DistinctBounds(names: seq<string>, pkas: seq<real>, minPka: real, maxPka: real, w: string)
    requires |names| == |pkas| && NoDuplicates(names)
    ensures (w in names && forall i :: 0 <= i < |names| ==> !(names[i] == w && OutOfBounds(pkas[i], minPka, maxPka)))
            <==> exists i :: 0 <= i < |names| && names[i] == w && !OutOfBounds(pkas[i], minPka, maxPka)
  {
    if w in names {
      var i :| 0 <= i < |names| && names[i] == w;
      assert forall j :: 0 <= j < |names| && names[j] == w ==> j == i;
    }
  }

  /** The plain labels each kind of name criterion admits, before the pKa filter. */
  ghost predicate Named(filter: NameFilter, w: string) {
    match filter
    case BuiltinSet => w in BuiltinNames
    case OnlyNames(pieces) => Listed(pieces, w)
    case ExceptNames(pieces) => w in BuiltinNames && !Listed(pieces, w)
  }

  /**
   * The final `titrate_residues` string, for name options that list plain
   * names: a plain label is active exactly when its name criterion admits
   * it and no built-in name equal to it has its pKa out of bounds. The pKa
   * filter only ever deletes built-in names, so a `-resname` label outside
   * the built-in set stays.
   */
  lemma ActiveNames(filter: NameFilter, minPka: real, maxPka: real, w: string)
    requires PlainWord(w) && (!filter.BuiltinSet? ==> PlainPieces(filter.names))
    ensures Contains(TitrateResidues(filter, minPka, maxPka), w) <==>
              Named(filter, w)
              && forall i :: 0 <= i < |BuiltinNames| ==> !(BuiltinNames[i] == w && OutOfBounds(BuiltinPkas[i], minPka, maxPka))
  {
    BuiltinSlots();
    BuiltinNamesNonEmpty();
    BuiltinNamesPlain();
    var ws;
    match filter {
      case BuiltinSet => ws := BuiltinNames;
      case OnlyNames(pieces) => ws := ListedNamesWords(pieces);
      case ExceptNames(pieces) => ws := WithoutNamesWords(BuiltinNames, pieces);
    }
    assert NamesString(filter) == JoinWords(ws);
    assert w in ws <==> Named(filter, w);
    PkaFilterWords(ws, BuiltinNames, BuiltinPkas, minPka, maxPka, w);
  }

  /** The `-resname` loop. */
  method ListNames(pieces: seq<string>) returns (s: string)
    ensures s == ListedNames(pieces)
  {
    s := "";
    for y := 0 to |pieces|
      invariant s == ListedNames(pieces[..y])
    {
      assert pieces[..y + 1][..y] == pieces[..y];
      var n := Strip(pieces[y]);
      if |n| != 0 {
        s := s + n + " ";
      }
    }
    assert pieces[..|pieces|] == pieces;
  }

  /** The `-notresname` loop. */
  method DropNames(pieces: seq<string>) returns (s: string)
    ensures s == WithoutNames(Titratable, pieces)
  {
    s := Titratable;
    for y := 0 to |pieces|
      invariant s == WithoutNames(Titratable, pieces[..y])
    {
      assert pieces[..y + 1][..y] == pieces[..y];
      var n := Strip(pieces[y]);
      if |n| != 0 {
        s := RemoveAll(s, n);
      }
    }
    assert pieces[..|pieces|] == pieces;
  }

  /** The pKa filter loop, in its intended form, over the names and their pKa values position by position. */
  method FilterByPka(named: string, names: seq<string>, pkas: seq<real>, minPka: real, maxPka: real)
      returns (s: string)
    requires |names| == |pkas| && NonEmptyWords(names)
    ensures s == PkaFiltered(named, names, pkas, minPka, maxPka, |names|)
  {
    s := named;
    var x := 0;
    while x < |names|
      invariant x <= |names|
      invariant s == PkaFiltered(named, names, pkas, minPka, maxPka, x)
    {
      var name := names[x];
      if OutOfBounds(pkas[x], minPka, maxPka) && Contains(s, name) {
        s := Strip(RemoveAll(s, name));
      }
      x := x + 1;
    }
  }

  /** `titrate_residues` from the name options, then the pKa filter. */
  method BuildTitrateResidues(filter: NameFilter, minPka: real, maxPka: real) returns (s: string)
    ensures s == TitrateResidues(filter, minPka, maxPka)
  {
    var named;
    match filter {
      case BuiltinSet => named := Titratable;
      case OnlyNames(pieces) => named := ListNames(pieces);
      case ExceptNames(pieces) => named := DropNames(pieces);
    }
    BuiltinNamesNonEmpty();
    s := FilterByPka(named, BuiltinNames, BuiltinPkas, minPka, maxPka);
  }

  // ---------------------------------------------------------------------------
  // Residue numbers

  /**
   * Which residue `labels[n - 1]` reads for `-resnum` value `n` as written:
   * the only check is `n > len(labels)`, and Python indexing lets 0 and
   * negative values count back from the end. None where the script stops
   * (the error message, or an IndexError below `1 - len(labels)`).
   */
  function ResidueIndexAsWritten(count: nat, n: int): (r: Option<nat>)
    ensures r.Some? ==> r.value < count
  {
    if n > count then None
    else if n >= 1 then Some(n - 1)
    else if count + n - 1 >= 0 then Some(count + n - 1)
    else None
  }

  /** As written, residue number 0 is accepted and reads the last residue of the topology. */
  lemma ResidueZeroReadsLast(count: nat)
    requires count > 0
    ensures ResidueIndexAsWritten(count, 0) == Some(count - 1)
    ensures forall n :: ResidueIndexAsWritten(count, n).Some? <==> 1 - count <= n <= count
  {
  }

  /** The checks one `-resnum` value passes: it names a residue (1 to the residue count) whose label is active. */
  function NumberCheck(labels: seq<string>, active: string, n: int): (e: Option<Error>)
    ensures e.None? <==> 1 <= n <= |labels| && Contains(active, labels[n - 1])
  {
    if n < 1 || n > |labels| then Some(ResidueOutOfRange(n))
    else if !Contains(active, labels[n - 1]) then Some(NotTitratable(n, labels[n - 1]))
    else None
  }

  /** The position of the first `-resnum` value at or after `from` that fails its check, or `|nums|`. */
  function FirstRejected(labels: seq<string>, active: string, nums: seq<int>, from: nat): (k: nat)
    requires from <= |nums|
    ensures from <= k <= |nums|
    ensures forall j :: from <= j < k ==> NumberCheck(labels, active, nums[j]).None?
    ensures k < |nums| ==> NumberCheck(labels, active, nums[k]).Some?
    decreases |nums| - from
  {
    if from == |nums| then from
    else if NumberCheck(labels, active, nums[from]).Some? then from
    else FirstRejected(labels, active, nums, from + 1)
  }

  /**
   * Explicit selection: the error of the first rejected number, or else the
   * numbers exactly as given, in the given order, duplicates included.
   */
  function ByNumbers(labels: seq<string>, active: string, nums: seq<int>): (r: Result<seq<int>>)
    ensures r.Ok? <==> forall i :: 0 <= i < |nums| ==> NumberCheck(labels, active, nums[i]).None?
    ensures r.Ok? ==> r.value == nums
    ensures r.Ok? ==> forall i :: 0 <= i < |nums| ==> 1 <= nums[i] <= |labels| && Contains(active, labels[nums[i] - 1])
    ensures r.Err? ==> exists i :: 0 <= i < |nums| && NumberCheck(labels, active, nums[i]) == Some(r.error)
  {
    var k := FirstRejected(labels, active, nums, 0);
    if k < |nums| then Err(NumberCheck(labels, active, nums[k]).value) else Ok(nums)
  }

  /** The `-resnum` loop: check each number in turn and append it. */
  method SelectGiven(labels: seq<string>, active: string, nums: seq<int>) returns (r: Result<seq<int>>)
    ensures r == ByNumbers(labels, active, nums)
  {
    var picked: seq<int> := [];
    for x := 0 to |nums|
      invariant picked == nums[..x]
      invariant forall j :: 0 <= j < x ==> NumberCheck(labels, active, nums[j]).None?
    {
      var n := nums[x];
      if n > |labels| || n < 1 {
        assert FirstRejected(labels, active, nums, 0) == x;
        return Err(ResidueOutOfRange(n));
      }
      if !Contains(active, labels[n - 1]) {
        assert FirstRejected(labels, active, nums, 0) == x;
        return Err(NotTitratable(n, labels[n - 1]));
      }
      picked := picked + [n];
    }
    assert nums[..|nums|] == nums;
    r := Ok(picked);
  }

  /** The default scan: the 1-based numbers of the residues whose label is active, in topology order. */
  function Matching(labels: seq<string>, active: string): seq<int>
    decreases |labels|
  {
    if labels == [] then []
    else
      var n := |labels|;
      Matching(labels[..n - 1], active) + (if Contains(active, labels[n - 1]) then [n] else [])
  }

  /**
   * The default scan selects exactly the residues whose label is active,
   * 1-based and strictly ascending.
   */
  lemma {:induction false} MatchingSpec(labels: seq<string>, active: string)
    ensures forall i :: 0 <= i < |Matching(labels, active)| ==>
              1 <= Matching(labels, active)[i] <= |labels|
    ensures forall i, j :: 0 <= i < j < |Matching(labels, active)| ==>
              Matching(labels, active)[i] < Matching(labels, active)[j]
    ensures forall n :: n in Matching(labels, active) <==> 1 <= n <= |labels| && Contains(active, labels[n - 1])
    decreases |labels|
  {
    if labels != [] {
      var n := |labels|;
      var front := labels[..n - 1];
      MatchingSpec(front, active);
      var m := Matching(front, active);
      var r := Matching(labels, active);
      assert forall k :: 0 <= k < n - 1 ==> front[k] == labels[k];
      if Contains(active, labels[n - 1]) {
        assert r == m + [n];
        assert forall i :: 0 <= i < |m| ==> r[i] == m[i];
        assert r[|m|] == n;
      } else {
        assert r == m;
      }
    }
  }

  /** Scanning one more residue appends its number when its label is active. */
  lemma MatchingAppend(labels: seq<string>, next: string, active: string)
    ensures Matching(labels + [next], active) ==
              Matching(labels, active) + (if Contains(active, next) then [|labels| + 1] else [])
  {
    assert (labels + [next])[..|labels|] == labels;
  }

  /** The scan loop over the topology. */
  method ScanTopology(labels: seq<string>, active: string) returns (nums: seq<int>)
    ensures nums == Matching(labels, active)
  {
    nums := [];
    for x := 0 to |labels|
      invariant nums == Matching(labels[..x], active)
    {
      assert labels[..x + 1][..x] == labels[..x];
      if Contains(active, labels[x]) {
        nums := nums + [x + 1];
      }
    }
    assert labels[..|labels|] == labels;
  }

  // ---------------------------------------------------------------------------
  // Excluding numbers

  /** `list.remove`-like deletion of the first occurrence of `m`, if any. */
  function RemoveFirst(s: seq<int>, m: int): seq<int>
    decreases |s|
  {
    if s == [] then [] else if s[0] == m then s[1..] else [s[0]] + RemoveFirst(s[1..], m)
  }

  /** Only the first occurrence goes: the result is `s` with position `i` cut out, `i` the first `m`. */
  lemma {:induction false} RemoveFirstAt(s: seq<int>, m: int, i: nat)
    requires i < |s| && s[i] == m && m !in s[..i]
    ensures RemoveFirst(s, m) == s[..i] + s[i + 1..]
    decreases i
  {
    if i > 0 {
      assert s[0] == s[..i][0];
      assert s[1..][..i - 1] == s[..i][1..];
      RemoveFirstAt(s[1..], m, i - 1);
      assert s[..i] == [s[0]] + s[1..][..i - 1];
    }
  }

  /** A number that is not selected leaves the selection unchanged. */
  lemma {:induction false} RemoveFirstAbsent(s: seq<int>, m: int)
    requires m !in s
    ensures RemoveFirst(s, m) == s
    decreases |s|
  {
    if s != [] {
      RemoveFirstAbsent(s[1..], m);
    }
  }

  /** The fold of the `-notresnum` loop: each value in turn removes its first occurrence. */
  function RemoveEach(s: seq<int>, ms: seq<int>): seq<int>
    decreases |ms|
  {
    if ms == [] then s else RemoveFirst(RemoveEach(s, ms[..|ms| - 1]), ms[|ms| - 1])
  }

  /** `a` is `b` with some elements deleted: the relative order of what remains is kept. */
  predicate IsSubseq(a: seq<int>, b: seq<int>)
    decreases |b|
  {
    a == [] || (b != [] && ((a[0] == b[0] && IsSubseq(a[1..], b[1..])) || IsSubseq(a, b[1..])))
  }

  lemma {:induction false} SubseqRefl(s: seq<int>)
    ensures IsSubseq(s, s)
    decreases |s|
  {
    if s != [] {
      SubseqRefl(s[1..]);
    }
  }

  lemma {:induction false} SubseqTrans(a: seq<int>, b: seq<int>, c: seq<int>)
    requires IsSubseq(a, b) && IsSubseq(b, c)
    ensures IsSubseq(a, c)
    decreases |c|
  {
    if a != [] {
      if IsSubseq(b, c[1..]) {
        SubseqTrans(a, b, c[1..]);
      } else if a[0] == b[0] && IsSubseq(a[1..], b[1..]) {
        SubseqTrans(a[1..], b[1..], c[1..]);
      } else {
        SubseqTrans(a, b[1..], c[1..]);
      }
    }
  }

  /** The elements of a subsequence come from the sequence. */
  lemma {:induction false} SubseqMembers(a: seq<int>, b: seq<int>)
    requires IsSubseq(a, b)
    ensures forall x :: x in a ==> x in b
    decreases |b|
  {
    if a != [] {
      assert b == [b[0]] + b[1..];
      if a[0] == b[0] && IsSubseq(a[1..], b[1..]) {
        SubseqMembers(a[1..], b[1..]);
        forall x | x in a
          ensures x in b
        {
          if x != a[0] {
            assert a == [a[0]] + a[1..];
          }
        }
      } else {
        SubseqMembers(a, b[1..]);
      }
    }
  }

  /** A subsequence of a strictly ascending sequence is strictly ascending. */
  lemma {:induction false} SubseqAscending(a: seq<int>, b: seq<int>)
    requires IsSubseq(a, b)
    requires forall i, j :: 0 <= i < j < |b| ==> b[i] < b[j]
    ensures forall x :: x in a ==> x in b
    ensures forall i, j :: 0 <= i < j < |a| ==> a[i] < a[j]
    decreases |b|
  {
    SubseqMembers(a, b);
    if a != [] {
      var t := b[1..];
      assert forall k :: 0 <= k < |t| ==> t[k] == b[k + 1];
      assert forall i, j :: 0 <= i < j < |t| ==> t[i] < t[j];
      if a[0] == b[0] && IsSubseq(a[1..], t) {
        SubseqAscending(a[1..], t);
        forall i, j | 0 <= i < j < |a|
          ensures a[i] < a[j]
        {
          assert a[j] == a[1..][j - 1];
          if i == 0 {
            assert a[j] in t;
          } else {
            assert a[i] == a[1..][i - 1];
          }
        }
      } else {
        SubseqAscending(a, t);
      }
    }
  }

  lemma {:induction false} RemoveFirstSubseq(s: seq<int>, m: int)
    ensures IsSubseq(RemoveFirst(s, m), s)
    decreases |s|
  {
    if s != [] {
      if s[0] == m {
        SubseqRefl(s[1..]);
        assert IsSubseq(RemoveFirst(s, m), s[1..]);
      } else {
        RemoveFirstSubseq(s[1..], m);
        assert RemoveFirst(s, m)[1..] == RemoveFirst(s[1..], m);
      }
    }
  }

  lemma {:induction false} RemoveFirstMultiset(s: seq<int>, m: int)
    ensures multiset(RemoveFirst(s, m)) == multiset(s) - multiset{m}
    decreases |s|
  {
    if s != [] {
      assert s == [s[0]] + s[1..];
      if s[0] != m {
        RemoveFirstMultiset(s[1..], m);
      }
    }
  }

  /**
   * Exclusion removes, for each excluded value, one occurrence (the first),
   * and nothing else: the multiset of the result is the selection minus the
   * excluded values, and the remaining numbers keep their relative order.
   */
  lemma RemoveEachSpec(s: seq<int>, ms: seq<int>)
    ensures multiset(RemoveEach(s, ms)) == multiset(s) - multiset(ms)
    ensures IsSubseq(RemoveEach(s, ms), s)
  {
    RemoveEachMultiset(s, ms);
    RemoveEachSubseq(s, ms);
  }

  lemma {:induction false} RemoveEachMultiset(s: seq<int>, ms: seq<int>)
    ensures multiset(RemoveEach(s, ms)) == multiset(s) - multiset(ms)
    decreases |ms|
  {
    if ms != [] {
      var front := ms[..|ms| - 1];
      var m := ms[|ms| - 1];
      RemoveEachMultiset(s, front);
      RemoveFirstMultiset(RemoveEach(s, front), m);
      assert ms == front + [m];
      MinusStep(multiset(s), multiset(front), m);
    }
  }

  lemma MinusStep(a: multiset<int>, f: multiset<int>, m: int)
    ensures a - f - multiset{m} == a - (f + multiset{m})
  {
    forall v ensures (a - f - multiset{m})[v] == (a - (f + multiset{m}))[v] {
    }
  }

  lemma {:induction false} RemoveEachSubseq(s: seq<int>, ms: seq<int>)
    ensures IsSubseq(RemoveEach(s, ms), s)
    decreases |ms|
  {
    if ms == [] {
      SubseqRefl(s);
    } else {
      var front := ms[..|ms| - 1];
      var r := RemoveEach(s, front);
      RemoveEachSubseq(s, front);
      RemoveFirstSubseq(r, ms[|ms| - 1]);
      SubseqTrans(RemoveFirst(r, ms[|ms| - 1]), r, s);
    }
  }

  /** The `-notresnum` loop: for each value, find its first occurrence, `pop` it and stop looking. */
  method ExcludeNumbers(nums: seq<int>, notNums: seq<int>) returns (r: seq<int>)
    ensures r == RemoveEach(nums, notNums)
  {
    r := nums;
    for x := 0 to |notNums|
      invariant r == RemoveEach(nums, notNums[..x])
    {
      assert notNums[..x + 1][..x] == notNums[..x];
      var m := notNums[x];
      ghost var before := r;
      var y := 0;
      while y < |r|
        invariant 0 <= y <= |r| && r == before
        invariant m !in r[..y]
      {
        if r[y] == m {
          RemoveFirstAt(r, m, y);
          r := r[..y] + r[y + 1..];
          break;
        }
        assert r[..y + 1] == r[..y] + [r[y]];
        y := y + 1;
      }
      if r == before {
        assert r[..|r|] == r;
        RemoveFirstAbsent(r, m);
      }
    }
    assert notNums[..|notNums|] == notNums;
  }

  // ---------------------------------------------------------------------------
  // The whole selection

  predicate InTopology(labels: seq<string>, nums: seq<int>) {
    forall i :: 0 <= i < |nums| ==> 1 <= nums[i] <= |labels|
  }

  /**
   * The test of line 219: explicit numbers are used only when the list is
   * non-empty. `-resnum` followed by nothing but separators, or directly by
   * another option, leaves the list empty, and the topology is scanned.
   */
  predicate GivesNumbers(numbers: NumberFilter) {
    numbers.OnlyNumbers? && |numbers.numbers| != 0
  }

  /**
   * Lines 219-252: explicit numbers or the default scan; an empty result is
   * an error; only then are the `-notresnum` values removed.
   */
  function Select(labels: seq<string>, active: string, numbers: NumberFilter): Result<seq<int>> {
    var picked := if GivesNumbers(numbers) then ByNumbers(labels, active, numbers.numbers) else Ok(Matching(labels, active));
    if picked.Err? then picked
    else if |picked.value| == 0 then Err(NoResiduesSelected)
    else if numbers.ExceptNumbers? then Ok(RemoveEach(picked.value, numbers.numbers))
    else picked
  }

  /** Every selected number names a residue of the topology. */
  lemma SelectInTopology(labels: seq<string>, active: string, numbers: NumberFilter)
    ensures Select(labels, active, numbers).Ok? ==> InTopology(labels, Select(labels, active, numbers).value)
  {
    var m := Matching(labels, active);
    MatchingSpec(labels, active);
    if numbers.ExceptNumbers? && m != [] {
      var r := RemoveEach(m, numbers.numbers);
      RemoveEachSpec(m, numbers.numbers);
      SubseqAscending(r, m);
      assert forall i :: 0 <= i < |r| ==> r[i] in m;
    } else if !GivesNumbers(numbers) {
      assert forall i :: 0 <= i < |m| ==> m[i] in m;
    }
  }

  /**
   * With `-resnum`, the selection is the numbers as given unless one is
   * rejected; an empty list selects as if the option were absent.
   */
  lemma SelectExplicit(labels: seq<string>, active: string, nums: seq<int>)
    ensures Select(labels, active, OnlyNumbers(nums)) ==
              if nums == [] then Select(labels, active, AllResidues)
              else if ByNumbers(labels, active, nums).Err? then ByNumbers(labels, active, nums)
              else Ok(nums)
  {
  }

  /**
   * Without `-resnum` numbers, selection fails exactly when no residue label is
   * active, and otherwise yields the scan minus the excluded numbers: one
   * occurrence per excluded value, the rest in scan order, so strictly
   * ascending.
   */
  lemma SelectScanned(labels: seq<string>, active: string, numbers: NumberFilter)
    requires !GivesNumbers(numbers)
    ensures Select(labels, active, numbers).Err? <==> Matching(labels, active) == []
    ensures Select(labels, active, numbers).Ok? ==>
              var r := Select(labels, active, numbers).value;
              var excluded := if numbers.ExceptNumbers? then numbers.numbers else [];
              multiset(r) == multiset(Matching(labels, active)) - multiset(excluded)
              && IsSubseq(r, Matching(labels, active))
              && forall i, j :: 0 <= i < j < |r| ==> r[i] < r[j]
  {
    var m := Matching(labels, active);
    MatchingSpec(labels, active);
    if m != [] {
      var excluded := if numbers.ExceptNumbers? then numbers.numbers else [];
      RemoveEachSpec(m, excluded);
      SubseqAscending(RemoveEach(m, excluded), m);
    }
  }

  /** Exclusion runs after the emptiness check, so it can leave nothing selected without an error. */
  lemma ExclusionCanEmptySelection()
    ensures Select(["AS4"], Titratable, ExceptNumbers([1])) == Ok([])
  {
    assert PlainWord("AS4");
    TitratableMembership("AS4");
    assert BuiltinNames[0] == "AS4";
    assert Contains(Titratable, "AS4");
    MatchingAppend([], "AS4", Titratable);
    assert [] + ["AS4"] == ["AS4"];
    assert Matching(["AS4"], Titratable) == [1];
    assert RemoveEach([1], [1]) == RemoveFirst([1], 1);
    assert RemoveEach([1], [1]) == [];
  }

  /** The selection steps of the script, in order. */
  method SelectResidues(labels: seq<string>, active: string, numbers: NumberFilter) returns (r: Result<seq<int>>)
    ensures r == Select(labels, active, numbers)
  {
    var picked;
    if numbers.OnlyNumbers? && |numbers.numbers| != 0 {
      picked := SelectGiven(labels, active, numbers.numbers);
    } else {
      var scanned := ScanTopology(labels, active);
      picked := Ok(scanned);
    }
    if picked.Err? {
      return picked;
    }
    if |picked.value| == 0 {
      return Err(NoResiduesSelected);
    }
    if numbers.ExceptNumbers? {
      var kept := ExcludeNumbers(picked.value, numbers.numbers);
      return Ok(kept);
    }
    r := picked;
  }

  // ---------------------------------------------------------------------------
  // Distinct names

  /** The label of every selected residue, in selection order, duplicates included. */
  function NamesOf(labels: seq<string>, nums: seq<int>): (ns: seq<string>)
    requires InTopology(labels, nums)
    ensures |ns| == |nums| && forall i :: 0 <= i < |nums| ==> ns[i] == labels[nums[i] - 1]
  {
    seq(|nums|, i requires 0 <= i < |nums| => labels[nums[i] - 1])
  }

  /** The loop of lines 258-269: append each name unless it is already present. */
  function Dedup(s: seq<string>): seq<string>
    decreases |s|
  {
    if s == [] then []
    else
      var d := Dedup(s[..|s| - 1]);
      if s[|s| - 1] in d then d else d + [s[|s| - 1]]
  }

  predicate NoDuplicates(s: seq<string>) {
    forall i, j :: 0 <= i < j < |s| ==> s[i] != s[j]
  }

  /** The position of the first occurrence of `x` in `s`. */
  function FirstIndex(s: seq<string>, x: string): (k: nat)
    requires x in s
    ensures k < |s| && s[k] == x && x !in s[..k]
    decreases |s|
  {
    if s[0] == x then 0
    else
      var k := FirstIndex(s[1..], x) + 1;
      assert s[..k] == [s[0]] + s[1..][..k - 1];
      k
  }

  lemma FirstIndexInPrefix(s: seq<string>, x: string, n: nat)
    requires n <= |s| && x in s[..n]
    ensures FirstIndex(s, x) == FirstIndex(s[..n], x)
  {
    var k := FirstIndex(s[..n], x);
    assert s[..n][..k] == s[..k];
    var f := FirstIndex(s, x);
    assert s[k] == x && s[f] == x;
    assert forall i :: 0 <= i < f ==> s[..f][i] == s[i];
    assert forall i :: 0 <= i < k ==> s[..k][i] == s[i];
  }

  /**
   * The distinct names: no duplicates, exactly the names of the input, each
   * placed by its first occurrence.
   */
  lemma {:induction false} DedupSpec(s: seq<string>)
    ensures NoDuplicates(Dedup(s))
    ensures forall x :: x in Dedup(s) <==> x in s
    ensures forall i, j :: 0 <= i < j < |Dedup(s)| ==> FirstIndex(s, Dedup(s)[i]) < FirstIndex(s, Dedup(s)[j])
    decreases |s|
  {
    if s != [] {
      var front := s[..|s| - 1];
      var last := s[|s| - 1];
      var d := Dedup(front);
      DedupSpec(front);
      assert s == front + [last];
      forall x | x in front ensures FirstIndex(s, x) == FirstIndex(front, x) {
        FirstIndexInPrefix(s, x, |s| - 1);
      }
      if last in d {
        assert Dedup(s) == d;
      } else {
        var r := d + [last];
        assert Dedup(s) == r;
        assert forall i :: 0 <= i < |d| ==> r[i] == d[i];
        assert last !in front;
        assert FirstIndex(s, last) == |s| - 1;
        assert forall i :: 0 <= i < |d| ==> FirstIndex(s, d[i]) < |s| - 1;
      }
    }
  }

  /** The name-collection loop, with its inner "already present" search. */
  method TitratedNames(labels: seq<string>, nums: seq<int>) returns (names: seq<string>)
    requires InTopology(labels, nums)
    ensures names == Dedup(NamesOf(labels, nums))
  {
    names := [];
    for x := 0 to |nums|
      invariant names == Dedup(NamesOf(labels, nums[..x]))
    {
      var name := labels[nums[x] - 1];
      assert NamesOf(labels, nums[..x + 1])[..x] == NamesOf(labels, nums[..x]);
      var present := false;
      for y := 0 to |names|
        invariant present <==> name in names[..y]
      {
        assert names[..y + 1] == names[..y] + [names[y]];
        if names[y] == name {
          present := true;
        }
      }
      assert names[..|names|] == names;
      if !present {
        names := names + [name];
      }
    }
    assert nums[..|nums|] == nums;
  }

  // ---------------------------------------------------------------------------
  // Worked examples

  /**
   * A name string that treats every plain three-letter label as the
   * built-in string does: active exactly when it is a built-in name.
   */
  ghost predicate BuiltinActive(active: string) {
    forall w :: PlainWord(w) ==> (Contains(active, w) <==> w in BuiltinNames)
  }

  lemma TitratableBuiltinActive()
    ensures BuiltinActive(Titratable)
  {
    forall w | PlainWord(w) ensures Contains(Titratable, w) <==> w in BuiltinNames {
      TitratableMembership(w);
    }
  }

  /** The labels of the small example topology, and which of them are active. */
  lemma SmallTopologyLabels(active: string)
    requires BuiltinActive(active)
    ensures !Contains(active, "ALA") && !Contains(active, "GLU")
    ensures Contains(active, "AS4") && Contains(active, "TYR")
  {
    assert PlainWord("ALA") && PlainWord("GLU") && PlainWord("AS4") && PlainWord("TYR");
    assert BuiltinNames[0] == "AS4" && BuiltinNames[3] == "TYR";
  }

  /** On the topology ALA, GLU, AS4, TYR the default scan picks residues 3 and 4. */
  lemma SmallTopologyScan(active: string)
    requires BuiltinActive(active)
    ensures Matching(["ALA", "GLU", "AS4", "TYR"], active) == [3, 4]
  {
    SmallTopologyLabels(active);
    MatchingAppend([], "ALA", active);
    assert [] + ["ALA"] == ["ALA"];
    assert Matching(["ALA"], active) == [];
    MatchingAppend(["ALA"], "GLU", active);
    assert ["ALA"] + ["GLU"] == ["ALA", "GLU"];
    assert Matching(["ALA", "GLU"], active) == [];
    MatchingAppend(["ALA", "GLU"], "AS4", active);
    assert ["ALA", "GLU"] + ["AS4"] == ["ALA", "GLU", "AS4"];
    assert Matching(["ALA", "GLU", "AS4"], active) == [3];
    MatchingAppend(["ALA", "GLU", "AS4"], "TYR", active);
    assert ["ALA", "GLU", "AS4"] + ["TYR"] == ["ALA", "GLU", "AS4", "TYR"];
  }

  /**
   * A topology ALA, GLU, AS4, TYR with the built-in names (or any name
   * string that agrees with them) selects residues 3 and 4 by default;
   * `-resnum 3` selects residue 3 alone; `-resnum 2` fails because GLU is
   * not titratable; `-resnum` with no numbers scans as the default does.
   */
  lemma SmallTopologyExamples(active: string)
    requires BuiltinActive(active)
    ensures Select(["ALA", "GLU", "AS4", "TYR"], active, AllResidues) == Ok([3, 4])
    ensures Select(["ALA", "GLU", "AS4", "TYR"], active, OnlyNumbers([3])) == Ok([3])
    ensures Select(["ALA", "GLU", "AS4", "TYR"], active, OnlyNumbers([2])) == Err(NotTitratable(2, "GLU"))
    ensures Select(["ALA", "GLU", "AS4", "TYR"], active, OnlyNumbers([])) == Ok([3, 4])
  {
    var labels := ["ALA", "GLU", "AS4", "TYR"];
    SmallTopologyScan(active);
    SmallTopologyLabels(active);
    assert labels[2] == "AS4" && labels[1] == "GLU";
    assert NumberCheck(labels, active, 3).None?;
    assert NumberCheck(labels, active, 2) == Some(NotTitratable(2, "GLU"));
    assert ByNumbers(labels, active, [3]) == Ok([3]);
    assert FirstRejected(labels, active, [2], 0) == 0;
    assert ByNumbers(labels, active, [2]) == Err(NotTitratable(2, "GLU"));
  }
}
