/** The provider configuration and its validation. */
module Config {
  import opened Collections

  datatype Selector = Selector(group: string, version: string, kind: string, name: string, namespace: string,
                               annotationSelector: string, labelSelector: string)

  datatype Target = Anything | Matching(selector: Selector)

  datatype PatchSpec = PatchSpec(resourceRef: string, target: Target)

  datatype Pack = Pack(name: string, version: string, patches: seq<PatchSpec>)

  datatype PackConfig = PackConfig(packs: seq<Pack>)

  // ----- validation -----

  datatype FieldError =
    | NoPacks
    | EmptyName(idx: nat)
    | EmptyVersion(idx: nat)
    | AlreadyDefined(idx: nat, at: nat)
    | EmptyRef(idx: nat, patchIdx: nat)

  datatype SeenPack = SeenPack(name: string, version: string, idx: nat)

  /** The position of the first pack of this name. */
  function FirstNamed(packs: seq<Pack>, name: string): (i: nat)
    ensures i <= |packs|
    ensures i < |packs| ==> packs[i].name == name
    ensures forall j | 0 <= j < i :: packs[j].name != name
  {
    if packs == [] || packs[0].name == name then 0 else 1 + FirstNamed(packs[1..], name)
  }

  function RefErrors(idx: nat, patches: seq<PatchSpec>, n: nat): seq<FieldError>
    requires n <= |patches|
  {
    if n == 0 then []
    else RefErrors(idx, patches, n - 1) + Flag(patches[n - 1].resourceRef == "", EmptyRef(idx, n - 1))
  }

  /** A pack whose name an earlier pack has is reported with the first pack of that name. */
  function DuplicateErrors(packs: seq<Pack>, idx: nat): seq<FieldError>
    requires idx < |packs|
  {
    var first := FirstNamed(packs, packs[idx].name);
    Flag(first < idx, AlreadyDefined(idx, first))
  }

  function BlankErrors(p: Pack, idx: nat): seq<FieldError> {
    Flag(p.name == "", EmptyName(idx)) + Flag(p.version == "", EmptyVersion(idx))
  }

  function PackErrors(packs: seq<Pack>, idx: nat): seq<FieldError>
    requires idx < |packs|
  {
    BlankErrors(packs[idx], idx)
    + (DuplicateErrors(packs, idx) + RefErrors(idx, packs[idx].patches, |packs[idx].patches|))
  }

  /** What validation reports for the first n packs. */
  function Errors(packs: seq<Pack>, n: nat): seq<FieldError>
    requires n <= |packs|
  {
    if n == 0 then Flag(packs == [], NoPacks) else Errors(packs, n - 1) + PackErrors(packs, n - 1)
  }

  /** The packs seen so far, in order. */
  predicate Tracks(seen: seq<SeenPack>, packs: seq<Pack>, n: nat)
    requires n <= |packs|
  {
    |seen| == n && forall k | 0 <= k < n :: seen[k] == SeenPack(packs[k].name, packs[k].version, k)
  }

  lemma NothingSeen(packs: seq<Pack>)
    ensures Tracks([], packs, 0)
  {
  }

  lemma TracksAppend(seen: seq<SeenPack>, packs: seq<Pack>, n: nat)
    requires n < |packs| && Tracks(seen, packs, n)
    ensures Tracks(seen + [SeenPack(packs[n].name, packs[n].version, n)], packs, n + 1)
  {
  }

  /** The position of the name among the packs seen so far, or -1. */
  method IndexOfSeen(seen: seq<SeenPack>, packs: seq<Pack>, n: nat) returns (idx: int)
    requires n < |packs| && Tracks(seen, packs, n)
    ensures idx == if FirstNamed(packs, packs[n].name) < n then FirstNamed(packs, packs[n].name) else -1
  {
    for i := 0 to |seen|
      invariant forall j | 0 <= j < i :: packs[j].name != packs[n].name
    {
      if seen[i].name == packs[n].name {
        return i;
      }
    }
    return -1;
  }

  /** The inner loop of validation. */
  method CheckRefs(before: seq<FieldError>, idx: nat, patches: seq<PatchSpec>) returns (allErrs: seq<FieldError>)
    ensures allErrs == before + RefErrors(idx, patches, |patches|)
  {
    hide RefErrors;
    allErrs := before;
    RefErrorsStart(idx, patches);
    EmptyTail(before);
    for patchIdx := 0 to |patches|
      invariant allErrs == before + RefErrors(idx, patches, patchIdx)
    {
      RefErrorsStep(before, idx, patches, patchIdx);
      if patches[patchIdx].resourceRef == "" {
        allErrs := allErrs + [EmptyRef(idx, patchIdx)];
      }
    }
  }

  /** What the loop of validation does with one pack. */
  method CheckPack(before: seq<FieldError>, seen: seq<SeenPack>, packs: seq<Pack>, idx: nat)
    returns (allErrs: seq<FieldError>)
    requires idx < |packs| && Tracks(seen, packs, idx)
    ensures allErrs == before + PackErrors(packs, idx)
  {
    hide *;
    var pack := packs[idx];
    var blanks: seq<FieldError> := [];
    if pack.name == "" {
      blanks := blanks + [EmptyName(idx)];
    }
    if pack.version == "" {
      blanks := blanks + [EmptyVersion(idx)];
    }
    BlankErrorsAre(pack, idx);
    var seenIdx := IndexOfSeen(seen, packs, idx);
    var duplicates := if seenIdx >= 0 then [AlreadyDefined(idx, seenIdx)] else [];
    DuplicateErrorsAre(packs, idx);
    allErrs := CheckRefs(before + blanks + duplicates, idx, pack.patches);
    PackErrorsAre(before, packs, idx);
  }

  lemma BlankErrorsAre(p: Pack, idx: nat)
    ensures BlankErrors(p, idx)
            == if p.name == "" then if p.version == "" then [EmptyName(idx), EmptyVersion(idx)] else [EmptyName(idx)]
               else if p.version == "" then [EmptyVersion(idx)] else []
  {
  }

  lemma DuplicateErrorsAre(packs: seq<Pack>, idx: nat)
    requires idx < |packs|
    ensures var first := FirstNamed(packs, packs[idx].name);
            DuplicateErrors(packs, idx) == if first < idx then [AlreadyDefined(idx, first)] else []
  {
  }

  lemma PackErrorsAre(before: seq<FieldError>, packs: seq<Pack>, idx: nat)
    requires idx < |packs|
    ensures before + PackErrors(packs, idx)
            == before + BlankErrors(packs[idx], idx) + DuplicateErrors(packs, idx)
               + RefErrors(idx, packs[idx].patches, |packs[idx].patches|)
  {
  }

  method Validate(cfg: PackConfig) returns (allErrs: seq<FieldError>)
    ensures allErrs == Errors(cfg.packs, |cfg.packs|)
    ensures (forall e :: e in allErrs <==> IsTrue(cfg.packs, e)) && Ordered(allErrs)
  {
    hide *;
    var packs := cfg.packs;
    allErrs := [];
    ErrorsStart(packs);
    AppendFlag([], packs == [], NoPacks);
    if packs == [] {
      allErrs := allErrs + [NoPacks];
    }
    var seenPacks: seq<SeenPack> := [];
    NothingSeen(packs);
    for idx := 0 to |packs|
      invariant allErrs == Errors(packs, idx)
      invariant Tracks(seenPacks, packs, idx)
    {
      allErrs := CheckPack(allErrs, seenPacks, packs, idx);
      ErrorsStep(packs, idx);
      TracksAppend(seenPacks, packs, idx);
      seenPacks := seenPacks + [SeenPack(packs[idx].name, packs[idx].version, idx)];
    }
    ReportsAreTrue(packs, allErrs);
  }

  lemma RefErrorsStart(idx: nat, patches: seq<PatchSpec>)
    ensures RefErrors(idx, patches, 0) == []
  {
  }

  lemma RefErrorsStep(before: seq<FieldError>, idx: nat, patches: seq<PatchSpec>, n: nat)
    requires n < |patches|
    ensures before + RefErrors(idx, patches, n + 1)
            == if patches[n].resourceRef == "" then before + RefErrors(idx, patches, n) + [EmptyRef(idx, n)]
               else before + RefErrors(idx, patches, n)
  {
    AppendAssoc(before, RefErrors(idx, patches, n), Flag(patches[n].resourceRef == "", EmptyRef(idx, n)));
    AppendFlag(before + RefErrors(idx, patches, n), patches[n].resourceRef == "", EmptyRef(idx, n));
  }

  lemma ErrorsStart(packs: seq<Pack>)
    ensures Errors(packs, 0) == Flag(packs == [], NoPacks)
  {
  }

  lemma ErrorsStep(packs: seq<Pack>, n: nat)
    requires n < |packs|
    ensures Errors(packs, n + 1) == Errors(packs, n) + PackErrors(packs, n)
  {
  }

  // ----- what validation means -----

  predicate DistinctNames(packs: seq<Pack>) {
    forall i, j | 0 <= i < j < |packs| :: packs[i].name != packs[j].name
  }

  predicate CompletePack(p: Pack) {
    p.name != "" && p.version != "" && forall k | 0 <= k < |p.patches| :: p.patches[k].resourceRef != ""
  }

  predicate WellFormed(packs: seq<Pack>) {
    packs != [] && DistinctNames(packs) && forall i | 0 <= i < |packs| :: CompletePack(packs[i])
  }

  lemma {:induction false} RefErrorsIff(idx: nat, patches: seq<PatchSpec>, n: nat)
    requires n <= |patches|
    ensures RefErrors(idx, patches, n) == [] <==> forall k | 0 <= k < n :: patches[k].resourceRef != ""
  {
    if n > 0 {
      RefErrorsIff(idx, patches, n - 1);
    }
  }

  lemma PackErrorsIff(packs: seq<Pack>, idx: nat)
    requires idx < |packs|
    ensures PackErrors(packs, idx) == [] <==>
            CompletePack(packs[idx]) && FirstNamed(packs, packs[idx].name) == idx
  {
    var refs := RefErrors(idx, packs[idx].patches, |packs[idx].patches|);
    RefErrorsIff(idx, packs[idx].patches, |packs[idx].patches|);
    EmptyConcat(Flag(packs[idx].name == "", EmptyName(idx)), Flag(packs[idx].version == "", EmptyVersion(idx)));
    EmptyConcat(BlankErrors(packs[idx], idx), DuplicateErrors(packs, idx) + refs);
    EmptyConcat(DuplicateErrors(packs, idx), refs);
  }

  lemma {:induction false} ErrorsIff(packs: seq<Pack>, n: nat)
    requires packs != [] && n <= |packs|
    ensures Errors(packs, n) == [] <==>
            forall i | 0 <= i < n :: CompletePack(packs[i]) && FirstNamed(packs, packs[i].name) == i
  {
    hide Errors, PackErrors, FirstNamed;
    ErrorsStart(packs);
    if n > 0 {
      ErrorsStep(packs, n - 1);
      ErrorsIff(packs, n - 1);
      PackErrorsIff(packs, n - 1);
      EmptyConcat(Errors(packs, n - 1), PackErrors(packs, n - 1));
    }
  }

  /**
   A configuration is accepted exactly when it lists packs, no name, version or resource
   reference is empty, and no two packs have the same name.
   */
  lemma ValidIffWellFormed(packs: seq<Pack>)
    ensures Errors(packs, |packs|) == [] <==> WellFormed(packs)
  {
    if packs != [] {
      ErrorsIff(packs, |packs|);
      if DistinctNames(packs) {
        forall i | 0 <= i < |packs| ensures FirstNamed(packs, packs[i].name) == i {
          var first := FirstNamed(packs, packs[i].name);
          assert packs[first].name == packs[i].name;
        }
      } else {
        var i, j :| 0 <= i < j < |packs| && packs[i].name == packs[j].name;
        assert FirstNamed(packs, packs[j].name) <= i;
      }
    }
  }

  /** The number of reports of a name that an earlier pack has. */
  function DuplicateReports(errs: seq<FieldError>): nat {
    if errs == [] then 0
    else DuplicateReports(errs[..|errs| - 1]) + (if errs[|errs| - 1].AlreadyDefined? then 1 else 0)
  }

  function Names(packs: seq<Pack>): set<string> {
    set p | p in packs :: p.name
  }

  lemma {:induction false} DuplicateReportsConcat(a: seq<FieldError>, b: seq<FieldError>)
    ensures DuplicateReports(a + b) == DuplicateReports(a) + DuplicateReports(b)
    decreases |b|
  {
    if b == [] {
      EmptyTail(a);
    } else {
      assert (a + b)[..|a + b| - 1] == a + b[..|b| - 1];
      DuplicateReportsConcat(a, b[..|b| - 1]);
    }
  }

  lemma OneReport(raised: bool, e: FieldError)
    ensures DuplicateReports(Flag(raised, e)) == if raised && e.AlreadyDefined? then 1 else 0
  {
    assert DuplicateReports([]) == 0 && [e][..0] == [];
  }

  lemma {:induction false} RefErrorsReportNoDuplicate(idx: nat, patches: seq<PatchSpec>, n: nat)
    requires n <= |patches|
    ensures DuplicateReports(RefErrors(idx, patches, n)) == 0
  {
    if n > 0 {
      RefErrorsReportNoDuplicate(idx, patches, n - 1);
      OneReport(patches[n - 1].resourceRef == "", EmptyRef(idx, n - 1));
      DuplicateReportsConcat(RefErrors(idx, patches, n - 1),
                             Flag(patches[n - 1].resourceRef == "", EmptyRef(idx, n - 1)));
    }
  }

  lemma PackReports(packs: seq<Pack>, idx: nat)
    requires idx < |packs|
    ensures DuplicateReports(PackErrors(packs, idx)) == if FirstNamed(packs, packs[idx].name) < idx then 1 else 0
  {
    hide DuplicateReports;
    var p := packs[idx];
    var refs := RefErrors(idx, p.patches, |p.patches|);
    RefErrorsReportNoDuplicate(idx, p.patches, |p.patches|);
    OneReport(p.name == "", EmptyName(idx));
    OneReport(p.version == "", EmptyVersion(idx));
    OneReport(FirstNamed(packs, p.name) < idx, AlreadyDefined(idx, FirstNamed(packs, p.name)));
    DuplicateReportsConcat(Flag(p.name == "", EmptyName(idx)), Flag(p.version == "", EmptyVersion(idx)));
    DuplicateReportsConcat(DuplicateErrors(packs, idx), refs);
    DuplicateReportsConcat(BlankErrors(p, idx), DuplicateErrors(packs, idx) + refs);
  }

  lemma {:induction false} ErrorsReportDuplicates(packs: seq<Pack>, n: nat)
    requires n <= |packs|
    ensures DuplicateReports(Errors(packs, n)) == n - |Names(packs[..n])|
  {
    hide Errors, PackErrors, DuplicateReports, Names, FirstNamed;
    ErrorsStart(packs);
    NoNames(packs);
    if n > 0 {
      ErrorsStep(packs, n - 1);
      ErrorsReportDuplicates(packs, n - 1);
      PackReports(packs, n - 1);
      DuplicateReportsConcat(Errors(packs, n - 1), PackErrors(packs, n - 1));
      NamesAppend(packs, n - 1);
    } else {
      OneReport(packs == [], NoPacks);
    }
  }

  lemma NamesAppend(packs: seq<Pack>, i: nat)
    requires i < |packs|
    ensures |Names(packs[..i + 1])| == |Names(packs[..i])| + if FirstNamed(packs, packs[i].name) < i then 0 else 1
  {
    hide Names, FirstNamed;
    assert packs[..i + 1] == packs[..i] + [packs[i]];
    NamesOfAppend(packs[..i], packs[i]);
    NamedBefore(packs, i, packs[i].name);
    SizeOfAdd(Names(packs[..i]), packs[i].name);
  }

  lemma NamedBefore(packs: seq<Pack>, i: nat, name: string)
    requires i <= |packs|
    ensures name in Names(packs[..i]) <==> FirstNamed(packs, name) < i
  {
  }

  lemma NoNames(packs: seq<Pack>)
    ensures Names(packs[..0]) == {}
  {
  }

  lemma NamesOfAppend(init: seq<Pack>, last: Pack)
    ensures Names(init + [last]) == Names(init) + {last.name}
  {
    InAppend(init, last);
  }

  /** Valid or not, the duplicates reported are the packs beyond one for each name. */
  lemma DuplicateCount(packs: seq<Pack>)
    ensures DuplicateReports(Errors(packs, |packs|)) == |packs| - |Names(packs)|
  {
    ErrorsReportDuplicates(packs, |packs|);
    assert packs[..|packs|] == packs;
  }

  /** Every duplicate report names a later pack and the first pack that has its name. */
  lemma {:induction false} DuplicateReportIsFirst(packs: seq<Pack>, n: nat, e: FieldError)
    requires n <= |packs| && e in Errors(packs, n) && e.AlreadyDefined?
    ensures e.at < e.idx < n && packs[e.at].name == packs[e.idx].name
    ensures forall j | 0 <= j < e.at :: packs[j].name != packs[e.idx].name
  {
    hide Errors, RefErrors;
    ErrorsStart(packs);
    if n > 0 {
      ErrorsStep(packs, n - 1);
      var p := packs[n - 1];
      var refs := RefErrors(n - 1, p.patches, |p.patches|);
      RefErrorsKind(n - 1, p.patches, |p.patches|);
      InConcat(Errors(packs, n - 1), PackErrors(packs, n - 1));
      InConcat(BlankErrors(p, n - 1), DuplicateErrors(packs, n - 1) + refs);
      InConcat(DuplicateErrors(packs, n - 1), refs);
      if e in Errors(packs, n - 1) {
        DuplicateReportIsFirst(packs, n - 1, e);
      }
    }
  }

  lemma {:induction false} RefErrorsKind(idx: nat, patches: seq<PatchSpec>, n: nat)
    requires n <= |patches|
    ensures forall e | e in RefErrors(idx, patches, n) :: e.EmptyRef?
  {
    if n > 0 {
      RefErrorsKind(idx, patches, n - 1);
      InConcat(RefErrors(idx, patches, n - 1), Flag(patches[n - 1].resourceRef == "", EmptyRef(idx, n - 1)));
    }
  }

  // ----- what each report says -----

  predicate IsTrue(packs: seq<Pack>, e: FieldError) {
    match e
    case NoPacks => packs == []
    case EmptyName(i) => i < |packs| && packs[i].name == ""
    case EmptyVersion(i) => i < |packs| && packs[i].version == ""
    case AlreadyDefined(i, at) =>
      && at < i < |packs| && packs[at].name == packs[i].name
      && forall j | 0 <= j < at :: packs[j].name != packs[i].name
    case EmptyRef(i, k) => i < |packs| && k < |packs[i].patches| && packs[i].patches[k].resourceRef == ""
  }

  /** The pack that a report is about, and the place of the report among those about this pack. */
  function Rank(e: FieldError): (nat, nat) {
    match e
    case NoPacks => (0, 0)
    case EmptyName(i) => (i, 0)
    case EmptyVersion(i) => (i, 1)
    case AlreadyDefined(i, _) => (i, 2)
    case EmptyRef(i, k) => (i, 3 + k)
  }

  predicate Before(e1: FieldError, e2: FieldError) {
    Rank(e1).0 < Rank(e2).0 || (Rank(e1).0 == Rank(e2).0 && Rank(e1).1 < Rank(e2).1)
  }

  predicate Ordered(errs: seq<FieldError>) {
    forall i, j | 0 <= i < j < |errs| :: Before(errs[i], errs[j])
  }

  lemma OrderedConcat(a: seq<FieldError>, b: seq<FieldError>)
    requires Ordered(a) && Ordered(b) && forall x, y | x in a && y in b :: Before(x, y)
    ensures Ordered(a + b)
  {
    hide Before;
  }

  lemma {:induction false} RefReports(packs: seq<Pack>, idx: nat, n: nat)
    requires idx < |packs| && n <= |packs[idx].patches|
    ensures forall e :: e in RefErrors(idx, packs[idx].patches, n) <==>
                        e.EmptyRef? && e.idx == idx && e.patchIdx < n && IsTrue(packs, e)
    ensures Ordered(RefErrors(idx, packs[idx].patches, n))
  {
    if n > 0 {
      var init := RefErrors(idx, packs[idx].patches, n - 1);
      var last := Flag(packs[idx].patches[n - 1].resourceRef == "", EmptyRef(idx, n - 1));
      RefReports(packs, idx, n - 1);
      InConcat(init, last);
      OrderedConcat(init, last);
    }
  }

  lemma BlankReports(packs: seq<Pack>, idx: nat)
    requires idx < |packs|
    ensures forall e :: e in BlankErrors(packs[idx], idx) <==>
                        (e == EmptyName(idx) || e == EmptyVersion(idx)) && IsTrue(packs, e)
    ensures Ordered(BlankErrors(packs[idx], idx))
  {
    hide BlankErrors;
    BlankErrorsAre(packs[idx], idx);
    var errs := BlankErrors(packs[idx], idx);
    assert EmptyName(idx) in errs <==> packs[idx].name == "";
    assert EmptyVersion(idx) in errs <==> packs[idx].version == "";
  }

  lemma OwnReports(packs: seq<Pack>, idx: nat)
    requires idx < |packs|
    ensures forall e :: e in PackErrors(packs, idx) <==> !e.NoPacks? && e.idx == idx && IsTrue(packs, e)
    ensures Ordered(PackErrors(packs, idx))
  {
    hide RefErrors, BlankErrors, FirstNamed;
    var blanks, duplicates := BlankErrors(packs[idx], idx), DuplicateErrors(packs, idx);
    var refs := RefErrors(idx, packs[idx].patches, |packs[idx].patches|);
    BlankReports(packs, idx);
    RefReports(packs, idx, |packs[idx].patches|);
    DuplicateErrorsAre(packs, idx);
    forall e ensures e in duplicates <==> e.AlreadyDefined? && e.idx == idx && IsTrue(packs, e) {
      var first := FirstNamed(packs, packs[idx].name);
      assert first <= idx && packs[first].name == packs[idx].name;
    }
    InConcat(duplicates, refs);
    InConcat(blanks, duplicates + refs);
    OrderedConcat(duplicates, refs);
    OrderedConcat(blanks, duplicates + refs);
  }

  lemma {:induction false} ReportsBelow(packs: seq<Pack>, n: nat)
    requires n <= |packs|
    ensures forall e :: e in Errors(packs, n) <==> (e.NoPacks? || e.idx < n) && IsTrue(packs, e)
    ensures Ordered(Errors(packs, n))
  {
    hide Errors, PackErrors;
    ErrorsStart(packs);
    if n > 0 {
      ErrorsStep(packs, n - 1);
      ReportsBelow(packs, n - 1);
      OwnReports(packs, n - 1);
      InConcat(Errors(packs, n - 1), PackErrors(packs, n - 1));
      OrderedConcat(Errors(packs, n - 1), PackErrors(packs, n - 1));
    }
  }

  /**
   Validation reports exactly what is true, each thing once, pack by pack and for one pack the name,
   the version, the duplicate and the references in this order.
   */
  lemma ReportsAreTrue(packs: seq<Pack>, errs: seq<FieldError>)
    requires errs == Errors(packs, |packs|)
    ensures forall e :: e in errs <==> IsTrue(packs, e)
    ensures Ordered(errs)
  {
    ReportsBelow(packs, |packs|);
  }
}
