/** What a reconciliation or deletion leaves on the API server, and what its prefixes keep. */
module Outcomes {
  import opened Results
  import opened Collections
  import Config
  import Assets
  import PatchFiles
  import opened Shoots
  import opened Rendering
  import opened Store
  import opened Plan

  // ----- the intended final state -----

  function PackNames(packs: seq<Assets.Pack>): set<string> {
    set p | p in packs :: p.name
  }

  function ManagedKeys(ns: string, packs: seq<Assets.Pack>): set<ObjectKey> {
    set p | p in packs :: KeyFor(ns, p.name)
  }

  lemma ManagedIsNamed(ns: string, packs: seq<Assets.Pack>, key: ObjectKey)
    ensures key in ManagedKeys(ns, packs) <==> exists n :: n in PackNames(packs) && key == KeyFor(ns, n)
  {
  }

  /** Does the collection have another version of the pack? */
  predicate HasOtherVersion(packs: seq<Assets.Pack>, spec: Config.Pack) {
    exists p :: p in packs && p.name == spec.name && p.version != spec.version
  }

  /** No configured pack has another version in the collection. */
  predicate SingleVersions(packs: seq<Assets.Pack>, specs: seq<Config.Pack>) {
    forall i | 0 <= i < |specs| :: !HasOtherVersion(packs, specs[i])
  }

  predicate InCollection(packs: seq<Assets.Pack>, specs: seq<Config.Pack>) {
    forall i | 0 <= i < |specs| :: Assets.PackExists(packs, specs[i].name, specs[i].version)
  }

  /** What a name of the collection ends up with. */
  function Target(packs: seq<Assets.Pack>, specs: seq<Config.Pack>, contents: seq<Data>, name: string): Option<Data>
    requires |contents| == |specs|
  {
    var i := Config.FirstNamed(specs, name);
    if i < |specs| && !HasOtherVersion(packs, specs[i]) then Some(contents[i]) else None
  }

  predicate IsConfigured(specs: seq<Config.Pack>, name: string) {
    exists i :: 0 <= i < |specs| && specs[i].name == name
  }

  // ----- verdicts of the two phases -----

  lemma {:induction false} VerdictOfApplies(ns: string, specs: seq<Config.Pack>, contents: seq<Data>, name: string)
    requires |contents| <= |specs| && Config.DistinctNames(specs)
    ensures Verdict(ApplyWrites(ns, specs, contents), KeyFor(ns, name))
            == var i := Config.FirstNamed(specs, name); if i < |contents| then Some(Some(contents[i])) else None
    decreases |contents|
  {
    if contents != [] {
      var n := |contents| - 1;
      var writes := ApplyWrites(ns, specs, contents);
      VerdictOfApplies(ns, specs, contents[..n], name);
      assert writes[..n] == ApplyWrites(ns, specs, contents[..n]);
      KeyInjective(ns, specs[n].name, ns, name);
    }
  }

  lemma {:induction false} VerdictOfRemoves(ns: string, packs: seq<Config.Pack>, name: string)
    ensures Verdict(RemoveWrites(ns, packs), KeyFor(ns, name)) == if IsConfigured(packs, name) then Some(None) else None
  {
    if packs != [] {
      var n := |packs| - 1;
      VerdictOfRemoves(ns, packs[..n], name);
      assert RemoveWrites(ns, packs)[..n] == RemoveWrites(ns, packs[..n]);
      KeyInjective(ns, packs[n].name, ns, name);
      SplitLast([], packs);
      NameAppend(packs[..n], packs[n], name);
    }
  }

  lemma NameAppend(init: seq<Config.Pack>, last: Config.Pack, name: string)
    ensures IsConfigured(init + [last], name) <==> IsConfigured(init, name) || last.name == name
  {
    var all := init + [last];
    if IsConfigured(init, name) {
      var i :| 0 <= i < |init| && init[i].name == name;
      assert all[i].name == name;
    }
    assert all[|init|] == last;
  }

  /** A name is removed exactly when some version of it in the collection is not enabled. */
  lemma {:induction false} DisabledNames(packs: seq<Assets.Pack>, specs: seq<Config.Pack>, name: string)
    ensures IsConfigured(Disabled(packs, specs), name) <==>
            exists p :: p in packs && p.name == name && !IsEnabled(specs, p)
  {
    if packs != [] {
      var init, last := packs[..|packs| - 1], packs[|packs| - 1];
      DisabledNames(init, specs, name);
      SplitLast([], packs);
      InAppend(init, last);
      NameAppend(Disabled(init, specs), AsSpec(last), name);
      EmptyTail(Disabled(init, specs));
    }
  }

  /** Only names of the collection are removed. */
  lemma {:induction false} DisabledInCollection(packs: seq<Assets.Pack>, specs: seq<Config.Pack>, i: nat)
    requires i < |Disabled(packs, specs)|
    ensures Disabled(packs, specs)[i].name in PackNames(packs)
  {
    var name := Disabled(packs, specs)[i].name;
    assert IsConfigured(Disabled(packs, specs), name);
    DisabledNames(packs, specs, name);
  }

  /** For a name of the collection: removed exactly when it is not configured or has another version. */
  lemma RemovedIff(packs: seq<Assets.Pack>, specs: seq<Config.Pack>, name: string)
    requires Config.DistinctNames(specs) && name in PackNames(packs)
    ensures IsConfigured(Disabled(packs, specs), name) <==>
            var i := Config.FirstNamed(specs, name); i == |specs| || HasOtherVersion(packs, specs[i])
  {
    DisabledNames(packs, specs, name);
    var i := Config.FirstNamed(specs, name);
    if i == |specs| {
      var p :| p in packs && p.name == name;
      assert !IsEnabled(specs, p);
    } else {
      forall p | p in packs && p.name == name ensures IsEnabled(specs, p) <==> p.version == specs[i].version {
        if IsEnabled(specs, p) {
          var k :| 0 <= k < |specs| && specs[k].name == p.name && specs[k].version == p.version;
          assert k == i;
        }
      }
    }
  }

  // ----- exact final state -----

  /**
   After a complete reconciliation, whatever was there before: a name of the collection has the
   rendering of its pack if it is configured and no other version of it is in the collection, and
   nothing otherwise.
   */
  lemma FinalStateOfName(inp: Inputs, specs: seq<Config.Pack>, contents: seq<Data>, s: Objects, name: string)
    requires |contents| == |specs| && Config.DistinctNames(specs)
    requires name in PackNames(inp.collection.packs)
    ensures Lookup(Replay(s, FullPlan(inp, specs, contents)), KeyFor(inp.namespace, name))
            == Target(inp.collection.packs, specs, contents, name)
  {
    hide KeyFor, Replay, Verdict, Disabled;
    var ns, packs := inp.namespace, inp.collection.packs;
    var applies, removes := ApplyWrites(ns, specs, contents), RemoveWrites(ns, Disabled(packs, specs));
    LookupReplay(s, FullPlan(inp, specs, contents), KeyFor(ns, name));
    VerdictConcat(applies, removes, KeyFor(ns, name));
    VerdictOfApplies(ns, specs, contents, name);
    VerdictOfRemoves(ns, Disabled(packs, specs), name);
    RemovedIff(packs, specs, name);
  }

  /** Every write of an operation is for a name of the collection. */
  ghost predicate WritesWithin(ns: string, packs: seq<Assets.Pack>, writes: seq<Write>) {
    forall i | 0 <= i < |writes| :: writes[i].key in ManagedKeys(ns, packs)
  }

  lemma FrameOfWrites(ns: string, packs: seq<Assets.Pack>, writes: seq<Write>, s: Objects, key: ObjectKey)
    requires WritesWithin(ns, packs, writes) && key !in ManagedKeys(ns, packs)
    ensures Lookup(Replay(s, writes), key) == Lookup(s, key)
  {
    VerdictNone(writes, key);
    LookupReplay(s, writes, key);
  }

  lemma AppliesWithin(ns: string, packs: seq<Assets.Pack>, specs: seq<Config.Pack>, contents: seq<Data>)
    requires |contents| <= |specs|
    requires forall i | 0 <= i < |contents| :: Assets.PackExists(packs, specs[i].name, specs[i].version)
    ensures WritesWithin(ns, packs, ApplyWrites(ns, specs, contents))
  {
  }

  lemma RemovesWithin(ns: string, packs: seq<Assets.Pack>, removed: seq<Config.Pack>)
    requires forall i | 0 <= i < |removed| :: removed[i].name in PackNames(packs)
    ensures WritesWithin(ns, packs, RemoveWrites(ns, removed))
  {
  }

  lemma PlanWithin(inp: Inputs, specs: seq<Config.Pack>, contents: seq<Data>)
    requires |contents| == |specs| && InCollection(inp.collection.packs, specs)
    ensures WritesWithin(inp.namespace, inp.collection.packs, FullPlan(inp, specs, contents))
  {
    hide KeyFor, ManagedKeys, Disabled;
    AppliesWithin(inp.namespace, inp.collection.packs, specs, contents);
    forall i: nat | i < |Disabled(inp.collection.packs, specs)|
      ensures Disabled(inp.collection.packs, specs)[i].name in PackNames(inp.collection.packs)
    {
      DisabledInCollection(inp.collection.packs, specs, i);
    }
    RemovesWithin(inp.namespace, inp.collection.packs, Disabled(inp.collection.packs, specs));
  }

  /** The whole final state: the names of the collection as targeted, all other objects untouched. */
  ghost predicate IsFinal(inp: Inputs, specs: seq<Config.Pack>, contents: seq<Data>, s: Objects, s': Objects)
    requires |contents| == |specs|
  {
    && (forall name | name in PackNames(inp.collection.packs) ::
          Lookup(s', KeyFor(inp.namespace, name)) == Target(inp.collection.packs, specs, contents, name))
    && (forall key | key !in ManagedKeys(inp.namespace, inp.collection.packs) :: Lookup(s', key) == Lookup(s, key))
  }

  lemma FinalState(inp: Inputs, specs: seq<Config.Pack>, contents: seq<Data>, s: Objects)
    requires |contents| == |specs| && Config.DistinctNames(specs) && InCollection(inp.collection.packs, specs)
    ensures IsFinal(inp, specs, contents, s, Replay(s, FullPlan(inp, specs, contents)))
  {
    hide KeyFor, Replay, FullPlan, ManagedKeys, PackNames, Target;
    forall name | name in PackNames(inp.collection.packs)
      ensures Lookup(Replay(s, FullPlan(inp, specs, contents)), KeyFor(inp.namespace, name))
              == Target(inp.collection.packs, specs, contents, name)
    {
      FinalStateOfName(inp, specs, contents, s, name);
    }
    PlanWithin(inp, specs, contents);
    forall key | key !in ManagedKeys(inp.namespace, inp.collection.packs)
      ensures Lookup(Replay(s, FullPlan(inp, specs, contents)), key) == Lookup(s, key)
    {
      FrameOfWrites(inp.namespace, inp.collection.packs, FullPlan(inp, specs, contents), s, key);
    }
  }

  /** The final state is determined: two stores that are final for the same start are equal. */
  lemma FinalIsUnique(inp: Inputs, specs: seq<Config.Pack>, contents: seq<Data>, s: Objects, s1: Objects, s2: Objects)
    requires |contents| == |specs|
    requires IsFinal(inp, specs, contents, s, s1) && IsFinal(inp, specs, contents, s, s2)
    ensures s1 == s2
  {
    hide Target, KeyFor, ManagedKeys, PackNames;
    forall key ensures Lookup(s1, key) == Lookup(s2, key) {
      ManagedIsNamed(inp.namespace, inp.collection.packs, key);
    }
    SameLookups(s1, s2);
  }

  lemma SameLookups(s1: Objects, s2: Objects)
    requires forall key :: Lookup(s1, key) == Lookup(s2, key)
    ensures s1 == s2
  {
    forall key ensures key in s1 <==> key in s2 {
      assert Lookup(s1, key) == Lookup(s2, key);
    }
    forall key | key in s1 ensures s1[key] == s2[key] {
      assert Lookup(s1, key) == Lookup(s2, key);
    }
  }

  // ----- from one attempt to the plan -----

  /** The writes of an attempt are applies, then removals, each at its place in the plan. */
  lemma SplitAttempt(inp: Inputs, shoot: Shoot, specs: seq<Config.Pack>, contents: seq<Data>, writes: seq<Write>,
                     err: Option<Error>)
    requires Executes(inp, shoot, specs, contents, writes, err)
    ensures var applies := ApplyWrites(inp.namespace, specs, contents);
            var removes := RemoveWrites(inp.namespace, Disabled(inp.collection.packs, specs));
            forall k | 0 <= k < |writes| ::
              if k < |applies| then writes[k] == applies[k]
              else k - |applies| < |removes| && writes[k] == removes[k - |applies|]
  {
    hide CanRender, CanFail, KeyFor, Disabled;
    var applies := ApplyWrites(inp.namespace, specs, contents);
    if |writes| > |applies| {
      assert forall k | |applies| <= k < |writes| :: writes[k] == writes[|applies|..][k - |applies|];
    }
  }

  /** A successful attempt on a shoot that is awake carries out the full plan of a valid configuration. */
  lemma SuccessIsPlan(inp: Inputs, contents: seq<Data>, writes: seq<Write>)
    requires Reconciles(inp, contents, writes, None)
    requires inp.cluster.Some? && !inp.cluster.value.hibernated
    ensures Configured(inp.tools, inp.providerConfig).Ok?
    ensures var specs := Configured(inp.tools, inp.providerConfig).value;
            && |contents| == |specs| && writes == FullPlan(inp, specs, contents)
            && Config.WellFormed(specs) && InCollection(inp.collection.packs, specs)
            && forall i | 0 <= i < |specs| :: CanRender(inp, inp.cluster.value, specs[i], contents[i])
  {
    hide Content, Disabled, KeyFor, RendersTo, Config.Errors;
    var specs := Configured(inp.tools, inp.providerConfig).value;
    Config.ValidIffWellFormed(specs);
    forall i | 0 <= i < |specs| ensures Assets.PackExists(inp.collection.packs, specs[i].name, specs[i].version) {
      assert CanRender(inp, inp.cluster.value, specs[i], contents[i]);
      Assets.ExistsIffGet(inp.collection.packs, specs[i].name, specs[i].version);
    }
  }

  /** The converse: when every configured pack can render, the full plan is a permitted successful attempt. */
  lemma PlanCanSucceed(inp: Inputs, specs: seq<Config.Pack>, contents: seq<Data>)
    requires inp.cluster.Some? && !inp.cluster.value.hibernated
    requires Configured(inp.tools, inp.providerConfig) == Ok(specs) && |contents| == |specs|
    requires forall i | 0 <= i < |specs| :: CanRender(inp, inp.cluster.value, specs[i], contents[i])
    ensures Reconciles(inp, contents, FullPlan(inp, specs, contents), None)
  {
  }

  lemma {:induction false} SomeContents(inp: Inputs, shoot: Shoot, specs: seq<Config.Pack>) returns (contents: seq<Data>)
    requires forall spec | spec in specs :: exists d :: CanRender(inp, shoot, spec, d)
    ensures |contents| == |specs| && forall i | 0 <= i < |specs| :: CanRender(inp, shoot, specs[i], contents[i])
  {
    hide CanRender;
    contents := [];
    if specs != [] {
      var init, last := specs[..|specs| - 1], specs[|specs| - 1];
      assert forall spec | spec in init :: spec in specs;
      contents := SomeContents(inp, shoot, init);
      assert last in specs;
      var d :| CanRender(inp, shoot, last, d);
      contents := contents + [d];
    }
  }

  /**
   An attempt on a shoot that is awake can succeed exactly when the configuration is valid and each
   configured pack renders for some iteration order of its secrets.
   */
  lemma CanSucceedIff(inp: Inputs)
    requires inp.cluster.Some? && !inp.cluster.value.hibernated
    ensures (exists contents, writes :: Reconciles(inp, contents, writes, None))
            <==> && Configured(inp.tools, inp.providerConfig).Ok?
                 && forall spec | spec in ConfiguredPacks(inp) :: exists d :: CanRender(inp, inp.cluster.value, spec, d)
  {
    hide CanRender, Reconciles, Configured, FullPlan, InCollection, Config.WellFormed;
    if contents, writes :| Reconciles(inp, contents, writes, None) {
      SuccessIsPlan(inp, contents, writes);
    }
    if && Configured(inp.tools, inp.providerConfig).Ok?
       && forall spec | spec in ConfiguredPacks(inp) :: exists d :: CanRender(inp, inp.cluster.value, spec, d) {
      var contents := SomeContents(inp, inp.cluster.value, ConfiguredPacks(inp));
      PlanCanSucceed(inp, ConfiguredPacks(inp), contents);
    }
  }

  /** Exact final state of a successful reconciliation. */
  lemma ReconcileFinalState(inp: Inputs, contents: seq<Data>, writes: seq<Write>, s: Objects)
    requires Reconciles(inp, contents, writes, None)
    requires inp.cluster.Some? && !inp.cluster.value.hibernated
    ensures Configured(inp.tools, inp.providerConfig).Ok?
    ensures |contents| == |Configured(inp.tools, inp.providerConfig).value|
    ensures IsFinal(inp, Configured(inp.tools, inp.providerConfig).value, contents, s, Replay(s, writes))
  {
    hide IsFinal, Replay, FullPlan, CanRender, Reconciles;
    SuccessIsPlan(inp, contents, writes);
    FinalState(inp, Configured(inp.tools, inp.providerConfig).value, contents, s);
  }

  /**
   Every configured pack ends up with its rendering exactly when no configured pack has another
   version in the collection.
   */
  lemma ConfiguredPacksArePresentIff(inp: Inputs, specs: seq<Config.Pack>, contents: seq<Data>, s: Objects)
    requires |contents| == |specs| && Config.DistinctNames(specs) && InCollection(inp.collection.packs, specs)
    ensures (forall i | 0 <= i < |specs| ::
               Lookup(Replay(s, FullPlan(inp, specs, contents)), KeyFor(inp.namespace, specs[i].name)) == Some(contents[i]))
            <==> SingleVersions(inp.collection.packs, specs)
  {
    hide KeyFor, Replay, FullPlan, HasOtherVersion;
    forall i | 0 <= i < |specs|
      ensures Lookup(Replay(s, FullPlan(inp, specs, contents)), KeyFor(inp.namespace, specs[i].name))
              == if HasOtherVersion(inp.collection.packs, specs[i]) then None else Some(contents[i])
    {
      NameInCollection(inp.collection.packs, specs, i);
      FirstIsItself(specs, i);
      FinalStateOfName(inp, specs, contents, s, specs[i].name);
    }
  }

  lemma NameInCollection(packs: seq<Assets.Pack>, specs: seq<Config.Pack>, i: nat)
    requires i < |specs| && InCollection(packs, specs)
    ensures specs[i].name in PackNames(packs)
  {
    assert Assets.PackExists(packs, specs[i].name, specs[i].version);
  }

  lemma FirstIsItself(specs: seq<Config.Pack>, i: nat)
    requires i < |specs| && Config.DistinctNames(specs)
    ensures Config.FirstNamed(specs, specs[i].name) == i
  {
    var first := Config.FirstNamed(specs, specs[i].name);
    assert specs[first].name == specs[i].name;
  }

  /** With single versions, a name of the collection is present exactly when it is configured. */
  lemma PresentIffConfigured(inp: Inputs, specs: seq<Config.Pack>, contents: seq<Data>, s: Objects, name: string)
    requires |contents| == |specs| && Config.DistinctNames(specs) && SingleVersions(inp.collection.packs, specs)
    requires name in PackNames(inp.collection.packs)
    ensures KeyFor(inp.namespace, name) in Replay(s, FullPlan(inp, specs, contents)) <==> IsConfigured(specs, name)
  {
    hide KeyFor, Replay, FullPlan, PackNames;
    FinalStateOfName(inp, specs, contents, s, name);
  }

  /**
   The documented collection with two versions of one pack: whichever is configured, a successful
   reconciliation applies it and then removes it again.
   */
  lemma TwoVersionsVanish(inp: Inputs, p17: Assets.Pack, p18: Assets.Pack, data: Data, s: Objects)
    requires p17.name == "postgres" && p17.version == "17" && p18.name == "postgres" && p18.version == "18"
    requires inp.collection.packs == [p17, p18]
    ensures KeyFor(inp.namespace, "postgres")
            !in Replay(s, FullPlan(inp, [Config.Pack("postgres", "18", [])], [data]))
  {
    hide KeyFor, Replay, FullPlan;
    var specs := [Config.Pack("postgres", "18", [])];
    assert p17 in inp.collection.packs;
    FinalStateOfName(inp, specs, [data], s, "postgres");
    assert HasOtherVersion(inp.collection.packs, specs[0]);
  }

  // ----- order independence -----

  /** Both lists have the same packs, and equal packs come with equal contents. */
  ghost predicate SamePacks(specs1: seq<Config.Pack>, c1: seq<Data>, specs2: seq<Config.Pack>, c2: seq<Data>)
    requires |c1| == |specs1| && |c2| == |specs2|
  {
    && multiset(specs1) == multiset(specs2)
    && forall i, j | 0 <= i < |specs1| && 0 <= j < |specs2| && specs1[i] == specs2[j] :: c1[i] == c2[j]
  }

  lemma SameTargets(packs: seq<Assets.Pack>, specs1: seq<Config.Pack>, c1: seq<Data>,
                    specs2: seq<Config.Pack>, c2: seq<Data>, name: string)
    requires |c1| == |specs1| && |c2| == |specs2|
    requires Config.DistinctNames(specs1) && Config.DistinctNames(specs2)
    requires SamePacks(specs1, c1, specs2, c2)
    ensures Target(packs, specs1, c1, name) == Target(packs, specs2, c2, name)
  {
    hide HasOtherVersion;
    PermutedFirst(specs1, specs2, name);
    PermutedFirst(specs2, specs1, name);
  }

  lemma PermutedFirst(specs1: seq<Config.Pack>, specs2: seq<Config.Pack>, name: string)
    requires Config.DistinctNames(specs1) && Config.DistinctNames(specs2)
    requires multiset(specs1) == multiset(specs2)
    ensures var i, j := Config.FirstNamed(specs1, name), Config.FirstNamed(specs2, name);
            i < |specs1| ==> j < |specs2| && specs1[i] == specs2[j]
  {
    var i := Config.FirstNamed(specs1, name);
    if i < |specs1| {
      assert specs1[i] in multiset(specs2);
      var k: nat :| k < |specs2| && specs2[k] == specs1[i];
      FirstIsItself(specs2, k);
    }
  }

  /** Permuting the configured packs does not change what a complete reconciliation leaves. */
  lemma OrderOfPacksIsIrrelevant(inp: Inputs, specs1: seq<Config.Pack>, c1: seq<Data>,
                                 specs2: seq<Config.Pack>, c2: seq<Data>, s: Objects)
    requires |c1| == |specs1| && |c2| == |specs2|
    requires Config.DistinctNames(specs1) && Config.DistinctNames(specs2)
    requires InCollection(inp.collection.packs, specs1) && InCollection(inp.collection.packs, specs2)
    requires SamePacks(specs1, c1, specs2, c2)
    ensures Replay(s, FullPlan(inp, specs1, c1)) == Replay(s, FullPlan(inp, specs2, c2))
  {
    hide Target, Replay, FullPlan, SamePacks, KeyFor, PackNames, ManagedKeys;
    FinalState(inp, specs1, c1, s);
    FinalState(inp, specs2, c2, s);
    forall name | name in PackNames(inp.collection.packs)
      ensures Target(inp.collection.packs, specs1, c1, name) == Target(inp.collection.packs, specs2, c2, name)
    {
      SameTargets(inp.collection.packs, specs1, c1, specs2, c2, name);
    }
    FinalIsUnique(inp, specs1, c1, s, Replay(s, FullPlan(inp, specs1, c1)), Replay(s, FullPlan(inp, specs2, c2)));
  }

  // ----- whatever order the secrets are iterated in -----

  /** What a name of the collection may hold after success: some rendering of its pack, or nothing. */
  ghost predicate MayHold(inp: Inputs, name: string, v: Option<Data>)
    requires inp.cluster.Some?
  {
    var specs := ConfiguredPacks(inp);
    var i := Config.FirstNamed(specs, name);
    if i < |specs| && !HasOtherVersion(inp.collection.packs, specs[i])
    then v.Some? && CanRender(inp, inp.cluster.value, specs[i], v.value)
    else v == None
  }

  ghost predicate Settled(inp: Inputs, s: Objects)
    requires inp.cluster.Some?
  {
    forall name | name in PackNames(inp.collection.packs) :: MayHold(inp, name, Lookup(s, KeyFor(inp.namespace, name)))
  }

  ghost predicate SameElsewhere(inp: Inputs, s1: Objects, s2: Objects) {
    forall key | key !in ManagedKeys(inp.namespace, inp.collection.packs) :: Lookup(s1, key) == Lookup(s2, key)
  }

  /** After success every name of the collection is settled, and nothing else has changed. */
  lemma SuccessSettles(inp: Inputs, contents: seq<Data>, writes: seq<Write>, s: Objects)
    requires inp.cluster.Some? && !inp.cluster.value.hibernated
    requires Reconciles(inp, contents, writes, None)
    ensures Settled(inp, Replay(s, writes)) && SameElsewhere(inp, s, Replay(s, writes))
  {
    hide Replay, Reconciles, CanRender, FullPlan, InCollection, Config.CompletePack, PackNames, ManagedKeys, KeyFor,
      HasOtherVersion, Configured;
    SuccessIsPlan(inp, contents, writes);
    FinalState(inp, ConfiguredPacks(inp), contents, s);
  }

  /**
   Two attempts install the same packs in one namespace: they are configured with the same packs in
   any order, and the secrets that these use hold the same data. Other secrets and the shoots may differ.
   */
  ghost predicate SameWork(inp1: Inputs, inp2: Inputs) {
    && inp1.tools == inp2.tools && inp1.collection == inp2.collection && inp1.namespace == inp2.namespace
    && multiset(ConfiguredPacks(inp1)) == multiset(ConfiguredPacks(inp2))
    && forall spec | spec in ConfiguredPacks(inp1) :: SameSecrets(inp1, inp2, spec)
  }

  ghost predicate SameSecrets(inp1: Inputs, inp2: Inputs, spec: Config.Pack) {
    forall p | p in spec.patches ::
      SecretOf(inp1.secrets, inp1.namespace, p.resourceRef) == SecretOf(inp2.secrets, inp2.namespace, p.resourceRef)
  }

  lemma {:induction false} PatchWritesBySecrets(base: string, ns: string, secrets1: Secrets, secrets2: Secrets,
                                                patches: seq<Config.PatchSpec>, orders: seq<seq<string>>)
    requires forall p | p in patches :: SecretOf(secrets1, ns, p.resourceRef) == SecretOf(secrets2, ns, p.resourceRef)
    requires EnumeratesAll(orders, ns, secrets1, patches)
    ensures EnumeratesAll(orders, ns, secrets2, patches)
    ensures PatchWrites(base, ns, secrets1, patches, orders) == PatchWrites(base, ns, secrets2, patches, orders)
  {
    hide SecretOf, GroupWrites, Enumerates;
    if patches != [] {
      PatchWritesBySecrets(base, ns, secrets1, secrets2, patches[..|patches| - 1], orders[..|patches| - 1]);
    }
  }

  lemma OrdersRender(inp1: Inputs, inp2: Inputs, shoot1: Shoot, shoot2: Shoot, spec: Config.Pack, asset: Assets.Pack,
                     orders1: seq<seq<string>>, orders2: seq<seq<string>>)
    requires inp1.tools == inp2.tools && inp1.collection == inp2.collection && inp1.namespace == inp2.namespace
    requires SameSecrets(inp1, inp2, spec)
    requires EnumeratesAll(orders1, inp1.namespace, inp1.secrets, spec.patches)
    requires EnumeratesAll(orders2, inp2.namespace, inp2.secrets, spec.patches)
    requires Content(inp1.tools, inp1.collection.files, shoot1, inp1.namespace, inp1.secrets, spec, asset, orders1).Ok?
    requires Content(inp2.tools, inp2.collection.files, shoot2, inp2.namespace, inp2.secrets, spec, asset, orders2).Ok?
    ensures EnumeratesAll(orders2, inp1.namespace, inp1.secrets, spec.patches)
    ensures Content(inp1.tools, inp1.collection.files, shoot1, inp1.namespace, inp1.secrets, spec, asset, orders2)
            == Content(inp2.tools, inp2.collection.files, shoot2, inp2.namespace, inp2.secrets, spec, asset, orders2)
  {
    hide EnumeratesAll, WriteAll, KustomizationOf, RenderFiles, FirstMissing, FirstUnreadable, SecretOf, ResourceWrites,
      PatchWrites;
    PatchWritesBySecrets(asset.baseDir, inp2.namespace, inp2.secrets, inp1.secrets, spec.patches, orders2);
  }

  /** What the one attempt can render, the other one can, if it can render the pack at all. */
  lemma SameRenderings(inp1: Inputs, inp2: Inputs, shoot1: Shoot, shoot2: Shoot, spec: Config.Pack, d1: Data, d2: Data)
    requires inp1.tools == inp2.tools && inp1.collection == inp2.collection && inp1.namespace == inp2.namespace
    requires SameSecrets(inp1, inp2, spec)
    requires CanRender(inp1, shoot1, spec, d1) && CanRender(inp2, shoot2, spec, d2)
    ensures CanRender(inp1, shoot1, spec, d2)
  {
    hide EnumeratesAll, Content, SameSecrets;
    var asset := AssetOf(inp1, spec).value;
    var orders1 :|
      && EnumeratesAll(orders1, inp1.namespace, inp1.secrets, spec.patches)
      && Content(inp1.tools, inp1.collection.files, shoot1, inp1.namespace, inp1.secrets, spec, asset, orders1) == Ok(d1);
    var orders2 :|
      && EnumeratesAll(orders2, inp2.namespace, inp2.secrets, spec.patches)
      && Content(inp2.tools, inp2.collection.files, shoot2, inp2.namespace, inp2.secrets, spec, asset, orders2) == Ok(d2);
    OrdersRender(inp1, inp2, shoot1, shoot2, spec, asset, orders1, orders2);
  }

  /** What a successful attempt may leave, another successful attempt on the same work may leave. */
  lemma SameWorkMayHold(inp1: Inputs, c1: seq<Data>, w1: seq<Write>, inp2: Inputs, c2: seq<Data>, w2: seq<Write>,
                        name: string, v: Option<Data>)
    requires inp1.cluster.Some? && !inp1.cluster.value.hibernated && Reconciles(inp1, c1, w1, None)
    requires inp2.cluster.Some? && !inp2.cluster.value.hibernated && Reconciles(inp2, c2, w2, None)
    requires SameWork(inp1, inp2) && MayHold(inp2, name, v)
    ensures MayHold(inp1, name, v)
  {
    hide Reconciles, CanRender, FullPlan, InCollection, Config.CompletePack, HasOtherVersion, Configured, SameSecrets;
    SuccessIsPlan(inp1, c1, w1);
    SuccessIsPlan(inp2, c2, w2);
    var specs1, specs2 := ConfiguredPacks(inp1), ConfiguredPacks(inp2);
    PermutedFirst(specs1, specs2, name);
    PermutedFirst(specs2, specs1, name);
    var i := Config.FirstNamed(specs1, name);
    if i < |specs1| && v.Some? {
      assert specs1[i] in specs1;
      SameRenderings(inp1, inp2, inp1.cluster.value, inp2.cluster.value, specs1[i], c1[i], v.value);
    }
  }

  /** Each configured pack renders alike for every iteration order of its secrets. */
  ghost predicate UniqueRenderings(inp: Inputs)
    requires inp.cluster.Some?
  {
    forall spec, asset | spec in ConfiguredPacks(inp) && AssetOf(inp, spec) == Some(asset) ::
      PatchFiles.OneRendering(inp.tools, inp.collection.files, inp.cluster.value, inp.namespace, inp.secrets, spec, asset)
  }

  /** Every secret that a configured pack uses has at most one key. */
  predicate UsesSingleKeys(inp: Inputs) {
    forall spec | spec in ConfiguredPacks(inp) :: PatchFiles.SingleKeys(inp.namespace, inp.secrets, spec.patches)
  }

  /** Secrets of one key, as in the documentation, make every rendering unique. */
  lemma SingleKeysGiveUniqueRenderings(inp: Inputs)
    requires inp.cluster.Some? && UsesSingleKeys(inp)
    ensures UniqueRenderings(inp)
  {
    hide PatchFiles.OneRendering, PatchFiles.SingleKeys, ConfiguredPacks;
    forall spec, asset | spec in ConfiguredPacks(inp) && AssetOf(inp, spec) == Some(asset)
      ensures PatchFiles.OneRendering(inp.tools, inp.collection.files, inp.cluster.value, inp.namespace, inp.secrets, spec, asset)
    {
      PatchFiles.SingleKeysRenderAlike(inp.tools, inp.collection.files, inp.cluster.value, inp.namespace, inp.secrets,
                                       spec, asset);
    }
  }

  lemma UniqueData(inp: Inputs, spec: Config.Pack, d1: Data, d2: Data)
    requires inp.cluster.Some? && UniqueRenderings(inp) && spec in ConfiguredPacks(inp)
    requires CanRender(inp, inp.cluster.value, spec, d1) && CanRender(inp, inp.cluster.value, spec, d2)
    ensures d1 == d2
  {
    hide EnumeratesAll, Content, ConfiguredPacks;
    var asset := AssetOf(inp, spec).value;
    assert PatchFiles.OneRendering(inp.tools, inp.collection.files, inp.cluster.value, inp.namespace, inp.secrets, spec, asset);
  }

  /** Two things that a name may hold are both there or both missing, and equal if renderings are unique. */
  lemma MayHoldAlike(inp: Inputs, name: string, v1: Option<Data>, v2: Option<Data>)
    requires inp.cluster.Some? && MayHold(inp, name, v1) && MayHold(inp, name, v2)
    ensures v1.Some? <==> v2.Some?
    ensures UniqueRenderings(inp) ==> v1 == v2
  {
    hide CanRender, ConfiguredPacks, UniqueRenderings;
    var specs := ConfiguredPacks(inp);
    var i := Config.FirstNamed(specs, name);
    if v1.Some? && UniqueRenderings(inp) {
      assert specs[i] in specs;
      UniqueData(inp, specs[i], v1.value, v2.value);
    }
  }

  /**
   Settled stores that agree elsewhere have the same objects, differ at most in renderings of the
   same packs, and are equal if renderings are unique.
   */
  lemma SettledAlike(inp: Inputs, s1: Objects, s2: Objects)
    requires inp.cluster.Some? && Settled(inp, s1) && Settled(inp, s2) && SameElsewhere(inp, s1, s2)
    ensures s1.Keys == s2.Keys
    ensures UniqueRenderings(inp) ==> s1 == s2
  {
    hide MayHold, KeyFor, PackNames, ManagedKeys, UniqueRenderings;
    forall key
      ensures key in s1 <==> key in s2
      ensures UniqueRenderings(inp) ==> Lookup(s1, key) == Lookup(s2, key)
    {
      ManagedIsNamed(inp.namespace, inp.collection.packs, key);
      if key in ManagedKeys(inp.namespace, inp.collection.packs) {
        var name :| name in PackNames(inp.collection.packs) && key == KeyFor(inp.namespace, name);
        MayHoldAlike(inp, name, Lookup(s1, key), Lookup(s2, key));
      } else {
        assert Lookup(s1, key) == Lookup(s2, key);
      }
    }
    if UniqueRenderings(inp) {
      SameLookups(s1, s2);
    }
  }

  /**
   Two successful reconciliations on the same work, configured in different orders, leave the same
   objects, each with a rendering that either of them can give.
   */
  lemma ReconcileOrderIndependent(inp1: Inputs, c1: seq<Data>, w1: seq<Write>, inp2: Inputs, c2: seq<Data>, w2: seq<Write>,
                                  s: Objects)
    requires inp1.cluster.Some? && !inp1.cluster.value.hibernated && Reconciles(inp1, c1, w1, None)
    requires inp2.cluster.Some? && !inp2.cluster.value.hibernated && Reconciles(inp2, c2, w2, None)
    requires SameWork(inp1, inp2)
    ensures Replay(s, w1).Keys == Replay(s, w2).Keys
    ensures Settled(inp1, Replay(s, w1)) && Settled(inp1, Replay(s, w2))
    ensures UniqueRenderings(inp1) ==> Replay(s, w1) == Replay(s, w2)
  {
    hide Replay, Reconciles, MayHold, UniqueRenderings, PackNames, ManagedKeys, KeyFor;
    SuccessSettles(inp1, c1, w1, s);
    SuccessSettles(inp2, c2, w2, s);
    forall name | name in PackNames(inp1.collection.packs)
      ensures MayHold(inp1, name, Lookup(Replay(s, w2), KeyFor(inp1.namespace, name)))
    {
      SameWorkMayHold(inp1, c1, w1, inp2, c2, w2, name, Lookup(Replay(s, w2), KeyFor(inp1.namespace, name)));
    }
    SettledAlike(inp1, Replay(s, w1), Replay(s, w2));
  }

  /**
   Repeating a successful reconciliation creates and removes nothing. It can change a rendering only
   into another one of the same pack, and changes nothing if renderings are unique.
   */
  lemma SuccessIsIdempotent(inp: Inputs, c1: seq<Data>, w1: seq<Write>, c2: seq<Data>, w2: seq<Write>, s: Objects)
    requires inp.cluster.Some? && !inp.cluster.value.hibernated
    requires Reconciles(inp, c1, w1, None) && Reconciles(inp, c2, w2, None)
    ensures Replay(Replay(s, w1), w2).Keys == Replay(s, w1).Keys
    ensures Settled(inp, Replay(s, w1)) && Settled(inp, Replay(Replay(s, w1), w2))
    ensures SameElsewhere(inp, s, Replay(Replay(s, w1), w2))
    ensures UniqueRenderings(inp) ==> Replay(Replay(s, w1), w2) == Replay(s, w1)
  {
    hide Replay, Reconciles, Settled, UniqueRenderings, ManagedKeys;
    SuccessSettles(inp, c1, w1, s);
    SuccessSettles(inp, c2, w2, Replay(s, w1));
    SettledAlike(inp, Replay(s, w1), Replay(Replay(s, w1), w2));
  }
}
