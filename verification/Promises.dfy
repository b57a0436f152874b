/** What an attempt means: when it succeeds, what it leaves, and what its error says is true. */
module Promises {
  import opened Results
  import opened Collections
  import Config
  import Assets
  import opened Shoots
  import opened Rendering
  import opened Store
  import opened Plan
  import opened Outcomes
  import opened Meaning

  // ----- why a pack fails -----

  /** What the error says about the pack is true. */
  ghost predicate PackFails(inp: Inputs, shoot: Shoot, spec: Config.Pack, e: Error) {
    match e
    case UnknownPack(name, version) =>
      && name == spec.name && version == spec.version
      && forall p | p in inp.collection.packs :: p.name != name || p.version != version
    case UnknownRef(ref) => exists patch :: patch in spec.patches && patch.resourceRef == ref && !IsReferenced(shoot, ref)
    case SecretUnavailable(ref) => exists patch :: patch in spec.patches && patch.resourceRef == ref && IsReferenced(shoot, ref)
    case _ => exists p, st :: IsFirstMatch(inp.collection.packs, spec.name, spec.version, p) && StageFails(inp, shoot, spec, p, st, e)
  }

  /** The stage of the rendering that the error names fails. */
  ghost predicate StageFails(inp: Inputs, shoot: Shoot, spec: Config.Pack, p: Assets.Pack, st: Stages, e: Error) {
    match e
    case UnreadableResource(path) => exists r :: r in p.resources && r.path == path && !Readable(inp.collection.files, path)
    case MarshalFailed => Kustomizes(inp, shoot, spec, p, st) && inp.tools.marshal(st.kustomization).None?
    case KustomizeFailed => Prepares(inp, shoot, spec, p, st) && inp.tools.kustomize(st.files, p.baseDir).None?
    case LabelsRejected(i) =>
      && Builds(inp, shoot, spec, p, st)
      && i < |st.objects| && st.objects[i].kind != "Namespace" && inp.tools.rejectsLabels(st.objects[i])
    case YamlFailed(i) =>
      && Builds(inp, shoot, spec, p, st)
      && i < |st.objects| && st.objects[i].kind != "Namespace"
      && exists labelled :: IsLabelled(p, st.objects[i], labelled) && inp.tools.asYaml(labelled).None?
    case SerializeFailed => Registers(inp, shoot, spec, p, st) && inp.tools.serialize(st.registry).None?
    case _ => false
  }

  lemma {:induction false} FirstUnreadableIs(files: Assets.Files, resources: seq<Assets.Resource>)
    requires FirstUnreadable(files, resources).Some?
    ensures exists r :: r in resources && FirstUnreadable(files, resources) == Some(UnreadableResource(r.path))
                        && !Readable(files, r.path)
  {
    if Assets.ReadFile(files, resources[0].path).None? {
      assert resources[0] in resources;
    } else {
      FirstUnreadableIs(files, resources[1..]);
    }
  }

  lemma {:induction false} FirstMissingIs(shoot: Shoot, ns: string, secrets: Secrets, patches: seq<Config.PatchSpec>)
    requires FirstMissing(shoot, ns, secrets, patches).Some?
    ensures exists patch :: patch in patches
                            && FirstMissing(shoot, ns, secrets, patches)
                               == Some(if IsReferenced(shoot, patch.resourceRef) then SecretUnavailable(patch.resourceRef)
                                       else UnknownRef(patch.resourceRef))
  {
    hide IsReferenced, HasSecretRef;
    ReferencedIff(shoot, patches[0].resourceRef);
    assert patches[0] in patches;
    if HasSecretRef(shoot.resources, patches[0].resourceRef) && ObjectKey(ns, SecretName(patches[0].resourceRef)) in secrets {
      FirstMissingIs(shoot, ns, secrets, patches[1..]);
    }
  }

  lemma {:induction false} FirstBadIs(tools: Toolkit, p: Assets.Pack, objs: seq<Object>, i: nat)
    requires i <= |objs| && FirstBadObject(tools, p, objs, i).Some?
    ensures match FirstBadObject(tools, p, objs, i).value
            case LabelsRejected(k) => k < |objs| && !IsNamespace(objs[k]) && tools.rejectsLabels(objs[k])
            case YamlFailed(k) => k < |objs| && !IsNamespace(objs[k]) && tools.asYaml(Relabelled(objs[k], p)).None?
            case _ => false
    decreases |objs| - i
  {
    hide Relabelled;
    if IsNamespace(objs[i]) || Registrable(tools, p, objs[i]) {
      FirstBadIs(tools, p, objs, i + 1);
    }
  }

  lemma PreparationFailsTruly(inp: Inputs, shoot: Shoot, spec: Config.Pack, p: Assets.Pack, e: Error)
    requires IsFirstMatch(inp.collection.packs, spec.name, spec.version, p)
    requires PrepareError(inp.collection.files, shoot, inp.namespace, inp.secrets, spec, p) == Some(e)
    ensures PackFails(inp, shoot, spec, e)
  {
    hide IsReferenced, IsFirstMatch, FirstMissing, FirstUnreadable, Readable;
    if FirstUnreadable(inp.collection.files, p.resources).Some? {
      FirstUnreadableIs(inp.collection.files, p.resources);
      assert StageFails(inp, shoot, spec, p, Stages([], Kustomization("", [], [], []), map[], [], map[]), e);
    } else {
      FirstMissingIs(shoot, inp.namespace, inp.secrets, spec.patches);
    }
  }

  lemma RenderingFailsTruly(inp: Inputs, shoot: Shoot, spec: Config.Pack, p: Assets.Pack, orders: seq<seq<string>>, e: Error)
    requires IsFirstMatch(inp.collection.packs, spec.name, spec.version, p)
    requires PrepareError(inp.collection.files, shoot, inp.namespace, inp.secrets, spec, p).None?
    requires EnumeratesAll(orders, inp.namespace, inp.secrets, spec.patches)
    requires Content(inp.tools, inp.collection.files, shoot, inp.namespace, inp.secrets, spec, p, orders) == Err(e)
    ensures PackFails(inp, shoot, spec, e)
  {
    hide EnumeratesAll, KustomizationOf, PackWrites, WriteAll, FirstBadObject, Registered, Registers, Prepares, Kustomizes,
      PrepareError, IsFirstMatch, IsLabelled, Relabelled;
    var st := StagesOf(inp, shoot, spec, p, orders);
    if inp.tools.marshal(st.kustomization).Some? && inp.tools.kustomize(st.files, p.baseDir).Some? {
      BuildsObjects(inp, shoot, spec, p, st);
      if FirstBadObject(inp.tools, p, st.objects, 0).Some? {
        FirstBadIs(inp.tools, p, st.objects, 0);
        forall o ensures IsLabelled(p, o, Relabelled(o, p)) {
          RelabelledIsLabelled(p, o);
        }
      }
    }
    assert StageFails(inp, shoot, spec, p, st, e);
  }

  /** A pack fails only with an error that is true of it. */
  lemma PackFailsTruly(inp: Inputs, shoot: Shoot, spec: Config.Pack, e: Error)
    requires CanFail(inp, shoot, spec, e)
    ensures PackFails(inp, shoot, spec, e)
  {
    hide EnumeratesAll, Content, FirstMissing, FirstUnreadable, IsFirstMatch, StageFails;
    var found := AssetOf(inp, spec);
    if found.Some? {
      FirstMatchIff(inp.collection.packs, spec.name, spec.version, found.value);
      if orders :|
          && EnumeratesAll(orders, inp.namespace, inp.secrets, spec.patches)
          && Content(inp.tools, inp.collection.files, shoot, inp.namespace, inp.secrets, spec, found.value, orders) == Err(e) {
        ContentFailsTruly(inp, shoot, spec, found.value, orders, e);
      } else {
        var i :| 0 <= i < |spec.patches| && e == SecretUnavailable(spec.patches[i].resourceRef)
                 && HasSecretRef(shoot.resources, spec.patches[i].resourceRef);
        ReferencedIff(shoot, spec.patches[i].resourceRef);
        assert spec.patches[i] in spec.patches;
      }
    }
  }

  lemma ContentFailsTruly(inp: Inputs, shoot: Shoot, spec: Config.Pack, p: Assets.Pack, orders: seq<seq<string>>, e: Error)
    requires IsFirstMatch(inp.collection.packs, spec.name, spec.version, p)
    requires EnumeratesAll(orders, inp.namespace, inp.secrets, spec.patches)
    requires Content(inp.tools, inp.collection.files, shoot, inp.namespace, inp.secrets, spec, p, orders) == Err(e)
    ensures PackFails(inp, shoot, spec, e)
  {
    hide EnumeratesAll, IsFirstMatch, PackFails, PrepareError;
    if PrepareError(inp.collection.files, shoot, inp.namespace, inp.secrets, spec, p).Some? {
      PreparationFailsTruly(inp, shoot, spec, p, e);
    } else {
      RenderingFailsTruly(inp, shoot, spec, p, orders, e);
    }
  }

  // ----- what an attempt promises -----

  /** The name that the reconciler gives to the object of a pack. */
  function ObjectOf(inp: Inputs, name: string): ObjectKey {
    ObjectKey(inp.namespace, "extension-shoot-pack-" + name)
  }

  lemma ObjectOfIsKey(inp: Inputs, name: string)
    ensures ObjectOf(inp, name) == KeyFor(inp.namespace, name)
  {
    assert "extension-shoot-pack" + "-" == "extension-shoot-pack-";
  }

  ghost predicate Decodes(inp: Inputs, packs: seq<Config.Pack>) {
    inp.providerConfig.Some? && inp.tools.decode(inp.providerConfig.value) == Some(Config.PackConfig(packs))
  }

  /** What the error says about the attempt, in which n packs were rendered, is true. */
  ghost predicate AttemptFails(inp: Inputs, n: nat, e: Error, failed: seq<Call>) {
    match e
    case NoProviderConfig => inp.providerConfig.None?
    case DecodeFailed => inp.providerConfig.Some? && inp.tools.decode(inp.providerConfig.value).None?
    case InvalidConfig(errs) =>
      errs != [] && exists packs: seq<Config.Pack> :: Decodes(inp, packs) && forall x :: x in errs <==> Config.IsTrue(packs, x)
    case ClusterUnavailable => failed == [GetCluster(inp.namespace)] || inp.cluster.None?
    case CreateFailed(key) =>
      && failed == [Create(key)]
      && exists packs: seq<Config.Pack> :: Decodes(inp, packs) && 0 < n <= |packs| && key == ObjectOf(inp, packs[n - 1].name)
    case DeleteFailed(key) =>
      && failed == [Delete(key)]
      && exists packs: seq<Config.Pack>, p :: Decodes(inp, packs) && p in inp.collection.packs && key == ObjectOf(inp, p.name)
                            && forall spec | spec in packs :: spec.name != p.name || spec.version != p.version
    case SecretUnavailable(ref) =>
      && (failed == [GetSecret(ObjectKey(inp.namespace, "ref-" + ref))] || ObjectKey(inp.namespace, "ref-" + ref) !in inp.secrets)
      && FailsAt(inp, n, e)
    case _ => failed == [] && FailsAt(inp, n, e)
  }

  /** The pack after those rendered fails, and truly so. */
  ghost predicate FailsAt(inp: Inputs, n: nat, e: Error) {
    inp.cluster.Some? && exists packs: seq<Config.Pack> :: Decodes(inp, packs) && n < |packs| && PackFails(inp, inp.cluster.value, packs[n], e)
  }

  lemma ConfiguredDecodes(inp: Inputs)
    ensures match Configured(inp.tools, inp.providerConfig)
            case Ok(packs) => Decodes(inp, packs) && Config.WellFormed(packs)
            case Err(NoProviderConfig) => inp.providerConfig.None?
            case Err(DecodeFailed) => inp.providerConfig.Some? && inp.tools.decode(inp.providerConfig.value).None?
            case Err(InvalidConfig(errs)) =>
              errs != [] && exists packs: seq<Config.Pack> :: Decodes(inp, packs) && forall x :: x in errs <==> Config.IsTrue(packs, x)
            case Err(_) => false
  {
    hide Config.Errors, Config.IsTrue, Config.WellFormed, Config.Ordered;
    if inp.providerConfig.Some? && inp.tools.decode(inp.providerConfig.value).Some? {
      var packs := inp.tools.decode(inp.providerConfig.value).value.packs;
      Config.ValidIffWellFormed(packs);
      Config.ReportsAreTrue(packs, Config.Errors(packs, |packs|));
      assert Decodes(inp, packs);
    }
  }

  /** Whatever error an attempt ends with, what it says is true, and no other call has failed. */
  lemma ErrorIsTrue(inp: Inputs, contents: seq<Data>, writes: seq<Write>, e: Error, failed: seq<Call>)
    requires Reconciles(inp, contents, writes, Some(e))
    requires Blames(inp.namespace, inp.cluster, inp.secrets, Some(e), failed)
    ensures AttemptFails(inp, |contents|, e, failed)
  {
    hide Configured, Executes, PackFails, Config.IsTrue, Config.WellFormed, ObjectOf, KeyFor;
    ConfiguredDecodes(inp);
    if !e.ClusterUnavailable? {
      var configured := Configured(inp.tools, inp.providerConfig);
      if configured.Ok? {
        var packs := configured.value;
        ExecutionErrorIsTrue(inp, inp.cluster.value, packs, contents, writes, e);
        if !e.CreateFailed? && !e.DeleteFailed? {
          PackFailureKinds(inp, inp.cluster.value, packs[|contents|], e);
          assert FailsAt(inp, |contents|, e);
        }
      }
    }
  }

  lemma PackFailureKinds(inp: Inputs, shoot: Shoot, spec: Config.Pack, e: Error)
    requires PackFails(inp, shoot, spec, e)
    ensures !e.NoProviderConfig? && !e.DecodeFailed? && !e.InvalidConfig?
    ensures !e.ClusterUnavailable? && !e.CreateFailed? && !e.DeleteFailed?
  {
    hide IsFirstMatch, Kustomizes, Prepares, Builds, Registers;
  }

  lemma ExecutionErrorIsTrue(inp: Inputs, shoot: Shoot, packs: seq<Config.Pack>, contents: seq<Data>, writes: seq<Write>, e: Error)
    requires Executes(inp, shoot, packs, contents, writes, Some(e))
    ensures match e
            case CreateFailed(key) => 0 < |contents| <= |packs| && key == ObjectOf(inp, packs[|contents| - 1].name)
            case DeleteFailed(key) =>
              exists p :: p in inp.collection.packs && key == ObjectOf(inp, p.name)
                          && forall spec | spec in packs :: spec.name != p.name || spec.version != p.version
            case _ => |contents| < |packs| && PackFails(inp, shoot, packs[|contents|], e)
  {
    hide CanRender, CanFail, PackFails, ObjectOf, KeyFor, Disabled;
    match e
    case CreateFailed(key) =>
      ObjectOfIsKey(inp, packs[|contents| - 1].name);
    case DeleteFailed(key) =>
      var disabled := Disabled(inp.collection.packs, packs);
      var j: nat :| j < |disabled| && Remove(key) == RemoveWrites(inp.namespace, disabled)[j];
      var p := DisabledIsUnconfigured(inp.collection.packs, packs, j);
      ObjectOfIsKey(inp, p.name);
    case _ =>
      PackFailsTruly(inp, shoot, packs[|contents|], e);
  }

  lemma {:induction false} DisabledIsUnconfigured(packs: seq<Assets.Pack>, specs: seq<Config.Pack>, j: nat) returns (p: Assets.Pack)
    requires j < |Disabled(packs, specs)|
    ensures p in packs && Disabled(packs, specs)[j].name == p.name
    ensures forall spec | spec in specs :: spec.name != p.name || spec.version != p.version
  {
    var init, last := packs[..|packs| - 1], packs[|packs| - 1];
    if j < |Disabled(init, specs)| {
      p := DisabledIsUnconfigured(init, specs, j);
    } else {
      p := last;
      assert !IsEnabled(specs, last);
    }
  }

  /** A shoot that is hibernated is left alone. */
  lemma HibernatedIsLeftAlone(inp: Inputs, contents: seq<Data>, writes: seq<Write>, err: Option<Error>, s: Objects)
    requires inp.cluster.Some? && inp.cluster.value.hibernated
    requires Reconciles(inp, contents, writes, err)
    ensures Replay(s, writes) == s && (err.None? || err == Some(ClusterUnavailable))
  {
    ReplayNone(s);
  }

  /**
   A success on a shoot that is awake: the configuration is well formed, each configured pack is
   rendered from the first pack of the collection with its name and version, and its object holds
   the rendering unless the collection has another version of it. No other pack of the collection
   has an object, and every other object is as before.
   */
  lemma SuccessPromise(inp: Inputs, contents: seq<Data>, writes: seq<Write>, s: Objects) returns (packs: seq<Config.Pack>)
    requires inp.cluster.Some? && !inp.cluster.value.hibernated
    requires Reconciles(inp, contents, writes, None)
    ensures Decodes(inp, packs) && Config.WellFormed(packs) && |contents| == |packs|
    ensures forall i | 0 <= i < |packs| :: IsRendering(inp, inp.cluster.value, packs[i], contents[i])
    ensures forall i | 0 <= i < |packs| && !HasOtherVersion(inp.collection.packs, packs[i]) ::
              Lookup(Replay(s, writes), ObjectOf(inp, packs[i].name)) == Some(contents[i])
    ensures forall p | p in inp.collection.packs
                       && (forall spec | spec in packs :: spec.name == p.name ==> HasOtherVersion(inp.collection.packs, spec)) ::
              ObjectOf(inp, p.name) !in Replay(s, writes)
    ensures forall key | (forall p | p in inp.collection.packs :: key != ObjectOf(inp, p.name)) ::
              Lookup(Replay(s, writes), key) == Lookup(s, key)
  {
    hide Reconciles, CanRender, IsRendering, Replay, KeyFor, ObjectOf, HasOtherVersion, Configured, FullPlan, Config.CompletePack;
    SuccessIsPlan(inp, contents, writes);
    ReconcileFinalState(inp, contents, writes, s);
    ConfiguredDecodes(inp);
    packs := Configured(inp.tools, inp.providerConfig).value;
    forall name ensures ObjectOf(inp, name) == KeyFor(inp.namespace, name) {
      ObjectOfIsKey(inp, name);
    }
    forall i: nat | i < |packs|
      ensures IsRendering(inp, inp.cluster.value, packs[i], contents[i])
      ensures packs[i].name in PackNames(inp.collection.packs) && Config.FirstNamed(packs, packs[i].name) == i
    {
      CanRenderIff(inp, inp.cluster.value, packs[i], contents[i]);
      NameInCollection(inp.collection.packs, packs, i);
      FirstIsItself(packs, i);
    }
    forall p | p in inp.collection.packs
               && (forall spec | spec in packs :: spec.name == p.name ==> HasOtherVersion(inp.collection.packs, spec))
      ensures ObjectOf(inp, p.name) !in Replay(s, writes)
    {
      assert p.name in PackNames(inp.collection.packs);
      var i := Config.FirstNamed(packs, p.name);
      assert i < |packs| ==> packs[i] in packs;
      assert Target(inp.collection.packs, packs, contents, p.name) == None;
    }
    forall key | (forall p | p in inp.collection.packs :: key != ObjectOf(inp, p.name))
      ensures Lookup(Replay(s, writes), key) == Lookup(s, key)
    {
      assert key !in ManagedKeys(inp.namespace, inp.collection.packs);
    }
  }

  /** A deletion removes the object of every pack of the collection, or a call to delete one of them fails. */
  lemma DeletionPromise(inp: Inputs, writes: seq<Write>, err: Option<Error>, failed: seq<Call>, s: Objects)
    requires Deletes(inp, writes, err) && Blames(inp.namespace, inp.cluster, inp.secrets, err, failed)
    ensures err.None? <==> failed == []
    ensures err.None? ==> forall p | p in inp.collection.packs :: ObjectOf(inp, p.name) !in Replay(s, writes)
    ensures err.Some? ==> exists p :: p in inp.collection.packs && failed == [Delete(ObjectOf(inp, p.name))]
                                      && err == Some(DeleteFailed(ObjectOf(inp, p.name)))
  {
    hide Replay, KeyFor, ObjectOf;
    forall name ensures ObjectOf(inp, name) == KeyFor(inp.namespace, name) {
      ObjectOfIsKey(inp, name);
    }
    if err.None? {
      forall p | p in inp.collection.packs ensures ObjectOf(inp, p.name) !in Replay(s, writes) {
        var i: nat :| i < |inp.collection.packs| && inp.collection.packs[i] == p;
        VerdictOfRemoves(inp.namespace, AllSpecs(inp.collection.packs), p.name);
        assert AllSpecs(inp.collection.packs)[i].name == p.name;
        LookupReplay(s, writes, KeyFor(inp.namespace, p.name));
      }
    } else {
      var j: nat :| j < |inp.collection.packs|
        && RemoveWrites(inp.namespace, AllSpecs(inp.collection.packs))[j] == Remove(err.value.key);
      assert inp.collection.packs[j] in inp.collection.packs;
    }
  }

  // ----- when no call fails -----

  /** Nothing is wrong with the pack, whatever order its secrets are iterated in. */
  ghost predicate AlwaysRenders(inp: Inputs, shoot: Shoot, spec: Config.Pack) {
    forall e | PackFails(inp, shoot, spec, e) :: e.SecretUnavailable? && ObjectKey(inp.namespace, "ref-" + e.ref) in inp.secrets
  }

  /** When no call fails, a valid configuration of packs that always render reconciles. */
  lemma NoFailedCallNoError(inp: Inputs, packs: seq<Config.Pack>, contents: seq<Data>, writes: seq<Write>, err: Option<Error>)
    requires inp.cluster.Some? && Reconciles(inp, contents, writes, err)
    requires Blames(inp.namespace, inp.cluster, inp.secrets, err, [])
    requires Decodes(inp, packs) && Config.WellFormed(packs)
    requires forall spec | spec in packs :: AlwaysRenders(inp, inp.cluster.value, spec)
    ensures err.None?
  {
    hide Reconciles, PackFails, ObjectOf, Config.IsTrue, Config.WellFormed, Config.Errors, Config.Ordered;
    if err.Some? {
      ErrorIsTrue(inp, contents, writes, err.value, []);
      Config.ValidIffWellFormed(packs);
      Config.ReportsAreTrue(packs, Config.Errors(packs, |packs|));
      NothingReported(packs, err.value);
      if |contents| < |packs| {
        assert packs[|contents|] in packs;
      }
    }
  }

  lemma NothingReported(packs: seq<Config.Pack>, e: Error)
    requires forall x :: !Config.IsTrue(packs, x)
    ensures e.InvalidConfig? && e.errs != [] ==> !forall x :: x in e.errs <==> Config.IsTrue(packs, x)
  {
    hide Config.IsTrue;
    if e.InvalidConfig? && e.errs != [] {
      assert e.errs[0] in e.errs;
    }
  }
}
