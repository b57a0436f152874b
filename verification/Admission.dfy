/** The admission webhook, and its agreement with the reconciler on which configurations are acceptable. */
module Admission {
  import opened Results
  import Config
  import Assets
  import opened Shoots
  import opened Rendering
  import opened Store
  import opened Plan
  import opened Outcomes

  const EXTENSION_TYPE := "shoot-pack"

  datatype ShootExtension = ShootExtension(kind: string, disabled: Option<bool>, providerConfig: Option<string>)

  datatype ShootSpec = ShootSpec(deleting: bool, extensions: seq<ShootExtension>, resources: seq<NamedReference>)

  /** The object under admission, which need not be a shoot. */
  datatype AdmissionObject = ShootObject(shoot: ShootSpec) | OtherObject

  datatype Refusal = WrongType | Misconfigured(error: Error)

  // ----- what is acceptable -----

  predicate ReferencesExist(specs: seq<Config.Pack>, resources: seq<NamedReference>) {
    forall i, k | 0 <= i < |specs| && 0 <= k < |specs[i].patches| ::
      HasSecretRef(resources, specs[i].patches[k].resourceRef)
  }

  /** A present, decodable, well-formed configuration of known packs with known references. */
  predicate ConfigAcceptable(decode: string -> Option<Config.PackConfig>, packs: seq<Assets.Pack>,
                             providerConfig: Option<string>, resources: seq<NamedReference>)
  {
    && providerConfig.Some?
    && decode(providerConfig.value).Some?
    && var specs := decode(providerConfig.value).value.packs;
       && Config.WellFormed(specs)
       && InCollection(packs, specs)
       && ReferencesExist(specs, resources)
  }

  /** The first extension of this type. */
  function ExtensionOf(extensions: seq<ShootExtension>): (e: Option<ShootExtension>)
    ensures e.Some? ==> exists i :: 0 <= i < |extensions| && extensions[i] == e.value && e.value.kind == EXTENSION_TYPE
                                    && forall j | 0 <= j < i :: extensions[j].kind != EXTENSION_TYPE
    ensures e.None? ==> forall i | 0 <= i < |extensions| :: extensions[i].kind != EXTENSION_TYPE
  {
    if extensions == [] then None
    else if extensions[0].kind == EXTENSION_TYPE then Some(extensions[0])
    else ExtensionOf(extensions[1..])
  }

  predicate IsDisabled(e: ShootExtension) {
    e.disabled == Some(true)
  }

  /** What the webhook accepts. */
  predicate Admits(decode: string -> Option<Config.PackConfig>, packs: seq<Assets.Pack>, obj: AdmissionObject) {
    && obj.ShootObject?
    && (obj.shoot.deleting
        || match ExtensionOf(obj.shoot.extensions)
           case None => true
           case Some(e) => IsDisabled(e) || ConfigAcceptable(decode, packs, e.providerConfig, obj.shoot.resources))
  }

  /**
   Spelled out: everything is admitted but another kind of object, and a shoot that is not being
   deleted and whose first extension of this type is not switched off and has a bad configuration.
   */
  lemma AdmitsIff(decode: string -> Option<Config.PackConfig>, packs: seq<Assets.Pack>, obj: AdmissionObject)
    ensures Admits(decode, packs, obj) <==>
            && obj.ShootObject?
            && (obj.shoot.deleting
                || forall i | 0 <= i < |obj.shoot.extensions| && obj.shoot.extensions[i].kind == "shoot-pack"
                              && forall j | 0 <= j < i :: obj.shoot.extensions[j].kind != "shoot-pack" ::
                     obj.shoot.extensions[i].disabled == Some(true)
                     || IsGoodConfig(decode, packs, obj.shoot.extensions[i].providerConfig, obj.shoot.resources))
  {
    hide ConfigAcceptable, IsGoodConfig, ExtensionOf;
    if obj.ShootObject? {
      var e := ExtensionOf(obj.shoot.extensions);
      if e.Some? {
        GoodConfigIff(decode, packs, e.value.providerConfig, obj.shoot.resources);
      }
    }
  }

  /** The configuration decodes to some packs that have nothing wrong with them. */
  ghost predicate IsGoodConfig(decode: string -> Option<Config.PackConfig>, packs: seq<Assets.Pack>,
                               providerConfig: Option<string>, resources: seq<NamedReference>)
  {
    exists raw, cfg: Config.PackConfig ::
      && providerConfig == Some(raw) && decode(raw) == Some(cfg)
      && (forall e :: !Config.IsTrue(cfg.packs, e))
      && forall spec | spec in cfg.packs ::
           && (exists p :: p in packs && p.name == spec.name && p.version == spec.version)
           && forall patch | patch in spec.patches :: NamedReference(patch.resourceRef, "Secret", "v1") in resources
  }

  lemma GoodConfigIff(decode: string -> Option<Config.PackConfig>, packs: seq<Assets.Pack>,
                      providerConfig: Option<string>, resources: seq<NamedReference>)
    ensures ConfigAcceptable(decode, packs, providerConfig, resources)
            <==> IsGoodConfig(decode, packs, providerConfig, resources)
  {
    hide Config.WellFormed, Config.IsTrue, Config.Errors, Config.Ordered, HasSecretRef;
    if providerConfig.Some? && decode(providerConfig.value).Some? {
      var specs := decode(providerConfig.value).value.packs;
      Config.ValidIffWellFormed(specs);
      Config.ReportsAreTrue(specs, Config.Errors(specs, |specs|));
      assert Config.Errors(specs, |specs|) == [] <==> forall e :: !Config.IsTrue(specs, e) by {
        NoReports(specs, Config.Errors(specs, |specs|));
      }
      KnownPacks(specs, packs);
      KnownReferences(specs, resources);
    }
  }

  lemma NoReports(specs: seq<Config.Pack>, errs: seq<Config.FieldError>)
    requires forall e :: e in errs <==> Config.IsTrue(specs, e)
    ensures errs == [] <==> forall e :: !Config.IsTrue(specs, e)
  {
    hide Config.IsTrue;
    if errs != [] {
      assert errs[0] in errs;
    }
  }

  lemma KnownPacks(specs: seq<Config.Pack>, packs: seq<Assets.Pack>)
    ensures InCollection(packs, specs) <==>
            forall spec | spec in specs :: exists p :: p in packs && p.name == spec.name && p.version == spec.version
  {
    if forall spec | spec in specs :: exists p :: p in packs && p.name == spec.name && p.version == spec.version {
      forall i | 0 <= i < |specs| ensures Assets.PackExists(packs, specs[i].name, specs[i].version) {
        assert specs[i] in specs;
      }
    }
  }

  lemma KnownReferences(specs: seq<Config.Pack>, resources: seq<NamedReference>)
    ensures ReferencesExist(specs, resources) <==>
            forall spec, patch | spec in specs && patch in spec.patches ::
              NamedReference(patch.resourceRef, "Secret", "v1") in resources
  {
    hide HasSecretRef;
    forall ref ensures HasSecretRef(resources, ref) <==> NamedReference(ref, "Secret", "v1") in resources {
      SecretRefIff(resources, ref);
    }
    if ReferencesExist(specs, resources) {
      forall spec, patch | spec in specs && patch in spec.patches
        ensures NamedReference(patch.resourceRef, "Secret", "v1") in resources
      {
        var i :| 0 <= i < |specs| && specs[i] == spec;
        var k :| 0 <= k < |specs[i].patches| && specs[i].patches[k] == patch;
        assert HasSecretRef(resources, specs[i].patches[k].resourceRef);
      }
    } else {
      var i, k :| 0 <= i < |specs| && 0 <= k < |specs[i].patches| && !HasSecretRef(resources, specs[i].patches[k].resourceRef);
      assert specs[i] in specs && specs[i].patches[k] in specs[i].patches;
    }
  }

  /** Why a configuration is refused. */
  ghost predicate Justified(decode: string -> Option<Config.PackConfig>, packs: seq<Assets.Pack>,
                            providerConfig: Option<string>, resources: seq<NamedReference>, e: Error)
  {
    match e
    case NoProviderConfig => providerConfig.None?
    case DecodeFailed => providerConfig.Some? && decode(providerConfig.value).None?
    case InvalidConfig(errs) =>
      && providerConfig.Some? && decode(providerConfig.value).Some?
      && var specs := decode(providerConfig.value).value.packs;
         errs == Config.Errors(specs, |specs|) && errs != []
    case UnknownPack(name, version) =>
      && providerConfig.Some? && decode(providerConfig.value).Some?
      && !Assets.PackExists(packs, name, version)
      && var specs := decode(providerConfig.value).value.packs;
         exists i :: 0 <= i < |specs| && specs[i].name == name && specs[i].version == version
    case UnknownRef(ref) =>
      && providerConfig.Some? && decode(providerConfig.value).Some?
      && !HasSecretRef(resources, ref)
      && var specs := decode(providerConfig.value).value.packs;
         exists i, k :: 0 <= i < |specs| && 0 <= k < |specs[i].patches| && specs[i].patches[k].resourceRef == ref
    case _ => false
  }

  // ----- the webhook -----

  class ShootValidator {
    const decode: string -> Option<Config.PackConfig>
    const collection: Assets.Collection

    constructor (decode: string -> Option<Config.PackConfig>, collection: Assets.Collection)
      ensures this.decode == decode && this.collection == collection
    {
      this.decode, this.collection := decode, collection;
    }

    method GetExtension(shoot: ShootSpec) returns (ext: Option<ShootExtension>)
      ensures ext == ExtensionOf(shoot.extensions)
    {
      for i := 0 to |shoot.extensions|
        invariant ExtensionOf(shoot.extensions) == ExtensionOf(shoot.extensions[i..])
      {
        if shoot.extensions[i].kind == EXTENSION_TYPE {
          return Some(shoot.extensions[i]);
        }
      }
      return None;
    }

    /** The loop over the patches of one pack. */
    method CheckReferences(spec: Config.Pack, resources: seq<NamedReference>) returns (err: Option<Error>)
      ensures err.None? <==> forall k | 0 <= k < |spec.patches| :: HasSecretRef(resources, spec.patches[k].resourceRef)
      ensures err.Some? ==> exists k :: 0 <= k < |spec.patches| && err == Some(UnknownRef(spec.patches[k].resourceRef))
                                        && !HasSecretRef(resources, spec.patches[k].resourceRef)
    {
      for k := 0 to |spec.patches|
        invariant forall j | 0 <= j < k :: HasSecretRef(resources, spec.patches[j].resourceRef)
      {
        var idx := IndexOfSecretRef(resources, spec.patches[k].resourceRef);
        if idx == -1 {
          return Some(UnknownRef(spec.patches[k].resourceRef));
        }
      }
      return None;
    }

    method ValidateExtension(shoot: ShootSpec) returns (err: Option<Error>)
      ensures err.None? <==>
              match ExtensionOf(shoot.extensions)
              case None => true
              case Some(e) =>
                IsDisabled(e) || ConfigAcceptable(decode, collection.packs, e.providerConfig, shoot.resources)
      ensures err.Some? ==>
                && ExtensionOf(shoot.extensions).Some?
                && Justified(decode, collection.packs, ExtensionOf(shoot.extensions).value.providerConfig,
                             shoot.resources, err.value)
    {
      hide Config.Errors, Config.WellFormed, HasSecretRef;
      var ext := GetExtension(shoot);
      if ext.None? || ext.value.disabled == Some(true) {
        return None;
      }
      if ext.value.providerConfig.None? {
        return Some(NoProviderConfig);
      }
      var cfg := decode(ext.value.providerConfig.value);
      if cfg.None? {
        return Some(DecodeFailed);
      }
      var specs := cfg.value.packs;
      var errs := Config.Validate(cfg.value);
      Config.ValidIffWellFormed(specs);
      if errs != [] {
        return Some(InvalidConfig(errs));
      }
      for i := 0 to |specs|
        invariant forall j | 0 <= j < i :: Assets.PackExists(collection.packs, specs[j].name, specs[j].version)
        invariant forall j, k | 0 <= j < i && 0 <= k < |specs[j].patches| ::
                    HasSecretRef(shoot.resources, specs[j].patches[k].resourceRef)
      {
        if !Assets.PackExists(collection.packs, specs[i].name, specs[i].version) {
          return Some(UnknownPack(specs[i].name, specs[i].version));
        }
        var refErr := CheckReferences(specs[i], shoot.resources);
        if refErr.Some? {
          return refErr;
        }
      }
      return None;
    }

    method Validate(newObj: AdmissionObject) returns (err: Option<Refusal>)
      ensures err.None? <==> Admits(decode, collection.packs, newObj)
      ensures err == Some(WrongType) <==> newObj.OtherObject?
      ensures err.Some? && err.value.Misconfigured? ==>
                && newObj.ShootObject? && !newObj.shoot.deleting && ExtensionOf(newObj.shoot.extensions).Some?
                && Justified(decode, collection.packs, ExtensionOf(newObj.shoot.extensions).value.providerConfig,
                             newObj.shoot.resources, err.value.error)
    {
      if !newObj.ShootObject? {
        return Some(WrongType);
      }
      if newObj.shoot.deleting {
        return None;
      }
      var extErr := ValidateExtension(newObj.shoot);
      return if extErr.None? then None else Some(Misconfigured(extErr.value));
    }
  }

  // ----- agreement with the reconciler -----

  /** Content reports an unknown reference only when one of the pack's references is unknown. */
  lemma RenderingConfigErrors(inp: Inputs, shoot: Shoot, spec: Config.Pack, asset: Assets.Pack, e: Error)
    requires FailsToRender(inp, shoot, spec, asset, e) && e.IsConfigError()
    ensures e.UnknownRef?
    ensures exists k :: 0 <= k < |spec.patches| && spec.patches[k].resourceRef == e.ref
                        && !HasSecretRef(shoot.resources, spec.patches[k].resourceRef)
  {
    hide EnumeratesAll, KustomizationOf, PackWrites, WriteAll, HasSecretRef, Registered, SecretName;
    var orders :|
      && EnumeratesAll(orders, inp.namespace, inp.secrets, spec.patches)
      && Content(inp.tools, inp.collection.files, shoot, inp.namespace, inp.secrets, spec, asset, orders) == Err(e);
    assert PrepareError(inp.collection.files, shoot, inp.namespace, inp.secrets, spec, asset) == Some(e);
    assert FirstMissing(shoot, inp.namespace, inp.secrets, spec.patches) == Some(e);
  }

  lemma RenderedRefsExist(inp: Inputs, shoot: Shoot, spec: Config.Pack, data: Data)
    requires CanRender(inp, shoot, spec, data)
    ensures Assets.PackExists(inp.collection.packs, spec.name, spec.version)
    ensures forall k | 0 <= k < |spec.patches| :: HasSecretRef(shoot.resources, spec.patches[k].resourceRef)
  {
  }

  /**
   What the webhook accepts, the reconciler never refuses: with the same collection, raw
   configuration and resource list, no attempt fails with a configuration error.
   */
  lemma AcceptedNeverMisconfigured(inp: Inputs, contents: seq<Data>, writes: seq<Write>, err: Option<Error>)
    requires inp.cluster.Some?
    requires ConfigAcceptable(inp.tools.decode, inp.collection.packs, inp.providerConfig, inp.cluster.value.resources)
    requires Reconciles(inp, contents, writes, err)
    ensures err.Some? ==> !err.value.IsConfigError()
  {
    hide CanRender, FailsToRender, HasSecretRef, Config.Errors, Config.WellFormed, Disabled, KeyFor;
    var specs := inp.tools.decode(inp.providerConfig.value).value.packs;
    Config.ValidIffWellFormed(specs);
    assert Configured(inp.tools, inp.providerConfig) == Ok(specs);
    if err.Some? && !inp.cluster.value.hibernated && !err.value.ClusterUnavailable? && !err.value.CreateFailed?
       && !err.value.DeleteFailed? {
      var spec := specs[|contents|];
      assert CanFail(inp, inp.cluster.value, spec, err.value);
      assert Assets.PackExists(inp.collection.packs, spec.name, spec.version);
      Assets.ExistsIffGet(inp.collection.packs, spec.name, spec.version);
      if err.value.IsConfigError() {
        RenderingConfigErrors(inp, inp.cluster.value, spec, AssetOf(inp, spec).value, err.value);
        assert false;
      }
    }
  }

  /** What the reconciler carries out on an awake shoot, the webhook accepts. */
  lemma SuccessIsAcceptable(inp: Inputs, contents: seq<Data>, writes: seq<Write>)
    requires inp.cluster.Some? && !inp.cluster.value.hibernated
    requires Reconciles(inp, contents, writes, None)
    ensures ConfigAcceptable(inp.tools.decode, inp.collection.packs, inp.providerConfig, inp.cluster.value.resources)
  {
    hide CanRender, Reconciles, FullPlan, HasSecretRef, Config.Errors, Config.WellFormed;
    SuccessIsPlan(inp, contents, writes);
    var specs := Configured(inp.tools, inp.providerConfig).value;
    forall i, k | 0 <= i < |specs| && 0 <= k < |specs[i].patches|
      ensures HasSecretRef(inp.cluster.value.resources, specs[i].patches[k].resourceRef)
    {
      RenderedRefsExist(inp, inp.cluster.value, specs[i], contents[i]);
    }
  }

  /**
   The two code paths agree. For an enabled extension of a shoot that is not being deleted, with
   the configuration and resources that the reconciler sees: admission implies that no attempt
   ends in a configuration error, and a successful attempt on an awake shoot implies admission.
   */
  lemma AdmissionAgreesWithReconcile(inp: Inputs, obj: AdmissionObject, contents: seq<Data>, writes: seq<Write>,
                                     err: Option<Error>)
    requires inp.cluster.Some? && Reconciles(inp, contents, writes, err)
    requires obj.ShootObject? && !obj.shoot.deleting
    requires ExtensionOf(obj.shoot.extensions).Some? && !IsDisabled(ExtensionOf(obj.shoot.extensions).value)
    requires ExtensionOf(obj.shoot.extensions).value.providerConfig == inp.providerConfig
    requires obj.shoot.resources == inp.cluster.value.resources
    ensures Admits(inp.tools.decode, inp.collection.packs, obj) && err.Some? ==> !err.value.IsConfigError()
    ensures err.None? && !inp.cluster.value.hibernated ==> Admits(inp.tools.decode, inp.collection.packs, obj)
  {
    hide ConfigAcceptable, Reconciles, ExtensionOf;
    if Admits(inp.tools.decode, inp.collection.packs, obj) {
      AcceptedNeverMisconfigured(inp, contents, writes, err);
    }
    if err.None? && !inp.cluster.value.hibernated {
      SuccessIsAcceptable(inp, contents, writes);
    }
  }
}
