/** What one attempt of each actuator operation may do to the ManagedResources of its namespace. */
module Plan {
  import opened Results
  import opened Collections
  import Config
  import Assets
  import opened Shoots
  import opened Rendering
  import opened Store

  const MANAGED_RESOURCE_PREFIX := "extension-shoot-pack"

  function ManagedResourceName(packName: string): string {
    MANAGED_RESOURCE_PREFIX + "-" + packName
  }

  function KeyFor(ns: string, packName: string): ObjectKey {
    ObjectKey(ns, ManagedResourceName(packName))
  }

  /** The object name is built from the pack name alone, and determines it. */
  lemma KeyInjective(ns1: string, n1: string, ns2: string, n2: string)
    ensures KeyFor(ns1, n1) == KeyFor(ns2, n2) <==> ns1 == ns2 && n1 == n2
  {
    var p := MANAGED_RESOURCE_PREFIX + "-";
    DropPrefix(p, n1);
    DropPrefix(p, n2);
  }

  // ----- what an operation works on -----

  datatype Inputs = Inputs(tools: Toolkit, collection: Assets.Collection, namespace: string,
                           providerConfig: Option<string>, cluster: Option<Shoot>, secrets: Secrets)

  /** The configured packs, or why the provider configuration is refused. */
  function Configured(tools: Toolkit, providerConfig: Option<string>): Result<seq<Config.Pack>, Error> {
    match providerConfig
    case None => Err(NoProviderConfig)
    case Some(raw) =>
      match tools.decode(raw)
      case None => Err(DecodeFailed)
      case Some(cfg) =>
        var errs := Config.Errors(cfg.packs, |cfg.packs|);
        if errs != [] then Err(InvalidConfig(errs)) else Ok(cfg.packs)
  }

  /** The configured packs, if there is a valid configuration. */
  function ConfiguredPacks(inp: Inputs): seq<Config.Pack> {
    match Configured(inp.tools, inp.providerConfig)
    case Ok(packs) => packs
    case Err(_) => []
  }

  function AssetOf(inp: Inputs, spec: Config.Pack): Option<Assets.Pack> {
    Assets.GetPack(inp.collection.packs, spec.name, spec.version)
  }

  /** Data that the pack renders to, for some iteration order of its secrets. */
  ghost predicate RendersTo(inp: Inputs, shoot: Shoot, spec: Config.Pack, asset: Assets.Pack, data: Data) {
    exists orders ::
      && EnumeratesAll(orders, inp.namespace, inp.secrets, spec.patches)
      && Content(inp.tools, inp.collection.files, shoot, inp.namespace, inp.secrets, spec, asset, orders) == Ok(data)
  }

  ghost predicate CanRender(inp: Inputs, shoot: Shoot, spec: Config.Pack, data: Data) {
    AssetOf(inp, spec).Some? && RendersTo(inp, shoot, spec, AssetOf(inp, spec).value, data)
  }

  /** The pack fails to render, or reading one of its secrets fails although the secret exists. */
  ghost predicate FailsToRender(inp: Inputs, shoot: Shoot, spec: Config.Pack, asset: Assets.Pack, e: Error) {
    || (exists orders ::
          && EnumeratesAll(orders, inp.namespace, inp.secrets, spec.patches)
          && Content(inp.tools, inp.collection.files, shoot, inp.namespace, inp.secrets, spec, asset, orders) == Err(e))
    || (&& FirstUnreadable(inp.collection.files, asset.resources).None?
        && exists i :: 0 <= i < |spec.patches| && e == SecretUnavailable(spec.patches[i].resourceRef)
                       && FirstMissing(shoot, inp.namespace, inp.secrets, spec.patches[..i]).None?
                       && HasSecretRef(shoot.resources, spec.patches[i].resourceRef))
  }

  ghost predicate CanFail(inp: Inputs, shoot: Shoot, spec: Config.Pack, e: Error) {
    match AssetOf(inp, spec)
    case None => e == UnknownPack(spec.name, spec.version)
    case Some(asset) => FailsToRender(inp, shoot, spec, asset, e)
  }

  // ----- the writes of an operation -----

  function ApplyWrites(ns: string, specs: seq<Config.Pack>, contents: seq<Data>): seq<Write>
    requires |contents| <= |specs|
  {
    seq(|contents|, i requires 0 <= i < |contents| => Apply(KeyFor(ns, specs[i].name), contents[i]))
  }

  function RemoveWrites(ns: string, packs: seq<Config.Pack>): seq<Write> {
    seq(|packs|, i requires 0 <= i < |packs| => Remove(KeyFor(ns, packs[i].name)))
  }

  predicate IsEnabled(enabled: seq<Config.Pack>, p: Assets.Pack) {
    exists i :: 0 <= i < |enabled| && enabled[i].name == p.name && enabled[i].version == p.version
  }

  function AsSpec(p: Assets.Pack): Config.Pack {
    Config.Pack(p.name, p.version, [])
  }

  /** The collection packs that are not enabled in exactly this version. */
  function Disabled(packs: seq<Assets.Pack>, enabled: seq<Config.Pack>): seq<Config.Pack> {
    if packs == [] then []
    else Disabled(packs[..|packs| - 1], enabled) + Flag(!IsEnabled(enabled, packs[|packs| - 1]), AsSpec(packs[|packs| - 1]))
  }

  function AllSpecs(packs: seq<Assets.Pack>): seq<Config.Pack> {
    seq(|packs|, i requires 0 <= i < |packs| => AsSpec(packs[i]))
  }

  /** Everything a complete reconciliation writes: first every configured pack, then the removals. */
  function FullPlan(inp: Inputs, packs: seq<Config.Pack>, contents: seq<Data>): seq<Write>
    requires |contents| == |packs|
  {
    ApplyWrites(inp.namespace, packs, contents)
    + RemoveWrites(inp.namespace, Disabled(inp.collection.packs, packs))
  }

  /** Removals that stop at a failing call, which may have taken effect or not. */
  ghost predicate StopsAt(removes: seq<Write>, done: seq<Write>, key: ObjectKey) {
    exists j :: 0 <= j < |removes| && removes[j] == Remove(key) && (done == removes[..j] || done == removes[..j + 1])
  }

  // ----- what one attempt may do -----

  /** The attempt once the configuration has been accepted; contents are the packs rendered so far. */
  ghost predicate Executes(inp: Inputs, shoot: Shoot, packs: seq<Config.Pack>, contents: seq<Data>,
                           writes: seq<Write>, err: Option<Error>)
  {
    && |contents| <= |packs|
    && (forall i | 0 <= i < |contents| :: CanRender(inp, shoot, packs[i], contents[i]))
    && var applies := ApplyWrites(inp.namespace, packs, contents);
       var removes := RemoveWrites(inp.namespace, Disabled(inp.collection.packs, packs));
       match err
       case None => |contents| == |packs| && writes == applies + removes
       case Some(CreateFailed(key)) =>
         && |contents| > 0 && key == KeyFor(inp.namespace, packs[|contents| - 1].name)
         && (writes == applies || writes == applies[..|applies| - 1])
       case Some(DeleteFailed(key)) =>
         && |contents| == |packs|
         && applies <= writes && StopsAt(removes, writes[|applies|..], key)
       case Some(e) =>
         |contents| < |packs| && writes == applies && CanFail(inp, shoot, packs[|contents|], e)
  }

  /** One attempt of Reconcile, Restore or Migrate. */
  ghost predicate Reconciles(inp: Inputs, contents: seq<Data>, writes: seq<Write>, err: Option<Error>) {
    if inp.cluster.None? || err == Some(ClusterUnavailable) then writes == [] && err == Some(ClusterUnavailable)
    else if inp.cluster.value.hibernated then writes == [] && err == None
    else
      match Configured(inp.tools, inp.providerConfig)
      case Err(e) => writes == [] && err == Some(e)
      case Ok(packs) => Executes(inp, inp.cluster.value, packs, contents, writes, err)
  }

  /** One attempt of Delete or ForceDelete. */
  ghost predicate Deletes(inp: Inputs, writes: seq<Write>, err: Option<Error>) {
    var removes := RemoveWrites(inp.namespace, AllSpecs(inp.collection.packs));
    match err
    case None => writes == removes
    case Some(DeleteFailed(key)) => StopsAt(removes, writes, key)
    case Some(_) => false
  }

  // ----- whose fault an error is -----

  /** The call that an error of this kind complains about. */
  function Complaint(ns: string, e: Error): Option<Call> {
    match e
    case ClusterUnavailable => Some(GetCluster(ns))
    case SecretUnavailable(ref) => Some(GetSecret(ObjectKey(ns, "ref-" + ref)))
    case CreateFailed(key) => Some(Create(key))
    case DeleteFailed(key) => Some(Delete(key))
    case _ => None
  }

  /** What the error says is missing is indeed missing. */
  predicate IsMissing(ns: string, cluster: Option<Shoot>, secrets: Secrets, e: Error) {
    match e
    case ClusterUnavailable => cluster.None?
    case SecretUnavailable(ref) => ObjectKey(ns, "ref-" + ref) !in secrets
    case _ => false
  }

  /**
   An attempt without an error had no failed call. One with an error had the very call fail that the
   error complains about, and no other one, unless there is nothing to complain about or the object
   is missing.
   */
  predicate Blames(ns: string, cluster: Option<Shoot>, secrets: Secrets, err: Option<Error>, failed: seq<Call>) {
    match err
    case None => failed == []
    case Some(e) =>
      match Complaint(ns, e)
      case None => failed == []
      case Some(call) => failed == [call] || (failed == [] && IsMissing(ns, cluster, secrets, e))
  }
}
