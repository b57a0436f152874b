/**
 From a pack and its patches to the data of a ManagedResource: the in-memory file system given to
 kustomize, and the registry of rendered objects.
 */
module Rendering {
  import opened Results
  import opened Text
  import opened Collections
  import Config
  import Assets
  import opened Shoots

  type Data = map<string, string>

  datatype Patch = Patch(path: string, target: Config.Target)

  datatype Kustomization = Kustomization(namespace: string, resources: seq<string>, buildMetadata: seq<string>,
                                         patches: seq<Patch>)

  datatype Object = Object(kind: string, name: string, labels: map<string, string>, body: string)

  /** The libraries, as some partial functions: None is an error. */
  datatype Toolkit = Toolkit(
    decode: string -> Option<Config.PackConfig>,
    marshal: Kustomization -> Option<string>,
    kustomize: (map<string, string>, string) -> Option<seq<Object>>,
    rejectsLabels: Object -> bool,
    asYaml: Object -> Option<string>,
    serialize: map<string, string> -> Option<Data>)

  const KUSTOMIZATION_FILE := "kustomization.yaml"
  const PACK_NAME_LABEL := "pack.extensions.gardener.cloud/name"
  const PACK_VERSION_LABEL := "pack.extensions.gardener.cloud/version"

  /** filesys.MakeFsInMemory */
  class MemoryFs {
    var files: map<string, string>

    constructor ()
      ensures files == map[]
    {
      files := map[];
    }

    method WriteFile(path: string, data: string)
      modifies this
      ensures files == old(files)[path := data]
    {
      files := files[path := data];
    }
  }

  /** The managed resources registry. */
  class Registry {
    var entries: map<string, string>

    constructor ()
      ensures entries == map[]
    {
      entries := map[];
    }

    method AddSerialized(filename: string, data: string)
      modifies this
      ensures entries == old(entries)[filename := data]
    {
      entries := entries[filename := data];
    }
  }

  // ----- file names -----

  function SecretName(ref: string): string {
    "ref-" + ref
  }

  function PatchFile(secret: string, key: string): string {
    "patch-" + secret + "-" + key
  }

  function PatchPath(base: string, secret: string, key: string): string {
    Join(base, PatchFile(secret, key))
  }

  lemma PatchFileParts(s1: string, k1: string, s2: string, k2: string)
    ensures PatchFile(s1, k1) == PatchFile(s2, k2) <==> s1 + "-" + k1 == s2 + "-" + k2
  {
    var a, b := s1 + "-" + k1, s2 + "-" + k2;
    assert PatchFile(s1, k1) == "patch-" + a;
    assert PatchFile(s2, k2) == "patch-" + b;
    assert ("patch-" + a)[6..] == a && ("patch-" + b)[6..] == b;
  }

  lemma PatchPathIsFile(base: string, s1: string, k1: string, s2: string, k2: string)
    ensures PatchPath(base, s1, k1) == PatchPath(base, s2, k2) <==> PatchFile(s1, k1) == PatchFile(s2, k2)
  {
    if PatchPath(base, s1, k1) == PatchPath(base, s2, k2) {
      JoinInjective(base, PatchFile(s1, k1), PatchFile(s2, k2));
    }
  }

  /** Within one secret, different keys get different files. */
  lemma PatchPathInjective(base: string, secret: string, k1: string, k2: string)
    requires PatchPath(base, secret, k1) == PatchPath(base, secret, k2)
    ensures k1 == k2
  {
    PatchPathIsFile(base, secret, k1, secret, k2);
    PatchFileParts(secret, k1, secret, k2);
    DropPrefix(secret + "-", k1);
    DropPrefix(secret + "-", k2);
  }

  lemma DropPrefix<T>(p: seq<T>, s: seq<T>)
    ensures (p + s)[|p|..] == s
  {
  }

  /**
   When one secret name is another one extended by a dash, the generated names meet for exactly
   one key of the shorter one.
   */
  lemma CollisionIff(s1: string, k1: string, s2: string, k2: string)
    requires s1 + "-" <= s2
    ensures PatchFile(s1, k1) == PatchFile(s2, k2) <==> k1 == s2[|s1| + 1..] + "-" + k2
  {
    PatchFileParts(s1, k1, s2, k2);
    var p, rest := s1 + "-", s2[|s1| + 1..];
    assert s2 == p + rest;
    assert s2 + "-" + k2 == p + (rest + "-" + k2);
    DropPrefix(p, k1);
    DropPrefix(p, rest + "-" + k2);
  }

  /** Without such a pair of secret names, generated file names are injective. */
  lemma NoCollision(s1: string, k1: string, s2: string, k2: string)
    requires PatchFile(s1, k1) == PatchFile(s2, k2)
    requires !(s1 + "-" <= s2) && !(s2 + "-" <= s1)
    ensures s1 == s2 && k1 == k2
  {
    PatchFileParts(s1, k1, s2, k2);
    ShorterIsPrefix(s1, k1, s2, k2);
    ShorterIsPrefix(s2, k2, s1, k1);
    assert |s1| == |s2|;
    assert (s1 + "-")[..|s1|] == s1 && (s2 + "-")[..|s2|] == s2;
    DropPrefix(s1 + "-", k1);
    DropPrefix(s2 + "-", k2);
  }

  lemma ShorterIsPrefix(s1: string, k1: string, s2: string, k2: string)
    requires s1 + "-" + k1 == s2 + "-" + k2
    ensures |s1| < |s2| ==> s1 + "-" <= s2
    ensures |s1| == |s2| ==> s1 == s2
  {
    var a, b := s1 + "-" + k1, s2 + "-" + k2;
    if |s1| <= |s2| {
      assert a[..|s1|] == s1 && b[..|s2|] == s2;
    }
    if |s1| < |s2| {
      assert a[..|s1| + 1] == s1 + "-";
      assert b[..|s1| + 1] == s2[..|s1| + 1];
    }
  }

  /** A file generated for a patch is never the kustomization file. */
  lemma PatchIsNoKustomization(secret: string, key: string)
    ensures PatchFile(secret, key) != KUSTOMIZATION_FILE
  {
    assert PatchFile(secret, key)[0] == 'p' && KUSTOMIZATION_FILE[0] == 'k';
  }

  // ----- writing files -----

  datatype FileWrite = FileWrite(path: string, data: string)

  function WriteAll(files: map<string, string>, writes: seq<FileWrite>): map<string, string> {
    if writes == [] then files
    else
      var last := writes[|writes| - 1];
      WriteAll(files, writes[..|writes| - 1])[last.path := last.data]
  }

  lemma WriteAppend(files: map<string, string>, writes: seq<FileWrite>, w: FileWrite)
    ensures WriteAll(files, writes + [w]) == WriteAll(files, writes)[w.path := w.data]
  {
    assert (writes + [w])[..|writes|] == writes;
  }

  lemma {:induction false} WriteConcat(files: map<string, string>, a: seq<FileWrite>, b: seq<FileWrite>)
    ensures WriteAll(files, a + b) == WriteAll(WriteAll(files, a), b)
    decreases |b|
  {
    if b == [] {
      EmptyTail(a);
    } else {
      var init, last := b[..|b| - 1], b[|b| - 1];
      SplitLast(a, b);
      WriteConcat(files, a, init);
      WriteAppend(files, a + init, last);
      WriteAppend(WriteAll(files, a), init, last);
    }
  }

  /** Is what the write puts at its path still there at the end? */
  predicate Survives(files: map<string, string>, writes: seq<FileWrite>, i: nat)
    requires i < |writes|
  {
    writes[i].path in WriteAll(files, writes) && WriteAll(files, writes)[writes[i].path] == writes[i].data
  }

  lemma {:induction false} SurvivesLast(files: map<string, string>, writes: seq<FileWrite>, i: nat)
    requires i < |writes|
    requires forall j | i < j < |writes| :: writes[j].path == writes[i].path ==> writes[j].data == writes[i].data
    ensures Survives(files, writes, i)
  {
    var n := |writes| - 1;
    var init := writes[..n];
    if i < n {
      SurvivesLast(files, init, i);
      assert Survives(files, init, i);
      assert writes[n].path == writes[i].path ==> writes[n].data == writes[i].data;
    }
  }

  lemma {:induction false} LastWriteAt(files: map<string, string>, writes: seq<FileWrite>, path: string)
    returns (k: nat)
    requires exists i :: 0 <= i < |writes| && writes[i].path == path
    ensures k < |writes| && writes[k].path == path
    ensures forall j | k < j < |writes| :: writes[j].path != path
    ensures path in WriteAll(files, writes) && WriteAll(files, writes)[path] == writes[k].data
  {
    var n := |writes| - 1;
    if writes[n].path == path {
      k := n;
    } else {
      var i :| 0 <= i < |writes| && writes[i].path == path;
      assert writes[..n][i].path == path;
      k := LastWriteAt(files, writes[..n], path);
    }
  }

  lemma {:induction false} WrittenIff(files: map<string, string>, writes: seq<FileWrite>, path: string)
    ensures path in WriteAll(files, writes) <==> path in files || exists i :: 0 <= i < |writes| && writes[i].path == path
  {
    if writes != [] {
      var n := |writes| - 1;
      WrittenIff(files, writes[..n], path);
      assert forall i | 0 <= i < n :: writes[..n][i] == writes[i];
    }
  }

  /** Every write survives exactly when no two writes put different data at one path. */
  lemma AllSurviveIff(files: map<string, string>, writes: seq<FileWrite>)
    ensures (forall i | 0 <= i < |writes| :: Survives(files, writes, i)) <==> Agreeing(writes)
  {
    if Agreeing(writes) {
      forall i | 0 <= i < |writes| ensures Survives(files, writes, i) {
        SurvivesLast(files, writes, i);
      }
    }
    if forall i | 0 <= i < |writes| :: Survives(files, writes, i) {
      forall i, j | 0 <= i < j < |writes| && writes[i].path == writes[j].path
        ensures writes[i].data == writes[j].data
      {
        assert Survives(files, writes, i) && Survives(files, writes, j);
      }
    }
  }

  predicate Agreeing(writes: seq<FileWrite>) {
    forall i, j | 0 <= i < j < |writes| && writes[i].path == writes[j].path :: writes[i].data == writes[j].data
  }

  // ----- the kustomize file system of a pack -----

  function SecretOf(secrets: Secrets, ns: string, ref: string): SecretData {
    var key := ObjectKey(ns, SecretName(ref));
    if key in secrets then secrets[key] else map[]
  }

  /** Each key of the secret once, in some order. */
  ghost predicate Enumerates(order: seq<string>, data: SecretData) {
    Assets.Distinct(order) && forall k :: k in order <==> k in data
  }

  /** For each patch specification, an order in which its secret is iterated. */
  ghost predicate EnumeratesAll(orders: seq<seq<string>>, ns: string, secrets: Secrets, patches: seq<Config.PatchSpec>) {
    |orders| == |patches|
    && forall i | 0 <= i < |patches| :: Enumerates(orders[i], SecretOf(secrets, ns, patches[i].resourceRef))
  }

  function ResourceWrites(files: Assets.Files, resources: seq<Assets.Resource>): seq<FileWrite>
    requires forall r | r in resources :: Assets.ReadFile(files, r.path).Some?
  {
    seq(|resources|, i requires 0 <= i < |resources| =>
      assert resources[i] in resources;
      FileWrite(resources[i].path, Assets.ReadFile(files, resources[i].path).value))
  }

  function GroupWrites(base: string, ref: string, data: SecretData, order: seq<string>): seq<FileWrite>
    requires forall k | k in order :: k in data
  {
    seq(|order|, i requires 0 <= i < |order| =>
      assert order[i] in order;
      FileWrite(PatchPath(base, SecretName(ref), order[i]), data[order[i]]))
  }

  function GroupEntries(p: Config.PatchSpec, order: seq<string>): seq<Patch> {
    seq(|order|, i requires 0 <= i < |order| => Patch(PatchFile(SecretName(p.resourceRef), order[i]), p.target))
  }

  ghost function PatchWrites(base: string, ns: string, secrets: Secrets, patches: seq<Config.PatchSpec>,
                             orders: seq<seq<string>>): seq<FileWrite>
    requires EnumeratesAll(orders, ns, secrets, patches)
  {
    if patches == [] then []
    else
      var n := |patches| - 1;
      PatchWrites(base, ns, secrets, patches[..n], orders[..n])
      + GroupWrites(base, patches[n].resourceRef, SecretOf(secrets, ns, patches[n].resourceRef), orders[n])
  }

  function PatchEntries(patches: seq<Config.PatchSpec>, orders: seq<seq<string>>): seq<Patch>
    requires |orders| == |patches|
  {
    if patches == [] then []
    else
      var n := |patches| - 1;
      PatchEntries(patches[..n], orders[..n]) + GroupEntries(patches[n], orders[n])
  }

  function KustomizationOf(asset: Assets.Pack, patches: seq<Config.PatchSpec>, orders: seq<seq<string>>): Kustomization
    requires |orders| == |patches|
  {
    Kustomization("kube-system",
                  seq(|asset.resources|, i requires 0 <= i < |asset.resources| => Base(asset.resources[i].path)),
                  ["originAnnotations"],
                  PatchEntries(patches, orders))
  }

  /** The first resource that cannot be read. */
  function FirstUnreadable(files: Assets.Files, resources: seq<Assets.Resource>): (e: Option<Error>)
    ensures e.None? <==> forall r | r in resources :: Assets.ReadFile(files, r.path).Some?
    ensures e.Some? ==> e.value.UnreadableResource?
  {
    if resources == [] then None
    else if Assets.ReadFile(files, resources[0].path).None? then Some(UnreadableResource(resources[0].path))
    else
      assert resources == [resources[0]] + resources[1..];
      FirstUnreadable(files, resources[1..])
  }

  /** The first patch whose reference or secret does not exist. */
  function FirstMissing(shoot: Shoot, ns: string, secrets: Secrets, patches: seq<Config.PatchSpec>): (e: Option<Error>)
    ensures e.None? <==> forall i | 0 <= i < |patches| ::
                           && HasSecretRef(shoot.resources, patches[i].resourceRef)
                           && ObjectKey(ns, SecretName(patches[i].resourceRef)) in secrets
    ensures e.Some? ==> e.value.UnknownRef? || e.value.SecretUnavailable?
    ensures e.Some? && e.value.UnknownRef? ==>
              exists i :: 0 <= i < |patches| && patches[i].resourceRef == e.value.ref
                          && !HasSecretRef(shoot.resources, patches[i].resourceRef)
  {
    if patches == [] then None
    else if !HasSecretRef(shoot.resources, patches[0].resourceRef) then Some(UnknownRef(patches[0].resourceRef))
    else if ObjectKey(ns, SecretName(patches[0].resourceRef)) !in secrets
      then Some(SecretUnavailable(patches[0].resourceRef))
    else FirstMissing(shoot, ns, secrets, patches[1..])
  }

  function PrepareError(files: Assets.Files, shoot: Shoot, ns: string, secrets: Secrets,
                        spec: Config.Pack, asset: Assets.Pack): Option<Error> {
    var unreadable := FirstUnreadable(files, asset.resources);
    if unreadable.Some? then unreadable else FirstMissing(shoot, ns, secrets, spec.patches)
  }

  /** Everything that is written into the file system, in order; the kustomization comes last. */
  ghost function PackWrites(files: Assets.Files, ns: string, secrets: Secrets, spec: Config.Pack, asset: Assets.Pack,
                            orders: seq<seq<string>>, kustomization: string): seq<FileWrite>
    requires FirstUnreadable(files, asset.resources).None?
    requires EnumeratesAll(orders, ns, secrets, spec.patches)
  {
    ContentWrites(files, ns, secrets, spec, asset, orders)
    + [FileWrite(Join(asset.baseDir, KUSTOMIZATION_FILE), kustomization)]
  }

  ghost function ContentWrites(files: Assets.Files, ns: string, secrets: Secrets, spec: Config.Pack,
                               asset: Assets.Pack, orders: seq<seq<string>>): seq<FileWrite>
    requires FirstUnreadable(files, asset.resources).None?
    requires EnumeratesAll(orders, ns, secrets, spec.patches)
  {
    ResourceWrites(files, asset.resources) + PatchWrites(asset.baseDir, ns, secrets, spec.patches, orders)
  }

  // ----- the registry -----

  predicate IsNamespace(o: Object) {
    o.kind == "Namespace"
  }

  function Relabelled(o: Object, asset: Assets.Pack): Object {
    o.(labels := o.labels + map[PACK_NAME_LABEL := asset.name, PACK_VERSION_LABEL := asset.version])
  }

  function RegistryKey(asset: Assets.Pack, idx: nat): string {
    Join(asset.baseDir, Itoa(idx))
  }

  /** The first object that cannot be labelled or marshalled, from index i on. */
  function FirstBadObject(tools: Toolkit, asset: Assets.Pack, objs: seq<Object>, i: nat): (e: Option<Error>)
    requires i <= |objs|
    ensures e.None? <==> forall k | i <= k < |objs| && !IsNamespace(objs[k]) :: Registrable(tools, asset, objs[k])
    ensures e.Some? ==> e.value.LabelsRejected? || e.value.YamlFailed?
    decreases |objs| - i
  {
    if i == |objs| then None
    else if IsNamespace(objs[i]) then FirstBadObject(tools, asset, objs, i + 1)
    else if tools.rejectsLabels(objs[i]) then Some(LabelsRejected(i))
    else if tools.asYaml(Relabelled(objs[i], asset)).None? then Some(YamlFailed(i))
    else FirstBadObject(tools, asset, objs, i + 1)
  }

  predicate Registrable(tools: Toolkit, asset: Assets.Pack, o: Object) {
    !tools.rejectsLabels(o) && tools.asYaml(Relabelled(o, asset)).Some?
  }

  lemma RegistryKeyInjective(asset: Assets.Pack, i: nat, j: nat)
    requires RegistryKey(asset, i) == RegistryKey(asset, j)
    ensures i == j
  {
    JoinInjective(asset.baseDir, Itoa(i), Itoa(j));
    ItoaInjective(i, j);
  }

  function YamlOf(tools: Toolkit, asset: Assets.Pack, o: Object): string {
    tools.asYaml(Relabelled(o, asset)).GetOr("")
  }

  /** The registry after the first n objects. */
  function Registered(tools: Toolkit, asset: Assets.Pack, objs: seq<Object>, n: nat): map<string, string>
    requires n <= |objs|
  {
    if n == 0 then map[]
    else if IsNamespace(objs[n - 1]) then Registered(tools, asset, objs, n - 1)
    else Registered(tools, asset, objs, n - 1)[RegistryKey(asset, n - 1) := YamlOf(tools, asset, objs[n - 1])]
  }

  function CountRegistered(objs: seq<Object>, n: nat): nat
    requires n <= |objs|
  {
    if n == 0 then 0 else CountRegistered(objs, n - 1) + if IsNamespace(objs[n - 1]) then 0 else 1
  }

  predicate IsKeyBelow(asset: Assets.Pack, objs: seq<Object>, n: nat, key: string)
    requires n <= |objs|
  {
    exists k: nat :: k < n && !IsNamespace(objs[k]) && RegistryKey(asset, k) == key
  }

  /**
   The registry has one entry for each rendered object that is no Namespace, and nothing else;
   the entry is that very object with its own labels overridden by the two pack labels.
   */
  lemma {:induction false} RegistryComplete(tools: Toolkit, asset: Assets.Pack, objs: seq<Object>, n: nat)
    requires n <= |objs|
    ensures |Registered(tools, asset, objs, n)| == CountRegistered(objs, n)
    ensures forall key :: key in Registered(tools, asset, objs, n) <==> IsKeyBelow(asset, objs, n, key)
    ensures forall k: nat | k < n && !IsNamespace(objs[k]) ::
              && RegistryKey(asset, k) in Registered(tools, asset, objs, n)
              && Registered(tools, asset, objs, n)[RegistryKey(asset, k)] == YamlOf(tools, asset, objs[k])
  {
    hide RegistryKey, YamlOf, IsKeyBelow, IsNamespace;
    if n == 0 {
      forall key ensures !IsKeyBelow(asset, objs, 0, key) {
        KeysBelowStart(asset, objs, key);
      }
    } else {
      RegistryComplete(tools, asset, objs, n - 1);
      var before, key := Registered(tools, asset, objs, n - 1), RegistryKey(asset, n - 1);
      forall x ensures IsKeyBelow(asset, objs, n, x) <==>
                       IsKeyBelow(asset, objs, n - 1, x) || (!IsNamespace(objs[n - 1]) && x == key)
      {
        KeysBelowStep(asset, objs, n - 1, x);
      }
      NewKey(asset, objs, n - 1);
      assert key !in before;
      SizeOfUpdate(before, key, YamlOf(tools, asset, objs[n - 1]));
    }
  }

  lemma KeysBelowStart(asset: Assets.Pack, objs: seq<Object>, x: string)
    ensures !IsKeyBelow(asset, objs, 0, x)
  {
  }

  lemma KeysBelowStep(asset: Assets.Pack, objs: seq<Object>, n: nat, x: string)
    requires n < |objs|
    ensures IsKeyBelow(asset, objs, n + 1, x) <==>
            IsKeyBelow(asset, objs, n, x) || (!IsNamespace(objs[n]) && x == RegistryKey(asset, n))
  {
  }

  lemma NewKey(asset: Assets.Pack, objs: seq<Object>, n: nat)
    requires n < |objs|
    ensures !IsKeyBelow(asset, objs, n, RegistryKey(asset, n))
  {
    hide RegistryKey;
    if IsKeyBelow(asset, objs, n, RegistryKey(asset, n)) {
      var k: nat :| k < n && !IsNamespace(objs[k]) && RegistryKey(asset, k) == RegistryKey(asset, n);
      RegistryKeyInjective(asset, k, n);
      assert false;
    }
  }

  lemma SizeOfUpdate<K, V>(m: map<K, V>, k: K, v: V)
    ensures |m[k := v]| == |m| + if k in m then 0 else 1
  {
    assert m[k := v].Keys == m.Keys + {k};
    SizeOfAdd(m.Keys, k);
  }

  /** The labels of a registered object: its own, except that the two pack labels name the pack. */
  lemma RelabelledLabels(o: Object, asset: Assets.Pack, key: string)
    ensures var l := Relabelled(o, asset).labels;
            && (key in l <==> key in o.labels || key in {PACK_NAME_LABEL, PACK_VERSION_LABEL})
            && l[PACK_NAME_LABEL] == asset.name && l[PACK_VERSION_LABEL] == asset.version
            && (key in o.labels && key !in {PACK_NAME_LABEL, PACK_VERSION_LABEL} ==> l[key] == o.labels[key])
  {
    assert PACK_NAME_LABEL[31] != PACK_VERSION_LABEL[31];
  }

  // ----- the content of a ManagedResource -----

  /** Rendering the prepared files into the data of a ManagedResource. */
  function RenderFiles(tools: Toolkit, asset: Assets.Pack, files: map<string, string>): Result<Data, Error> {
    match tools.kustomize(files, asset.baseDir)
    case None => Err(KustomizeFailed)
    case Some(objs) =>
      match FirstBadObject(tools, asset, objs, 0)
      case Some(e) => Err(e)
      case None =>
        match tools.serialize(Registered(tools, asset, objs, |objs|))
        case None => Err(SerializeFailed)
        case Some(data) => Ok(data)
  }

  /** What a pack renders to when each secret is iterated in the given order. */
  ghost function Content(tools: Toolkit, files: Assets.Files, shoot: Shoot, ns: string, secrets: Secrets,
                         spec: Config.Pack, asset: Assets.Pack, orders: seq<seq<string>>): Result<Data, Error>
    requires EnumeratesAll(orders, ns, secrets, spec.patches)
  {
    match PrepareError(files, shoot, ns, secrets, spec, asset)
    case Some(e) => Err(e)
    case None =>
      match tools.marshal(KustomizationOf(asset, spec.patches, orders))
      case None => Err(MarshalFailed)
      case Some(text) =>
        RenderFiles(tools, asset, WriteAll(map[], PackWrites(files, ns, secrets, spec, asset, orders, text)))
  }
}
