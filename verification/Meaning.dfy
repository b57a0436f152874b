/**
 What a rendering of a pack is, said of the collection, the secrets and the files themselves. The
 definitions in the first section use none of the functions that specify the reconciler.
 */
module Meaning {
  import opened Results
  import opened Text
  import opened Collections
  import Config
  import Assets
  import opened Shoots
  import opened Rendering
  import opened Store
  import opened Plan
  import opened Outcomes

  // ----- what a rendering is -----

  /** The first pack of the collection with this name and version. */
  ghost predicate IsFirstMatch(packs: seq<Assets.Pack>, name: string, version: string, p: Assets.Pack) {
    exists i :: 0 <= i < |packs| && packs[i] == p && p.name == name && p.version == version
                && forall j | 0 <= j < i :: packs[j].name != name || packs[j].version != version
  }

  ghost predicate Readable(files: Assets.Files, path: string) {
    path in files && files[path].File?
  }

  ghost predicate IsReferenced(shoot: Shoot, ref: string) {
    NamedReference(ref, "Secret", "v1") in shoot.resources
  }

  /** Everything that the pack is made of is there. */
  ghost predicate IsComplete(inp: Inputs, shoot: Shoot, spec: Config.Pack, p: Assets.Pack) {
    && (forall r | r in p.resources :: Readable(inp.collection.files, r.path))
    && (forall patch | patch in spec.patches ::
          IsReferenced(shoot, patch.resourceRef) && ObjectKey(inp.namespace, "ref-" + patch.resourceRef) in inp.secrets)
  }

  /** A key of the secret that a patch specification refers to. */
  datatype Origin = Origin(patch: nat, key: string)

  ghost predicate IsOrigin(inp: Inputs, spec: Config.Pack, o: Origin) {
    && o.patch < |spec.patches|
    && var secret := ObjectKey(inp.namespace, "ref-" + spec.patches[o.patch].resourceRef);
       secret in inp.secrets && o.key in inp.secrets[secret]
  }

  ghost function BytesOf(inp: Inputs, spec: Config.Pack, o: Origin): string
    requires IsOrigin(inp, spec, o)
  {
    inp.secrets[ObjectKey(inp.namespace, "ref-" + spec.patches[o.patch].resourceRef)][o.key]
  }

  ghost function FileOf(spec: Config.Pack, o: Origin): string
    requires o.patch < |spec.patches|
  {
    "patch-" + ("ref-" + spec.patches[o.patch].resourceRef) + "-" + o.key
  }

  /** Every key once, those of one specification together, specifications in configuration order. */
  ghost predicate ListsOrigins(inp: Inputs, spec: Config.Pack, origins: seq<Origin>) {
    && (forall o :: o in origins <==> IsOrigin(inp, spec, o))
    && Assets.Distinct(origins)
    && forall i, j | 0 <= i < j < |origins| :: origins[i].patch <= origins[j].patch
  }

  ghost predicate IsKustomization(inp: Inputs, spec: Config.Pack, p: Assets.Pack, origins: seq<Origin>, k: Kustomization) {
    && k.namespace == "kube-system" && k.buildMetadata == ["originAnnotations"]
    && |k.resources| == |p.resources|
    && (forall i | 0 <= i < |p.resources| :: k.resources[i] == Base(p.resources[i].path))
    && |k.patches| == |origins|
    && forall i | 0 <= i < |origins| ::
         && IsOrigin(inp, spec, origins[i])
         && k.patches[i] == Patch(FileOf(spec, origins[i]), spec.patches[origins[i].patch].target)
  }

  ghost predicate Places(inp: Inputs, spec: Config.Pack, p: Assets.Pack, path: string, o: Origin) {
    IsOrigin(inp, spec, o) && path == p.baseDir + "/" + FileOf(spec, o)
  }

  /** The file is the patch of the last specification that is placed there. */
  ghost predicate IsPatchFile(inp: Inputs, spec: Config.Pack, p: Assets.Pack, path: string, data: string) {
    exists o :: Places(inp, spec, p, path, o) && data == BytesOf(inp, spec, o)
                && forall o2 | Places(inp, spec, p, path, o2) :: o2.patch <= o.patch
  }

  ghost function At(files: map<string, string>, path: string): Option<string> {
    if path in files then Some(files[path]) else None
  }

  /** What the prepared file system has at a path: the kustomization, else a patch, else a resource. */
  ghost predicate IsPrepared(inp: Inputs, spec: Config.Pack, p: Assets.Pack, text: string, path: string, data: Option<string>) {
    if path == p.baseDir + "/" + "kustomization.yaml" then data == Some(text)
    else if exists o :: Places(inp, spec, p, path, o) then data.Some? && IsPatchFile(inp, spec, p, path, data.value)
    else if exists r :: r in p.resources && r.path == path
      then Readable(inp.collection.files, path) && data == Some(inp.collection.files[path].data)
    else data == None
  }

  /** The object with its own labels, overridden by the name and the version of the pack. */
  ghost predicate IsLabelled(p: Assets.Pack, o: Object, labelled: Object) {
    && labelled.kind == o.kind && labelled.name == o.name && labelled.body == o.body
    && forall key ::
         if key == "pack.extensions.gardener.cloud/name" then key in labelled.labels && labelled.labels[key] == p.name
         else if key == "pack.extensions.gardener.cloud/version" then key in labelled.labels && labelled.labels[key] == p.version
         else (key in labelled.labels <==> key in o.labels)
              && (key in o.labels ==> labelled.labels[key] == o.labels[key])
  }

  /** The entry is the labelled object in YAML. */
  ghost predicate IsEntry(tools: Toolkit, p: Assets.Pack, o: Object, entry: string) {
    exists labelled :: IsLabelled(p, o, labelled) && tools.asYaml(labelled) == Some(entry)
  }

  ghost predicate IsRegistry(tools: Toolkit, p: Assets.Pack, objs: seq<Object>, registry: map<string, string>) {
    && (forall i: nat | i < |objs| && objs[i].kind != "Namespace" ::
          && !tools.rejectsLabels(objs[i])
          && p.baseDir + "/" + Itoa(i) in registry
          && IsEntry(tools, p, objs[i], registry[p.baseDir + "/" + Itoa(i)]))
    && forall key | key in registry :: exists i: nat :: i < |objs| && objs[i].kind != "Namespace" && key == p.baseDir + "/" + Itoa(i)
  }

  /** The intermediate results of rendering a pack. */
  datatype Stages = Stages(origins: seq<Origin>, kustomization: Kustomization, files: map<string, string>,
                           objects: seq<Object>, registry: map<string, string>)

  ghost predicate Kustomizes(inp: Inputs, shoot: Shoot, spec: Config.Pack, p: Assets.Pack, st: Stages) {
    && IsComplete(inp, shoot, spec, p)
    && ListsOrigins(inp, spec, st.origins)
    && IsKustomization(inp, spec, p, st.origins, st.kustomization)
  }

  ghost predicate Prepares(inp: Inputs, shoot: Shoot, spec: Config.Pack, p: Assets.Pack, st: Stages) {
    && Kustomizes(inp, shoot, spec, p, st)
    && inp.tools.marshal(st.kustomization).Some?
    && forall path ::
         IsPrepared(inp, spec, p, inp.tools.marshal(st.kustomization).value, path,
                    At(st.files, path))
  }

  ghost predicate Builds(inp: Inputs, shoot: Shoot, spec: Config.Pack, p: Assets.Pack, st: Stages) {
    Prepares(inp, shoot, spec, p, st) && inp.tools.kustomize(st.files, p.baseDir) == Some(st.objects)
  }

  ghost predicate Registers(inp: Inputs, shoot: Shoot, spec: Config.Pack, p: Assets.Pack, st: Stages) {
    Builds(inp, shoot, spec, p, st) && IsRegistry(inp.tools, p, st.objects, st.registry)
  }

  ghost predicate IsRendering(inp: Inputs, shoot: Shoot, spec: Config.Pack, d: Data) {
    exists p, st ::
      && IsFirstMatch(inp.collection.packs, spec.name, spec.version, p)
      && Registers(inp, shoot, spec, p, st)
      && inp.tools.serialize(st.registry) == Some(d)
  }

  // ----- the file system -----

  /** The origins of the patch writes, one by one. */
  ghost function Origins(orders: seq<seq<string>>): seq<Origin> {
    if orders == [] then []
    else Origins(orders[..|orders| - 1]) + GroupOrigins(|orders| - 1, orders[|orders| - 1])
  }

  ghost function GroupOrigins(patch: nat, order: seq<string>): seq<Origin> {
    seq(|order|, i requires 0 <= i < |order| => Origin(patch, order[i]))
  }

  lemma {:induction false} OriginsAre(orders: seq<seq<string>>)
    ensures forall o :: o in Origins(orders) <==> o.patch < |orders| && o.key in orders[o.patch]
    ensures forall i, j | 0 <= i < j < |Origins(orders)| :: Origins(orders)[i].patch <= Origins(orders)[j].patch
  {
    if orders != [] {
      var n := |orders| - 1;
      var init, group := Origins(orders[..n]), GroupOrigins(n, orders[n]);
      OriginsAre(orders[..n]);
      InConcat(init, group);
      forall o ensures o in group <==> o.patch == n && o.key in orders[n] {
        if o.patch == n && o.key in orders[n] {
          var i :| 0 <= i < |orders[n]| && orders[n][i] == o.key;
          assert group[i] == o;
        }
      }
      forall i | 0 <= i < |init| ensures init[i].patch < n {
        assert init[i] in init;
      }
    }
  }

  lemma {:induction false} OriginsDistinct(orders: seq<seq<string>>)
    requires forall i | 0 <= i < |orders| :: Assets.Distinct(orders[i])
    ensures Assets.Distinct(Origins(orders))
  {
    if orders != [] {
      var n := |orders| - 1;
      var init, group := Origins(orders[..n]), GroupOrigins(n, orders[n]);
      OriginsDistinct(orders[..n]);
      OriginsAre(orders[..n]);
      forall i | 0 <= i < |init| ensures init[i].patch < n {
        assert init[i] in init;
      }
    }
  }

  lemma OriginIs(inp: Inputs, spec: Config.Pack, o: Origin)
    requires o.patch < |spec.patches|
    ensures var data := SecretOf(inp.secrets, inp.namespace, spec.patches[o.patch].resourceRef);
            && (IsOrigin(inp, spec, o) <==> o.key in data)
            && (IsOrigin(inp, spec, o) ==> BytesOf(inp, spec, o) == data[o.key])
    ensures FileOf(spec, o) == PatchFile(SecretName(spec.patches[o.patch].resourceRef), o.key)
  {
  }

  /** The origins belong to the patch writes and to the patch list, place by place. */
  lemma {:induction false} OriginsFit(base: string, ns: string, secrets: Secrets, patches: seq<Config.PatchSpec>,
                                      orders: seq<seq<string>>)
    requires EnumeratesAll(orders, ns, secrets, patches)
    ensures |Origins(orders)| == |PatchWrites(base, ns, secrets, patches, orders)| == |PatchEntries(patches, orders)|
    ensures forall i | 0 <= i < |Origins(orders)| ::
              var o := Origins(orders)[i];
              && o.patch < |patches| && o.key in SecretOf(secrets, ns, patches[o.patch].resourceRef)
              && PatchWrites(base, ns, secrets, patches, orders)[i]
                 == FileWrite(PatchPath(base, SecretName(patches[o.patch].resourceRef), o.key),
                              SecretOf(secrets, ns, patches[o.patch].resourceRef)[o.key])
              && PatchEntries(patches, orders)[i]
                 == Patch(PatchFile(SecretName(patches[o.patch].resourceRef), o.key), patches[o.patch].target)
  {
    hide SecretOf, PatchPath, PatchFile, SecretName;
    if patches != [] {
      var n := |patches| - 1;
      OriginsFit(base, ns, secrets, patches[..n], orders[..n]);
      var init := Origins(orders[..n]);
      forall i | |init| <= i < |Origins(orders)|
        ensures Origins(orders)[i] == Origin(n, orders[n][i - |init|]) && orders[n][i - |init|] in orders[n]
      {
      }
    }
  }

  lemma OriginsListed(inp: Inputs, spec: Config.Pack, orders: seq<seq<string>>)
    requires EnumeratesAll(orders, inp.namespace, inp.secrets, spec.patches)
    ensures ListsOrigins(inp, spec, Origins(orders))
  {
    hide SecretOf, IsOrigin;
    OriginsAre(orders);
    OriginsDistinct(orders);
    forall o ensures o in Origins(orders) <==> IsOrigin(inp, spec, o) {
      if o.patch < |spec.patches| {
        OriginIs(inp, spec, o);
      } else {
        NoSuchPatch(inp, spec, o);
      }
    }
  }

  lemma NoSuchPatch(inp: Inputs, spec: Config.Pack, o: Origin)
    requires o.patch >= |spec.patches|
    ensures !IsOrigin(inp, spec, o)
  {
  }

  lemma KustomizationIs(inp: Inputs, spec: Config.Pack, p: Assets.Pack, orders: seq<seq<string>>)
    requires EnumeratesAll(orders, inp.namespace, inp.secrets, spec.patches)
    ensures IsKustomization(inp, spec, p, Origins(orders), KustomizationOf(p, spec.patches, orders))
  {
    hide SecretOf, PatchFile, IsOrigin, FileOf, Base, Origins, PatchEntries;
    OriginsFit(p.baseDir, inp.namespace, inp.secrets, spec.patches, orders);
    forall i | 0 <= i < |Origins(orders)|
      ensures IsOrigin(inp, spec, Origins(orders)[i])
      ensures PatchEntries(spec.patches, orders)[i]
              == Patch(FileOf(spec, Origins(orders)[i]), spec.patches[Origins(orders)[i].patch].target)
    {
      OriginIs(inp, spec, Origins(orders)[i]);
    }
  }

  /** The patch writes to a path come from the origins that are placed there. */
  lemma WritesArePlaced(inp: Inputs, spec: Config.Pack, p: Assets.Pack, orders: seq<seq<string>>, i: nat)
    requires EnumeratesAll(orders, inp.namespace, inp.secrets, spec.patches)
    requires i < |Origins(orders)|
    ensures |PatchWrites(p.baseDir, inp.namespace, inp.secrets, spec.patches, orders)| == |Origins(orders)|
    ensures var w := PatchWrites(p.baseDir, inp.namespace, inp.secrets, spec.patches, orders)[i];
            && IsOrigin(inp, spec, Origins(orders)[i])
            && w == FileWrite(p.baseDir + "/" + FileOf(spec, Origins(orders)[i]), BytesOf(inp, spec, Origins(orders)[i]))
  {
    hide SecretOf, PatchFile, IsOrigin, FileOf, BytesOf, Origins, PatchWrites, PatchEntries;
    OriginsFit(p.baseDir, inp.namespace, inp.secrets, spec.patches, orders);
    OriginIs(inp, spec, Origins(orders)[i]);
  }

  lemma PatchIsPrepared(inp: Inputs, spec: Config.Pack, p: Assets.Pack, orders: seq<seq<string>>, text: string,
                        path: string, o: Origin)
    requires FirstUnreadable(inp.collection.files, p.resources).None?
    requires EnumeratesAll(orders, inp.namespace, inp.secrets, spec.patches)
    requires path != p.baseDir + "/" + "kustomization.yaml" && Places(inp, spec, p, path, o)
    ensures var writes := PackWrites(inp.collection.files, inp.namespace, inp.secrets, spec, p, orders, text);
            path in WriteAll(map[], writes) && IsPatchFile(inp, spec, p, path, WriteAll(map[], writes)[path])
  {
    hide SecretOf, FileOf, BytesOf, Origins, PatchWrites, ResourceWrites, WriteAll, IsOrigin, EnumeratesAll;
    var origins := Origins(orders);
    var rs := ResourceWrites(inp.collection.files, p.resources);
    var ps := PatchWrites(p.baseDir, inp.namespace, inp.secrets, spec.patches, orders);
    var writes := PackWrites(inp.collection.files, inp.namespace, inp.secrets, spec, p, orders, text);
    OriginsListed(inp, spec, orders);
    var i: nat :| i < |origins| && origins[i] == o;
    WritesArePlaced(inp, spec, p, orders, i);
    assert writes[|rs| + i] == ps[i];
    var k := LastWriteAt(map[], writes, path);
    assert |rs| + i <= k < |rs| + |ps|;
    var last := origins[k - |rs|];
    WritesArePlaced(inp, spec, p, orders, k - |rs|);
    assert writes[k] == ps[k - |rs|];
    forall o2 | Places(inp, spec, p, path, o2) ensures o2.patch <= last.patch {
      var j: nat :| j < |origins| && origins[j] == o2;
      WritesArePlaced(inp, spec, p, orders, j);
      assert writes[|rs| + j] == ps[j];
      assert |rs| + j <= k;
    }
  }

  lemma OtherIsPrepared(inp: Inputs, spec: Config.Pack, p: Assets.Pack, orders: seq<seq<string>>, text: string, path: string)
    requires FirstUnreadable(inp.collection.files, p.resources).None?
    requires EnumeratesAll(orders, inp.namespace, inp.secrets, spec.patches)
    requires path != p.baseDir + "/" + "kustomization.yaml" && forall o :: !Places(inp, spec, p, path, o)
    ensures IsPrepared(inp, spec, p, text, path,
                       At(WriteAll(map[], PackWrites(inp.collection.files, inp.namespace, inp.secrets, spec, p, orders, text)),
                          path))
  {
    hide SecretOf, FileOf, BytesOf, Origins, PatchWrites, WriteAll, IsOrigin, EnumeratesAll;
    var rs := ResourceWrites(inp.collection.files, p.resources);
    var ps := PatchWrites(p.baseDir, inp.namespace, inp.secrets, spec.patches, orders);
    var writes := PackWrites(inp.collection.files, inp.namespace, inp.secrets, spec, p, orders, text);
    OriginsListed(inp, spec, orders);
    SameLengths(inp, spec, p, orders);
    forall i: nat | i < |ps| ensures ps[i].path != path {
      WritesArePlaced(inp, spec, p, orders, i);
      assert !Places(inp, spec, p, path, Origins(orders)[i]);
    }
    WrittenIff(map[], writes, path);
    if path in WriteAll(map[], writes) {
      var k := LastWriteAt(map[], writes, path);
      assert k < |rs| && writes[k] == rs[k];
      assert p.resources[k] in p.resources;
    } else {
      forall r | r in p.resources ensures r.path != path {
        var k: nat :| k < |p.resources| && p.resources[k] == r;
        assert writes[k] == rs[k];
      }
    }
  }

  lemma SameLengths(inp: Inputs, spec: Config.Pack, p: Assets.Pack, orders: seq<seq<string>>)
    requires EnumeratesAll(orders, inp.namespace, inp.secrets, spec.patches)
    ensures |PatchWrites(p.baseDir, inp.namespace, inp.secrets, spec.patches, orders)| == |Origins(orders)|
  {
    OriginsFit(p.baseDir, inp.namespace, inp.secrets, spec.patches, orders);
  }

  lemma FilesArePrepared(inp: Inputs, spec: Config.Pack, p: Assets.Pack, orders: seq<seq<string>>, text: string, path: string)
    requires FirstUnreadable(inp.collection.files, p.resources).None?
    requires EnumeratesAll(orders, inp.namespace, inp.secrets, spec.patches)
    ensures IsPrepared(inp, spec, p, text, path,
                       At(WriteAll(map[], PackWrites(inp.collection.files, inp.namespace, inp.secrets, spec, p, orders, text)),
                          path))
  {
    hide SecretOf, EnumeratesAll, WriteAll, ContentWrites, Places, IsPatchFile;
    if path == p.baseDir + "/" + "kustomization.yaml" {
      WriteAppend(map[], ContentWrites(inp.collection.files, inp.namespace, inp.secrets, spec, p, orders),
                  FileWrite(path, text));
    } else if o :| Places(inp, spec, p, path, o) {
      PatchIsPrepared(inp, spec, p, orders, text, path, o);
    } else {
      OtherIsPrepared(inp, spec, p, orders, text, path);
    }
  }

  lemma Prepared(inp: Inputs, shoot: Shoot, spec: Config.Pack, p: Assets.Pack, orders: seq<seq<string>>, st: Stages)
    requires FirstUnreadable(inp.collection.files, p.resources).None?
    requires EnumeratesAll(orders, inp.namespace, inp.secrets, spec.patches)
    requires Kustomizes(inp, shoot, spec, p, st)
    requires inp.tools.marshal(st.kustomization).Some?
    requires st.files == WriteAll(map[], PackWrites(inp.collection.files, inp.namespace, inp.secrets, spec, p, orders,
                                                    inp.tools.marshal(st.kustomization).value))
    ensures Prepares(inp, shoot, spec, p, st)
  {
    hide EnumeratesAll, Kustomizes, IsPrepared, WriteAll, PackWrites;
    forall path ensures IsPrepared(inp, spec, p, inp.tools.marshal(st.kustomization).value, path, At(st.files, path)) {
      FilesArePrepared(inp, spec, p, orders, inp.tools.marshal(st.kustomization).value, path);
    }
  }

  // ----- the registry -----

  lemma RelabelledIsLabelled(p: Assets.Pack, o: Object)
    ensures IsLabelled(p, o, Relabelled(o, p))
  {
    forall key {
      RelabelledLabels(o, p, key);
    }
  }

  lemma LabelledIsRelabelled(p: Assets.Pack, o: Object, labelled: Object)
    requires IsLabelled(p, o, labelled)
    ensures labelled == Relabelled(o, p)
  {
    forall key
      ensures key in labelled.labels <==> key in Relabelled(o, p).labels
      ensures key in labelled.labels ==> labelled.labels[key] == Relabelled(o, p).labels[key]
    {
      RelabelledLabels(o, p, key);
    }
    assert labelled.labels == Relabelled(o, p).labels;
  }

  lemma EntryIff(tools: Toolkit, p: Assets.Pack, o: Object, entry: string)
    ensures IsEntry(tools, p, o, entry) <==> tools.asYaml(Relabelled(o, p)) == Some(entry)
  {
    hide IsLabelled, Relabelled;
    RelabelledIsLabelled(p, o);
    forall labelled | IsLabelled(p, o, labelled) ensures labelled == Relabelled(o, p) {
      LabelledIsRelabelled(p, o, labelled);
    }
  }

  /** A map is the registry of some objects exactly when all of them register and it is what they register. */
  lemma RegistryIff(tools: Toolkit, p: Assets.Pack, objs: seq<Object>, registry: map<string, string>)
    ensures IsRegistry(tools, p, objs, registry)
            <==> FirstBadObject(tools, p, objs, 0).None? && registry == Registered(tools, p, objs, |objs|)
  {
    hide FirstBadObject, Registered, IsEntry, Relabelled, Itoa;
    var all := Registered(tools, p, objs, |objs|);
    RegistryComplete(tools, p, objs, |objs|);
    forall o, entry ensures IsEntry(tools, p, o, entry) <==> tools.asYaml(Relabelled(o, p)) == Some(entry) {
      EntryIff(tools, p, o, entry);
    }
    if IsRegistry(tools, p, objs, registry) {
      forall k | 0 <= k < |objs| && !IsNamespace(objs[k]) ensures Registrable(tools, p, objs[k]) {
        assert IsEntry(tools, p, objs[k], registry[p.baseDir + "/" + Itoa(k)]);
      }
      RegistriesEqual(tools, p, objs, registry, all);
    }
  }

  lemma RegistriesEqual(tools: Toolkit, p: Assets.Pack, objs: seq<Object>, registry: map<string, string>, all: map<string, string>)
    requires IsRegistry(tools, p, objs, registry)
    requires forall o, entry :: IsEntry(tools, p, o, entry) <==> tools.asYaml(Relabelled(o, p)) == Some(entry)
    requires forall key :: key in all <==> IsKeyBelow(p, objs, |objs|, key)
    requires forall k: nat | k < |objs| && !IsNamespace(objs[k]) ::
               RegistryKey(p, k) in all && all[RegistryKey(p, k)] == YamlOf(tools, p, objs[k])
    ensures registry == all
  {
    hide IsEntry, Relabelled, Itoa;
    forall key
      ensures key in registry <==> key in all
      ensures key in registry ==> registry[key] == all[key]
    {
      if key in registry {
        var i: nat :| i < |objs| && objs[i].kind != "Namespace" && key == p.baseDir + "/" + Itoa(i);
        assert RegistryKey(p, i) == key;
        assert IsEntry(tools, p, objs[i], registry[key]);
      }
      if key in all {
        var i: nat :| i < |objs| && !IsNamespace(objs[i]) && RegistryKey(p, i) == key;
        assert p.baseDir + "/" + Itoa(i) in registry;
      }
    }
  }

  // ----- what CanRender means -----

  lemma ReferencedIff(shoot: Shoot, ref: string)
    ensures IsReferenced(shoot, ref) <==> HasSecretRef(shoot.resources, ref)
  {
    SecretRefIff(shoot.resources, ref);
  }

  lemma CompleteIff(inp: Inputs, shoot: Shoot, spec: Config.Pack, p: Assets.Pack)
    ensures IsComplete(inp, shoot, spec, p)
            <==> PrepareError(inp.collection.files, shoot, inp.namespace, inp.secrets, spec, p).None?
  {
    hide IsReferenced, HasSecretRef;
    forall ref ensures IsReferenced(shoot, ref) <==> HasSecretRef(shoot.resources, ref) {
      ReferencedIff(shoot, ref);
    }
    if PrepareError(inp.collection.files, shoot, inp.namespace, inp.secrets, spec, p).None? {
      forall patch | patch in spec.patches
        ensures IsReferenced(shoot, patch.resourceRef) && ObjectKey(inp.namespace, "ref-" + patch.resourceRef) in inp.secrets
      {
        var i :| 0 <= i < |spec.patches| && spec.patches[i] == patch;
        assert HasSecretRef(shoot.resources, spec.patches[i].resourceRef);
      }
    }
    if IsComplete(inp, shoot, spec, p) {
      forall i | 0 <= i < |spec.patches|
        ensures HasSecretRef(shoot.resources, spec.patches[i].resourceRef)
                && ObjectKey(inp.namespace, SecretName(spec.patches[i].resourceRef)) in inp.secrets
      {
        assert spec.patches[i] in spec.patches;
      }
    }
  }

  lemma FirstMatchIff(packs: seq<Assets.Pack>, name: string, version: string, p: Assets.Pack)
    ensures IsFirstMatch(packs, name, version, p) <==> Assets.GetPack(packs, name, version) == Some(p)
  {
    hide Assets.GetPack;
    if IsFirstMatch(packs, name, version, p) {
      var i: nat :| i < |packs| && packs[i] == p && p.name == name && p.version == version
                    && forall j | 0 <= j < i :: packs[j].name != name || packs[j].version != version;
      assert packs[i] in packs;
    }
  }

  /** The stages that some iteration order goes through. */
  lemma StagesOf(inp: Inputs, shoot: Shoot, spec: Config.Pack, p: Assets.Pack, orders: seq<seq<string>>) returns (st: Stages)
    requires PrepareError(inp.collection.files, shoot, inp.namespace, inp.secrets, spec, p).None?
    requires EnumeratesAll(orders, inp.namespace, inp.secrets, spec.patches)
    ensures st.origins == Origins(orders) && st.kustomization == KustomizationOf(p, spec.patches, orders)
    ensures Kustomizes(inp, shoot, spec, p, st)
    ensures inp.tools.marshal(st.kustomization).Some? ==>
              && Prepares(inp, shoot, spec, p, st)
              && st.files == WriteAll(map[], PackWrites(inp.collection.files, inp.namespace, inp.secrets, spec, p, orders,
                                                        inp.tools.marshal(st.kustomization).value))
              && (inp.tools.kustomize(st.files, p.baseDir).Some? ==>
                    && Builds(inp, shoot, spec, p, st)
                    && (FirstBadObject(inp.tools, p, st.objects, 0).None? ==>
                          && Registers(inp, shoot, spec, p, st)
                          && st.registry == Registered(inp.tools, p, st.objects, |st.objects|)))
  {
    hide Enumerates, SecretOf, KustomizationOf, IsKustomization, ListsOrigins, IsComplete, PackWrites, WriteAll, IsPrepared,
      FirstBadObject, IsRegistry, Registered, FirstMissing, FirstUnreadable;
    CompleteIff(inp, shoot, spec, p);
    OriginsListed(inp, spec, orders);
    KustomizationIs(inp, spec, p, orders);
    st := Stages(Origins(orders), KustomizationOf(p, spec.patches, orders), map[], [], map[]);
    var text := inp.tools.marshal(st.kustomization);
    if text.Some? {
      st := st.(files := WriteAll(map[], PackWrites(inp.collection.files, inp.namespace, inp.secrets, spec, p, orders, text.value)));
      Prepared(inp, shoot, spec, p, orders, st);
      var objs := inp.tools.kustomize(st.files, p.baseDir);
      if objs.Some? {
        st := st.(objects := objs.value, registry := Registered(inp.tools, p, objs.value, |objs.value|));
        RegistryIff(inp.tools, p, st.objects, st.registry);
      }
    }
  }

  /** Every rendering is one in the sense above. */
  lemma RenderingMeans(inp: Inputs, shoot: Shoot, spec: Config.Pack, d: Data)
    requires CanRender(inp, shoot, spec, d)
    ensures IsRendering(inp, shoot, spec, d)
  {
    hide EnumeratesAll, KustomizationOf, PackWrites, WriteAll, FirstBadObject, Registered, Registers, Builds, Prepares,
      Kustomizes, PrepareError, IsFirstMatch;
    var p := AssetOf(inp, spec).value;
    FirstMatchIff(inp.collection.packs, spec.name, spec.version, p);
    var orders :|
      && EnumeratesAll(orders, inp.namespace, inp.secrets, spec.patches)
      && Content(inp.tools, inp.collection.files, shoot, inp.namespace, inp.secrets, spec, p, orders) == Ok(d);
    var st := StagesOf(inp, shoot, spec, p, orders);
    assert Builds(inp, shoot, spec, p, st) by {
      assert inp.tools.marshal(st.kustomization).Some? && inp.tools.kustomize(st.files, p.baseDir).Some?;
    }
    BuildsObjects(inp, shoot, spec, p, st);
  }

  lemma BuildsObjects(inp: Inputs, shoot: Shoot, spec: Config.Pack, p: Assets.Pack, st: Stages)
    requires Builds(inp, shoot, spec, p, st)
    ensures inp.tools.kustomize(st.files, p.baseDir) == Some(st.objects)
  {
  }

  // ----- and conversely -----

  /** The keys of the last origins, which belong to one specification. */
  lemma LastKeys(origins: seq<Origin>, n: nat) returns (m: nat, keys: seq<string>)
    requires forall i | 0 <= i < |origins| :: origins[i].patch <= n
    requires forall i, j | 0 <= i < j < |origins| :: origins[i].patch <= origins[j].patch
    ensures m <= |origins| && origins == origins[..m] + GroupOrigins(n, keys)
    ensures forall i | 0 <= i < m :: origins[i].patch < n
  {
    m := |origins|;
    while m > 0 && origins[m - 1].patch == n
      invariant 0 <= m <= |origins|
      invariant forall i | m <= i < |origins| :: origins[i].patch == n
    {
      m := m - 1;
    }
    var from := m;
    keys := seq(|origins| - from, i requires 0 <= i < |origins| - from => origins[from + i].key);
    assert GroupOrigins(n, keys) == origins[m..];
  }

  /** Any list of origins in configuration order comes from some iteration orders. */
  lemma {:induction false} OrdersOf(origins: seq<Origin>, n: nat) returns (orders: seq<seq<string>>)
    requires forall i | 0 <= i < |origins| :: origins[i].patch < n
    requires forall i, j | 0 <= i < j < |origins| :: origins[i].patch <= origins[j].patch
    ensures |orders| == n && Origins(orders) == origins
    decreases n
  {
    hide GroupOrigins;
    orders := [];
    if n > 0 {
      var m, last := LastKeys(origins, n - 1);
      var init := OrdersOf(origins[..m], n - 1);
      orders := init + [last];
      assert orders[..n - 1] == init;
    } else {
      assert |origins| == 0 || origins[0].patch < 0;
    }
  }

  lemma {:induction false} OrdersDistinct(orders: seq<seq<string>>)
    requires Assets.Distinct(Origins(orders))
    ensures forall i | 0 <= i < |orders| :: Assets.Distinct(orders[i])
  {
    if orders != [] {
      var n := |orders| - 1;
      var init := Origins(orders[..n]);
      DistinctParts(init, GroupOrigins(n, orders[n]));
      OrdersDistinct(orders[..n]);
      GroupDistinct(n, orders[n]);
      assert forall i | 0 <= i < n :: orders[..n][i] == orders[i];
    }
  }

  lemma DistinctParts<T>(a: seq<T>, b: seq<T>)
    requires Assets.Distinct(a + b)
    ensures Assets.Distinct(a) && Assets.Distinct(b)
  {
    assert forall i | 0 <= i < |a| :: (a + b)[i] == a[i];
    assert forall i | 0 <= i < |b| :: (a + b)[|a| + i] == b[i];
  }

  lemma GroupDistinct(patch: nat, order: seq<string>)
    requires Assets.Distinct(GroupOrigins(patch, order))
    ensures Assets.Distinct(order)
  {
    assert forall i | 0 <= i < |order| :: GroupOrigins(patch, order)[i] == Origin(patch, order[i]);
  }

  lemma ListsOrders(inp: Inputs, spec: Config.Pack, origins: seq<Origin>) returns (orders: seq<seq<string>>)
    requires ListsOrigins(inp, spec, origins)
    ensures EnumeratesAll(orders, inp.namespace, inp.secrets, spec.patches) && Origins(orders) == origins
  {
    hide IsOrigin, SecretOf, Origins;
    forall i | 0 <= i < |origins| ensures origins[i].patch < |spec.patches| {
      assert origins[i] in origins;
      if origins[i].patch >= |spec.patches| { NoSuchPatch(inp, spec, origins[i]); }
    }
    orders := OrdersOf(origins, |spec.patches|);
    OriginsAre(orders);
    OrdersDistinct(orders);
    forall i | 0 <= i < |orders|
      ensures Enumerates(orders[i], SecretOf(inp.secrets, inp.namespace, spec.patches[i].resourceRef))
    {
      forall key ensures key in orders[i] <==> key in SecretOf(inp.secrets, inp.namespace, spec.patches[i].resourceRef) {
        OriginIs(inp, spec, Origin(i, key));
        assert Origin(i, key) in origins <==> IsOrigin(inp, spec, Origin(i, key));
      }
    }
  }

  /** One file holds one patch of a specification only. */
  lemma PatchFileUnique(inp: Inputs, spec: Config.Pack, p: Assets.Pack, path: string, d1: string, d2: string)
    requires IsPatchFile(inp, spec, p, path, d1) && IsPatchFile(inp, spec, p, path, d2)
    ensures d1 == d2
  {
    hide IsOrigin, BytesOf, FileOf;
    var o1 :| Places(inp, spec, p, path, o1) && d1 == BytesOf(inp, spec, o1)
      && forall o | Places(inp, spec, p, path, o) :: o.patch <= o1.patch;
    var o2 :| Places(inp, spec, p, path, o2) && d2 == BytesOf(inp, spec, o2)
      && forall o | Places(inp, spec, p, path, o) :: o.patch <= o2.patch;
    assert o1.patch == o2.patch;
    SamePlaceSameKey(inp, spec, p, path, o1, o2);
  }

  lemma SamePlaceSameKey(inp: Inputs, spec: Config.Pack, p: Assets.Pack, path: string, o1: Origin, o2: Origin)
    requires Places(inp, spec, p, path, o1) && Places(inp, spec, p, path, o2) && o1.patch == o2.patch
    ensures o1 == o2
  {
    hide PatchFile, SecretName;
    OriginIs(inp, spec, o1);
    OriginIs(inp, spec, o2);
    PatchPathInjective(p.baseDir, SecretName(spec.patches[o1.patch].resourceRef), o1.key, o2.key);
  }

  lemma PreparedUnique(inp: Inputs, spec: Config.Pack, p: Assets.Pack, text: string, f1: map<string, string>, f2: map<string, string>)
    requires forall path :: IsPrepared(inp, spec, p, text, path, At(f1, path))
    requires forall path :: IsPrepared(inp, spec, p, text, path, At(f2, path))
    ensures f1 == f2
  {
    hide Places, IsPatchFile;
    forall path
      ensures path in f1 <==> path in f2
      ensures path in f1 ==> f1[path] == f2[path]
    {
      assert IsPrepared(inp, spec, p, text, path, At(f1, path)) && IsPrepared(inp, spec, p, text, path, At(f2, path));
      if path in f1 && path in f2 && IsPatchFile(inp, spec, p, path, f1[path]) && IsPatchFile(inp, spec, p, path, f2[path]) {
        PatchFileUnique(inp, spec, p, path, f1[path], f2[path]);
      }
    }
  }

  lemma KustomizationUnique(inp: Inputs, spec: Config.Pack, p: Assets.Pack, origins: seq<Origin>, k1: Kustomization, k2: Kustomization)
    requires IsKustomization(inp, spec, p, origins, k1) && IsKustomization(inp, spec, p, origins, k2)
    ensures k1 == k2
  {
    hide FileOf, IsOrigin, Base;
    assert k1.resources == k2.resources;
    assert k1.patches == k2.patches;
  }

  lemma RenderingIsReached(inp: Inputs, shoot: Shoot, spec: Config.Pack, p: Assets.Pack, st: Stages, d: Data)
    requires IsFirstMatch(inp.collection.packs, spec.name, spec.version, p)
    requires Registers(inp, shoot, spec, p, st) && inp.tools.serialize(st.registry) == Some(d)
    ensures CanRender(inp, shoot, spec, d)
  {
    hide EnumeratesAll, KustomizationOf, PackWrites, WriteAll, FirstBadObject, Registered, IsFirstMatch, IsRegistry, IsPrepared,
      PrepareError, IsComplete, ListsOrigins, IsKustomization;
    FirstMatchIff(inp.collection.packs, spec.name, spec.version, p);
    CompleteIff(inp, shoot, spec, p);
    var orders := ListsOrders(inp, spec, st.origins);
    var own := StagesOf(inp, shoot, spec, p, orders);
    KustomizationUnique(inp, spec, p, st.origins, st.kustomization, own.kustomization);
    PreparedUnique(inp, spec, p, inp.tools.marshal(st.kustomization).value, st.files, own.files);
    RegistryIff(inp.tools, p, st.objects, st.registry);
    assert Content(inp.tools, inp.collection.files, shoot, inp.namespace, inp.secrets, spec, p, orders) == Ok(d);
  }

  /** What a pack can render to is exactly what the definitions of this module call a rendering. */
  lemma CanRenderIff(inp: Inputs, shoot: Shoot, spec: Config.Pack, d: Data)
    ensures CanRender(inp, shoot, spec, d) <==> IsRendering(inp, shoot, spec, d)
  {
    hide CanRender, IsFirstMatch, Registers;
    if CanRender(inp, shoot, spec, d) {
      RenderingMeans(inp, shoot, spec, d);
    }
    if IsRendering(inp, shoot, spec, d) {
      var p, st :|
        && IsFirstMatch(inp.collection.packs, spec.name, spec.version, p)
        && Registers(inp, shoot, spec, p, st)
        && inp.tools.serialize(st.registry) == Some(d);
      RenderingIsReached(inp, shoot, spec, p, st, d);
    }
  }
}
