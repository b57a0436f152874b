/** The actuator: rendering a pack, and the operations that drive the ManagedResources of a shoot. */
module Actuator {
  import opened Results
  import opened Text
  import opened Collections
  import Config
  import Assets
  import opened Shoots
  import opened Rendering
  import PatchFiles
  import opened Store
  import opened Plan

  datatype Extension = Extension(namespace: string, providerConfig: Option<string>)

  // ----- steps of the loops -----

  lemma {:induction false} FirstUnreadableAt(files: Assets.Files, resources: seq<Assets.Resource>, i: nat)
    requires i < |resources|
    requires forall k | 0 <= k < i :: Assets.ReadFile(files, resources[k].path).Some?
    requires Assets.ReadFile(files, resources[i].path).None?
    ensures FirstUnreadable(files, resources) == Some(UnreadableResource(resources[i].path))
  {
    if i > 0 {
      assert Assets.ReadFile(files, resources[0].path).Some?;
      FirstUnreadableAt(files, resources[1..], i - 1);
    }
  }

  lemma {:induction false} FirstMissingAt(shoot: Shoot, ns: string, secrets: Secrets, patches: seq<Config.PatchSpec>, i: nat)
    requires i < |patches|
    requires FirstMissing(shoot, ns, secrets, patches[..i]).None?
    requires !HasSecretRef(shoot.resources, patches[i].resourceRef)
             || ObjectKey(ns, SecretName(patches[i].resourceRef)) !in secrets
    ensures FirstMissing(shoot, ns, secrets, patches)
            == Some(if HasSecretRef(shoot.resources, patches[i].resourceRef)
                    then SecretUnavailable(patches[i].resourceRef) else UnknownRef(patches[i].resourceRef))
  {
    if i > 0 {
      assert patches[..i][0] == patches[0];
      assert patches[1..][..i - 1] == patches[..i][1..];
      FirstMissingAt(shoot, ns, secrets, patches[1..], i - 1);
    }
  }

  lemma FirstMissingStep(shoot: Shoot, ns: string, secrets: Secrets, patches: seq<Config.PatchSpec>, i: nat)
    requires i < |patches|
    requires FirstMissing(shoot, ns, secrets, patches[..i]).None?
    requires HasSecretRef(shoot.resources, patches[i].resourceRef)
    requires ObjectKey(ns, SecretName(patches[i].resourceRef)) in secrets
    ensures FirstMissing(shoot, ns, secrets, patches[..i + 1]).None?
  {
  }

  /** A preparation error is what the pack fails with, whatever order the secrets come in. */
  lemma PreparationFails(inp: Inputs, shoot: Shoot, spec: Config.Pack, asset: Assets.Pack, e: Error)
    requires PrepareError(inp.collection.files, shoot, inp.namespace, inp.secrets, spec, asset) == Some(e)
    ensures FailsToRender(inp, shoot, spec, asset, e)
  {
    var orders := PatchFiles.SomeOrders(inp.namespace, inp.secrets, spec.patches);
    assert Content(inp.tools, inp.collection.files, shoot, inp.namespace, inp.secrets, spec, asset, orders) == Err(e);
  }

  lemma ResourceStep(files: Assets.Files, resources: seq<Assets.Resource>, i: nat, data: string)
    requires i < |resources|
    requires forall r | r in resources[..i] :: Assets.ReadFile(files, r.path).Some?
    requires Assets.ReadFile(files, resources[i].path) == Some(data)
    ensures forall r | r in resources[..i + 1] :: Assets.ReadFile(files, r.path).Some?
    ensures WriteAll(map[], ResourceWrites(files, resources[..i + 1]))
            == WriteAll(map[], ResourceWrites(files, resources[..i]))[resources[i].path := data]
  {
    hide WriteAll, Assets.ReadFile;
    var before, w := resources[..i], FileWrite(resources[i].path, data);
    assert resources[..i + 1] == before + [resources[i]];
    InAppend(before, resources[i]);
    assert ResourceWrites(files, resources[..i + 1]) == ResourceWrites(files, before) + [w];
    WriteAppend(map[], ResourceWrites(files, before), w);
  }

  lemma GroupStep(files: map<string, string>, before: seq<FileWrite>, base: string, ref: string, data: SecretData,
                  order: seq<string>, key: string)
    requires (forall k | k in order :: k in data) && key in data
    ensures forall k | k in order + [key] :: k in data
    ensures WriteAll(files, before + GroupWrites(base, ref, data, order + [key]))
            == WriteAll(files, before + GroupWrites(base, ref, data, order))
               [PatchPath(base, SecretName(ref), key) := data[key]]
  {
    hide WriteAll, PatchPath, SecretName;
    InAppend(order, key);
    var w := FileWrite(PatchPath(base, SecretName(ref), key), data[key]);
    assert GroupWrites(base, ref, data, order + [key]) == GroupWrites(base, ref, data, order) + [w];
    AppendAssoc(before, GroupWrites(base, ref, data, order), [w]);
    WriteAppend(files, before + GroupWrites(base, ref, data, order), w);
  }

  lemma EntryStep(before: seq<Patch>, p: Config.PatchSpec, order: seq<string>, key: string)
    ensures before + GroupEntries(p, order + [key])
            == before + GroupEntries(p, order) + [Patch(PatchFile(SecretName(p.resourceRef), key), p.target)]
  {
  }

  lemma PatchStep(base: string, ns: string, secrets: Secrets, patches: seq<Config.PatchSpec>, orders: seq<seq<string>>,
                  i: nat, order: seq<string>)
    requires i < |patches|
    requires EnumeratesAll(orders, ns, secrets, patches[..i])
    requires Enumerates(order, SecretOf(secrets, ns, patches[i].resourceRef))
    ensures EnumeratesAll(orders + [order], ns, secrets, patches[..i + 1])
    ensures PatchWrites(base, ns, secrets, patches[..i + 1], orders + [order])
            == PatchWrites(base, ns, secrets, patches[..i], orders)
               + GroupWrites(base, patches[i].resourceRef, SecretOf(secrets, ns, patches[i].resourceRef), order)
    ensures PatchEntries(patches[..i + 1], orders + [order])
            == PatchEntries(patches[..i], orders) + GroupEntries(patches[i], order)
  {
    hide SecretOf, GroupWrites, GroupEntries;
    assert patches[..i + 1][..i] == patches[..i];
    assert (orders + [order])[..i] == orders;
  }

  // ----- the actuator -----

  class Actuator {
    const client: ApiServer
    const tools: Toolkit
    const collection: Assets.Collection

    constructor (client: ApiServer, tools: Toolkit, collection: Assets.Collection)
      ensures this.client == client && this.tools == tools && this.collection == collection
    {
      this.client, this.tools, this.collection := client, tools, collection;
    }

    /** What an operation on the extension works on, read off the API server. */
    ghost function InputsFor(ex: Extension): Inputs
      reads client`clusters, client`secrets
    {
      Inputs(tools, collection, ex.namespace, ex.providerConfig,
             if ex.namespace in client.clusters then Some(client.clusters[ex.namespace]) else None,
             client.secrets)
    }

    method SecretFromResourceRef(ns: string, ref: string, shoot: Shoot)
      returns (data: SecretData, err: Option<Error>, ghost failed: seq<Call>)
      modifies client`failed
      ensures err.None? ==> && HasSecretRef(shoot.resources, ref)
                            && ObjectKey(ns, SecretName(ref)) in client.secrets
                            && data == SecretOf(client.secrets, ns, ref)
      ensures err.Some? ==> err.value == if HasSecretRef(shoot.resources, ref) then SecretUnavailable(ref) else UnknownRef(ref)
      ensures client.failed == old(client.failed) + failed && Blames(ns, Some(shoot), client.secrets, err, failed)
    {
      data, failed := map[], [];
      EmptyTail(client.failed);
      var idx := IndexOfSecretRef(shoot.resources, ref);
      if idx == -1 {
        return data, Some(UnknownRef(ref)), failed;
      }
      var secret := client.GetSecret(ObjectKey(ns, SecretName(ref)));
      if secret.None? {
        failed := client.failed[|old(client.failed)|..];
        return data, Some(SecretUnavailable(ref)), failed;
      }
      return secret.value, None, failed;
    }

    /** The loop over the pack resources. */
    method WriteResources(fs: MemoryFs, asset: Assets.Pack) returns (resources: seq<string>, err: Option<Error>)
      requires fs.files == map[]
      modifies fs
      ensures err == FirstUnreadable(collection.files, asset.resources)
      ensures err.None? ==>
                && fs.files == WriteAll(map[], ResourceWrites(collection.files, asset.resources))
                && resources == seq(|asset.resources|, i requires 0 <= i < |asset.resources| => Base(asset.resources[i].path))
    {
      hide WriteAll, ResourceWrites, Base, Assets.ReadFile;
      resources := [];
      err := None;
      NoResources(collection.files, asset.resources);
      for i := 0 to |asset.resources|
        invariant forall k | 0 <= k < i :: Assets.ReadFile(collection.files, asset.resources[k].path).Some?
        invariant forall r | r in asset.resources[..i] :: Assets.ReadFile(collection.files, r.path).Some?
        invariant fs.files == WriteAll(map[], ResourceWrites(collection.files, asset.resources[..i]))
        invariant |resources| == i
        invariant forall k | 0 <= k < i :: resources[k] == Base(asset.resources[k].path)
      {
        var data := Assets.ReadFile(collection.files, asset.resources[i].path);
        if data.None? {
          FirstUnreadableAt(collection.files, asset.resources, i);
          return resources, Some(UnreadableResource(asset.resources[i].path));
        }
        ResourceStep(collection.files, asset.resources, i, data.value);
        fs.WriteFile(asset.resources[i].path, data.value);
        resources := resources + [Base(asset.resources[i].path)];
      }
      assert asset.resources[..|asset.resources|] == asset.resources;
    }

    lemma NoResources(files: Assets.Files, resources: seq<Assets.Resource>)
      ensures WriteAll(map[], ResourceWrites(files, resources[..0])) == map[]
    {
    }

    /** The loop over the keys of one secret, which Go iterates in any order. */
    method WriteGroup(fs: MemoryFs, base: string, p: Config.PatchSpec, data: SecretData, patches: seq<Patch>,
                      ghost before: seq<FileWrite>)
      returns (all: seq<Patch>, ghost order: seq<string>)
      requires fs.files == WriteAll(map[], before)
      modifies fs
      ensures Enumerates(order, data)
      ensures fs.files == WriteAll(map[], before + GroupWrites(base, p.resourceRef, data, order))
      ensures all == patches + GroupEntries(p, order)
    {
      hide WriteAll, PatchPath, PatchFile, SecretName;
      all := patches;
      order := [];
      EmptyTail(before);
      EmptyTail(patches);
      assert GroupWrites(base, p.resourceRef, data, []) == [] && GroupEntries(p, []) == [];
      var keys := data.Keys;
      while keys != {}
        invariant keys <= data.Keys
        invariant Assets.Distinct(order) && forall k :: k in order <==> k in data && k !in keys
        invariant fs.files == WriteAll(map[], before + GroupWrites(base, p.resourceRef, data, order))
        invariant all == patches + GroupEntries(p, order)
        decreases keys
      {
        var key :| key in keys;
        keys := keys - {key};
        var patchFile := PatchFile(SecretName(p.resourceRef), key);
        fs.WriteFile(PatchPath(base, SecretName(p.resourceRef), key), data[key]);
        all := all + [Patch(patchFile, p.target)];
        GroupStep(map[], before, base, p.resourceRef, data, order, key);
        EntryStep(patches, p, order, key);
        Assets.DistinctAppend(order, key);
        InAppend(order, key);
        order := order + [key];
      }
    }

    /** The loop over the patch specifications. */
    method WritePatches(fs: MemoryFs, ns: string, shoot: Shoot, spec: Config.Pack, asset: Assets.Pack,
                        ghost before: seq<FileWrite>)
      returns (patches: seq<Patch>, err: Option<Error>, ghost orders: seq<seq<string>>, ghost failed: seq<Call>)
      requires fs.files == WriteAll(map[], before)
      modifies fs, client`failed
      ensures client.failed == old(client.failed) + failed && Blames(ns, Some(shoot), client.secrets, err, failed)
      ensures err.None? ==>
                && FirstMissing(shoot, ns, client.secrets, spec.patches).None?
                && EnumeratesAll(orders, ns, client.secrets, spec.patches)
                && fs.files == WriteAll(map[], before + PatchWrites(asset.baseDir, ns, client.secrets, spec.patches, orders))
                && patches == PatchEntries(spec.patches, orders)
      ensures err.Some? ==>
                || err == FirstMissing(shoot, ns, client.secrets, spec.patches)
                || exists i :: 0 <= i < |spec.patches| && err == Some(SecretUnavailable(spec.patches[i].resourceRef))
                               && FirstMissing(shoot, ns, client.secrets, spec.patches[..i]).None?
                               && HasSecretRef(shoot.resources, spec.patches[i].resourceRef)
    {
      hide WriteAll, PatchWrites, PatchEntries, GroupWrites, GroupEntries, HasSecretRef, SecretOf;
      patches, err, orders, failed := [], None, [], [];
      EmptyTail(client.failed);
      ghost var secrets := client.secrets;
      NoPatches(asset.baseDir, ns, secrets, spec.patches);
      EmptyTail(before);
      for i := 0 to |spec.patches|
        invariant FirstMissing(shoot, ns, secrets, spec.patches[..i]).None?
        invariant EnumeratesAll(orders, ns, secrets, spec.patches[..i])
        invariant fs.files == WriteAll(map[], before + PatchWrites(asset.baseDir, ns, secrets, spec.patches[..i], orders))
        invariant patches == PatchEntries(spec.patches[..i], orders)
        invariant client.failed == old(client.failed) && failed == []
      {
        var p := spec.patches[i];
        var data, secretErr;
        data, secretErr, failed := SecretFromResourceRef(ns, p.resourceRef, shoot);
        if secretErr.Some? {
          if !HasSecretRef(shoot.resources, p.resourceRef) {
            FirstMissingAt(shoot, ns, secrets, spec.patches, i);
          }
          return patches, secretErr, orders, failed;
        }
        ghost var soFar := PatchWrites(asset.baseDir, ns, secrets, spec.patches[..i], orders);
        ghost var order;
        patches, order := WriteGroup(fs, asset.baseDir, p, data, patches, before + soFar);
        AppendAssoc(before, soFar, GroupWrites(asset.baseDir, p.resourceRef, data, order));
        PatchStep(asset.baseDir, ns, secrets, spec.patches, orders, i, order);
        FirstMissingStep(shoot, ns, secrets, spec.patches, i);
        orders := orders + [order];
      }
      assert spec.patches[..|spec.patches|] == spec.patches;
    }

    lemma NoPatches(base: string, ns: string, secrets: Secrets, patches: seq<Config.PatchSpec>)
      ensures EnumeratesAll([], ns, secrets, patches[..0])
      ensures PatchWrites(base, ns, secrets, patches[..0], []) == [] && PatchEntries(patches[..0], []) == []
    {
    }

    method KustomizeFilesystemForPack(ns: string, shoot: Shoot, spec: Config.Pack, asset: Assets.Pack, ghost inp: Inputs)
      returns (fs: MemoryFs, err: Option<Error>, ghost orders: seq<seq<string>>, ghost failed: seq<Call>)
      requires inp.tools == tools && inp.collection == collection && inp.namespace == ns && inp.secrets == client.secrets
      modifies client`failed
      ensures fresh(fs)
      ensures client.failed == old(client.failed) + failed && Blames(ns, Some(shoot), client.secrets, err, failed)
      ensures err.None? ==>
                && PrepareError(collection.files, shoot, ns, client.secrets, spec, asset).None?
                && EnumeratesAll(orders, ns, client.secrets, spec.patches)
                && var text := tools.marshal(KustomizationOf(asset, spec.patches, orders));
                   && text.Some?
                   && fs.files == WriteAll(map[], PackWrites(collection.files, ns, client.secrets, spec, asset, orders, text.value))
      ensures err.Some? ==> FailsToRender(inp, shoot, spec, asset, err.value)
    {
      hide WriteAll, PatchWrites, PatchEntries, ResourceWrites, HasSecretRef, SecretOf, EnumeratesAll;
      fs := new MemoryFs();
      orders, failed := [], [];
      EmptyTail(client.failed);
      var resources, resourceErr := WriteResources(fs, asset);
      if resourceErr.Some? {
        PreparationFails(inp, shoot, spec, asset, resourceErr.value);
        return fs, resourceErr, orders, failed;
      }
      ghost var written := ResourceWrites(collection.files, asset.resources);
      var patches, patchErr;
      patches, patchErr, orders, failed := WritePatches(fs, ns, shoot, spec, asset, written);
      if patchErr.Some? {
        if patchErr == FirstMissing(shoot, ns, client.secrets, spec.patches) {
          PreparationFails(inp, shoot, spec, asset, patchErr.value);
        }
        return fs, patchErr, orders, failed;
      }
      var kustomization := Kustomization("kube-system", resources, ["originAnnotations"], patches);
      var text := tools.marshal(kustomization);
      if text.None? {
        assert Content(inp.tools, inp.collection.files, shoot, ns, inp.secrets, spec, asset, orders) == Err(MarshalFailed);
        return fs, Some(MarshalFailed), orders, failed;
      }
      var path := Join(asset.baseDir, KUSTOMIZATION_FILE);
      WriteAppend(map[], ContentWrites(collection.files, ns, client.secrets, spec, asset, orders), FileWrite(path, text.value));
      fs.WriteFile(path, text.value);
      return fs, None, orders, failed;
    }

    /** The loop over the rendered objects. */
    method Register(registry: Registry, asset: Assets.Pack, objs: seq<Object>) returns (err: Option<Error>)
      requires registry.entries == map[]
      modifies registry
      ensures err == FirstBadObject(tools, asset, objs, 0)
      ensures err.None? ==> registry.entries == Registered(tools, asset, objs, |objs|)
    {
      for idx := 0 to |objs|
        invariant FirstBadObject(tools, asset, objs, idx) == FirstBadObject(tools, asset, objs, 0)
        invariant registry.entries == Registered(tools, asset, objs, idx)
      {
        var r := objs[idx];
        // Whatever is deployed goes into the system namespace.
        if IsNamespace(r) {
          continue;
        }
        if tools.rejectsLabels(r) {
          return Some(LabelsRejected(idx));
        }
        var labels := r.labels + map[PACK_NAME_LABEL := asset.name, PACK_VERSION_LABEL := asset.version];
        var data := tools.asYaml(r.(labels := labels));
        if data.None? {
          return Some(YamlFailed(idx));
        }
        registry.AddSerialized(Join(asset.baseDir, Itoa(idx)), data.value);
      }
      return None;
    }

    method ReconcilePack(ns: string, shoot: Shoot, spec: Config.Pack, asset: Assets.Pack, ghost inp: Inputs)
      returns (err: Option<Error>, ghost rendered: Option<Data>, ghost writes: seq<Write>, ghost failed: seq<Call>)
      requires inp.tools == tools && inp.collection == collection && inp.namespace == ns && inp.secrets == client.secrets
      requires asset.name == spec.name
      modifies client`objects, client`failed
      ensures client.objects == Replay(old(client.objects), writes)
      ensures client.failed == old(client.failed) + failed && Blames(ns, Some(shoot), client.secrets, err, failed)
      ensures rendered.Some? ==> RendersTo(inp, shoot, spec, asset, rendered.value)
      ensures match err
              case None => rendered.Some? && writes == [Apply(KeyFor(ns, spec.name), rendered.value)]
              case Some(CreateFailed(key)) =>
                && rendered.Some? && key == KeyFor(ns, spec.name)
                && (writes == [] || writes == [Apply(key, rendered.value)])
              case Some(e) => rendered.None? && writes == [] && FailsToRender(inp, shoot, spec, asset, e)
    {
      hide Content, WriteAll, PackWrites, EnumeratesAll, RendersTo, FailsToRender, KustomizationOf, Registered;
      rendered, writes := None, [];
      var fs, fsErr;
      ghost var orders;
      fs, fsErr, orders, failed := KustomizeFilesystemForPack(ns, shoot, spec, asset, inp);
      if fsErr.Some? {
        FailuresAreNoCreate(inp, shoot, spec, asset, fsErr.value);
        return fsErr, rendered, writes, failed;
      }
      ContentIsRendering(inp, shoot, spec, asset, orders);
      ghost var content := RenderFiles(tools, asset, fs.files);
      var objs := tools.kustomize(fs.files, asset.baseDir);
      if objs.None? {
        RenderingFails(inp, shoot, spec, asset, orders, KustomizeFailed);
        return Some(KustomizeFailed), rendered, writes, failed;
      }
      var registry := new Registry();
      var registerErr := Register(registry, asset, objs.value);
      if registerErr.Some? {
        RenderingFails(inp, shoot, spec, asset, orders, registerErr.value);
        return registerErr, rendered, writes, failed;
      }
      var data := tools.serialize(registry.entries);
      if data.None? {
        RenderingFails(inp, shoot, spec, asset, orders, SerializeFailed);
        return Some(SerializeFailed), rendered, writes, failed;
      }
      assert content == Ok(data.value);
      RenderingSucceeds(inp, shoot, spec, asset, orders, data.value);
      rendered := data;
      var key := ObjectKey(ns, MANAGED_RESOURCE_PREFIX + "-" + asset.name);
      var ok;
      ghost var effective;
      ok, effective := client.CreateForShoot(key, data.value);
      writes := if effective then [Apply(key, data.value)] else [];
      ReplayOne(old(client.objects), Apply(key, data.value));
      err, failed := if ok then None else Some(CreateFailed(key)), if ok then [] else [Create(key)];
    }

    lemma ContentIsRendering(inp: Inputs, shoot: Shoot, spec: Config.Pack, asset: Assets.Pack, orders: seq<seq<string>>)
      requires PrepareError(inp.collection.files, shoot, inp.namespace, inp.secrets, spec, asset).None?
      requires EnumeratesAll(orders, inp.namespace, inp.secrets, spec.patches)
      requires inp.tools.marshal(KustomizationOf(asset, spec.patches, orders)).Some?
      ensures Content(inp.tools, inp.collection.files, shoot, inp.namespace, inp.secrets, spec, asset, orders)
              == RenderFiles(inp.tools, asset,
                             WriteAll(map[], PackWrites(inp.collection.files, inp.namespace, inp.secrets, spec, asset, orders,
                                                        inp.tools.marshal(KustomizationOf(asset, spec.patches, orders)).value)))
    {
    }

    lemma RenderingFails(inp: Inputs, shoot: Shoot, spec: Config.Pack, asset: Assets.Pack, orders: seq<seq<string>>, e: Error)
      requires EnumeratesAll(orders, inp.namespace, inp.secrets, spec.patches)
      requires Content(inp.tools, inp.collection.files, shoot, inp.namespace, inp.secrets, spec, asset, orders) == Err(e)
      ensures FailsToRender(inp, shoot, spec, asset, e)
    {
    }

    lemma RenderingSucceeds(inp: Inputs, shoot: Shoot, spec: Config.Pack, asset: Assets.Pack, orders: seq<seq<string>>, d: Data)
      requires EnumeratesAll(orders, inp.namespace, inp.secrets, spec.patches)
      requires Content(inp.tools, inp.collection.files, shoot, inp.namespace, inp.secrets, spec, asset, orders) == Ok(d)
      ensures RendersTo(inp, shoot, spec, asset, d)
    {
    }

    lemma ReplayOne(s: Objects, w: Write)
      ensures Replay(s, [w]) == Effect(s, w) && Replay(s, []) == s
    {
      assert [w][..0] == [];
    }

    lemma FailuresAreNoCreate(inp: Inputs, shoot: Shoot, spec: Config.Pack, asset: Assets.Pack, e: Error)
      requires FailsToRender(inp, shoot, spec, asset, e)
      ensures !e.CreateFailed? && !e.DeleteFailed? && !e.ClusterUnavailable?
    {
      hide EnumeratesAll, WriteAll, KustomizationOf, PackWrites, Registered;
      if exists orders ::
          && EnumeratesAll(orders, inp.namespace, inp.secrets, spec.patches)
          && Content(inp.tools, inp.collection.files, shoot, inp.namespace, inp.secrets, spec, asset, orders) == Err(e) {
        var orders :|
          && EnumeratesAll(orders, inp.namespace, inp.secrets, spec.patches)
          && Content(inp.tools, inp.collection.files, shoot, inp.namespace, inp.secrets, spec, asset, orders) == Err(e);
        assert PrepareError(inp.collection.files, shoot, inp.namespace, inp.secrets, spec, asset).Some? ==>
            e.UnreadableResource? || e.UnknownRef? || e.SecretUnavailable?;
      }
    }

    method IsConfigured(enabled: seq<Config.Pack>, pack: Assets.Pack) returns (found: bool)
      ensures found == IsEnabled(enabled, pack)
    {
      for i := 0 to |enabled|
        invariant forall j | 0 <= j < i :: enabled[j].name != pack.name || enabled[j].version != pack.version
      {
        if enabled[i].name == pack.name && enabled[i].version == pack.version {
          return true;
        }
      }
      return false;
    }

    /** Deletes the ManagedResources of the listed packs, up to the first failure. */
    method DeleteAll(ns: string, packs: seq<Config.Pack>)
      returns (err: Option<Error>, ghost writes: seq<Write>, ghost failed: seq<Call>)
      modifies client`objects, client`failed
      ensures client.objects == Replay(old(client.objects), writes)
      ensures match err
              case None => writes == RemoveWrites(ns, packs)
              case Some(DeleteFailed(key)) => StopsAt(RemoveWrites(ns, packs), writes, key)
              case Some(_) => false
      ensures client.failed == old(client.failed) + failed
      ensures failed == if err.None? then [] else [Call.Delete(err.value.key)]
    {
      hide Replay, KeyFor;
      writes, failed := [], [];
      EmptyTail(client.failed);
      ghost var removes := RemoveWrites(ns, packs);
      ReplayNone(client.objects);
      for i := 0 to |packs|
        invariant writes == removes[..i]
        invariant client.failed == old(client.failed)
        invariant client.objects == Replay(old(client.objects), writes)
      {
        var key := KeyFor(ns, packs[i].name);
        var reply;
        ghost var effective;
        reply, effective := client.DeleteForShoot(key);
        ReplayAppend(old(client.objects), writes, Remove(key));
        assert removes[i] == Remove(key) && removes[..i + 1] == removes[..i] + [Remove(key)];
        if effective {
          writes := writes + [Remove(key)];
        }
        if IsError(reply) {
          return Some(DeleteFailed(key)), writes, [Call.Delete(key)];
        }
      }
      assert removes[..|packs|] == removes;
      return None, writes, [];
    }

    lemma NothingApplied(ns: string, packs: seq<Config.Pack>)
      ensures packs[..0] == [] && ApplyWrites(ns, packs, []) == []
    {
    }

    lemma ApplyWritesAppend(ns: string, packs: seq<Config.Pack>, contents: seq<Data>, data: Data)
      requires |contents| < |packs|
      ensures var next := ApplyWrites(ns, packs, contents + [data]);
              && next == ApplyWrites(ns, packs, contents) + [Apply(KeyFor(ns, packs[|contents|].name), data)]
              && next[..|next| - 1] == ApplyWrites(ns, packs, contents)
    {
      hide KeyFor;
    }

    lemma StopsBeforeCreate(inp: Inputs, shoot: Shoot, packs: seq<Config.Pack>, contents: seq<Data>, e: Error)
      requires |contents| < |packs| && CanFail(inp, shoot, packs[|contents|], e)
      requires forall k | 0 <= k < |contents| :: CanRender(inp, shoot, packs[k], contents[k])
      requires !e.CreateFailed? && !e.DeleteFailed?
      ensures Executes(inp, shoot, packs, contents, ApplyWrites(inp.namespace, packs, contents), Some(e))
    {
    }

    lemma StopsAtCreate(inp: Inputs, shoot: Shoot, packs: seq<Config.Pack>, contents: seq<Data>, writes: seq<Write>)
      requires 0 < |contents| <= |packs|
      requires forall k | 0 <= k < |contents| :: CanRender(inp, shoot, packs[k], contents[k])
      requires var applies := ApplyWrites(inp.namespace, packs, contents);
               writes == applies || writes == applies[..|applies| - 1]
      ensures Executes(inp, shoot, packs, contents, writes,
                       Some(CreateFailed(KeyFor(inp.namespace, packs[|contents| - 1].name))))
    {
    }

    /** The first loop of Reconcile, for one configured pack. */
    method ApplyOne(ns: string, shoot: Shoot, spec: Config.Pack, ghost inp: Inputs)
      returns (err: Option<Error>, ghost rendered: Option<Data>, ghost writes: seq<Write>, ghost failed: seq<Call>)
      requires inp.tools == tools && inp.collection == collection && inp.namespace == ns && inp.secrets == client.secrets
      modifies client`objects, client`failed
      ensures client.objects == Replay(old(client.objects), writes)
      ensures client.failed == old(client.failed) + failed && Blames(ns, Some(shoot), client.secrets, err, failed)
      ensures rendered.Some? ==> CanRender(inp, shoot, spec, rendered.value)
      ensures match err
              case None => rendered.Some? && writes == [Apply(KeyFor(ns, spec.name), rendered.value)]
              case Some(CreateFailed(key)) =>
                && rendered.Some? && key == KeyFor(ns, spec.name)
                && (writes == [] || writes == [Apply(key, rendered.value)])
              case Some(e) => rendered.None? && writes == [] && CanFail(inp, shoot, spec, e)
                              && !e.DeleteFailed? && !e.ClusterUnavailable?
    {
      hide Replay, KeyFor, RendersTo, FailsToRender;
      ReplayNone(client.objects);
      EmptyTail(client.failed);
      Assets.ExistsIffGet(collection.packs, spec.name, spec.version);
      if !Assets.PackExists(collection.packs, spec.name, spec.version) {
        return Some(UnknownPack(spec.name, spec.version)), None, [], [];
      }
      var asset := Assets.GetPack(collection.packs, spec.name, spec.version);
      err, rendered, writes, failed := ReconcilePack(ns, shoot, spec, asset.value, inp);
      if err.Some? && !err.value.CreateFailed? {
        FailuresAreNoCreate(inp, shoot, spec, asset.value, err.value);
      }
    }

    /** Applies the configured packs one after the other. */
    method ApplyAll(ns: string, shoot: Shoot, packs: seq<Config.Pack>, ghost inp: Inputs)
      returns (err: Option<Error>, enabled: seq<Config.Pack>, ghost contents: seq<Data>, ghost writes: seq<Write>,
               ghost failed: seq<Call>)
      requires inp.tools == tools && inp.collection == collection && inp.namespace == ns && inp.secrets == client.secrets
      modifies client`objects, client`failed
      ensures client.objects == Replay(old(client.objects), writes)
      ensures client.failed == old(client.failed) + failed && Blames(ns, Some(shoot), client.secrets, err, failed)
      ensures err.None? ==>
                && enabled == packs && |contents| == |packs|
                && writes == ApplyWrites(ns, packs, contents)
                && (forall i | 0 <= i < |contents| :: CanRender(inp, shoot, packs[i], contents[i]))
      ensures err.Some? ==> !err.value.DeleteFailed? && !err.value.ClusterUnavailable?
                            && Executes(inp, shoot, packs, contents, writes, err)
    {
      hide Replay, KeyFor, CanRender, CanFail, ApplyWrites, Executes;
      enabled, contents, writes, failed := [], [], [], [];
      EmptyTail(client.failed);
      ReplayNone(client.objects);
      NothingApplied(ns, packs);
      for i := 0 to |packs|
        invariant enabled == packs[..i] && client.failed == old(client.failed) && failed == []
        invariant |contents| == i && writes == ApplyWrites(ns, packs, contents)
        invariant forall k | 0 <= k < i :: CanRender(inp, shoot, packs[k], contents[k])
        invariant client.objects == Replay(old(client.objects), writes)
      {
        var spec := packs[i];
        var packErr;
        ghost var rendered, packWrites;
        packErr, rendered, packWrites, failed := ApplyOne(ns, shoot, spec, inp);
        ReplayConcat(old(client.objects), writes, packWrites);
        EmptyTail(writes);
        writes := writes + packWrites;
        if rendered.Some? {
          ApplyWritesAppend(ns, packs, contents, rendered.value);
          contents := contents + [rendered.value];
        }
        if packErr.Some? {
          if rendered.Some? {
            StopsAtCreate(inp, shoot, packs, contents, writes);
          } else {
            StopsBeforeCreate(inp, shoot, packs, contents, packErr.value);
          }
          return packErr, enabled, contents, writes, failed;
        }
        enabled := enabled + [spec];
      }
      assert packs[..|packs|] == packs;
      return None, enabled, contents, writes, failed;
    }

    method Reconcile(ex: Extension)
      returns (err: Option<Error>, ghost contents: seq<Data>, ghost writes: seq<Write>, ghost failed: seq<Call>)
      modifies client`objects, client`failed
      ensures client.objects == Replay(old(client.objects), writes)
      ensures Reconciles(InputsFor(ex), contents, writes, err)
      ensures client.failed == old(client.failed) + failed && Blames(ex.namespace, InputsFor(ex).cluster, client.secrets, err, failed)
    {
      hide Replay, KeyFor, Disabled, CanRender, CanFail, Config.Errors;
      contents, writes, failed := [], [], [];
      EmptyTail(client.failed);
      ReplayNone(client.objects);
      ghost var inp := InputsFor(ex);
      var cluster := client.GetCluster(ex.namespace);
      if cluster.None? {
        failed := client.failed[|old(client.failed)|..];
        return Some(ClusterUnavailable), contents, writes, failed;
      }
      // Nothing to do while the shoot is hibernated.
      if cluster.value.hibernated {
        return None, contents, writes, failed;
      }
      if ex.providerConfig.None? {
        return Some(NoProviderConfig), contents, writes, failed;
      }
      var cfg := tools.decode(ex.providerConfig.value);
      if cfg.None? {
        return Some(DecodeFailed), contents, writes, failed;
      }
      var errs := Config.Validate(cfg.value);
      if errs != [] {
        return Some(InvalidConfig(errs)), contents, writes, failed;
      }
      assert Configured(tools, ex.providerConfig) == Ok(cfg.value.packs);

      var enabledPacks;
      err, enabledPacks, contents, writes, failed := ApplyAll(ex.namespace, cluster.value, cfg.value.packs, inp);
      if err.Some? {
        return;
      }
      var disabledPacks := DisabledPacks(enabledPacks);
      ghost var applied, removed := writes, [];
      err, removed, failed := DeleteAll(ex.namespace, disabledPacks);
      writes := applied + removed;
      ReplayConcat(old(client.objects), applied, removed);
      assert writes[|applied|..] == removed;
    }

    method DisabledPacks(enabledPacks: seq<Config.Pack>) returns (disabledPacks: seq<Config.Pack>)
      ensures disabledPacks == Disabled(collection.packs, enabledPacks)
    {
      disabledPacks := [];
      for i := 0 to |collection.packs|
        invariant disabledPacks == Disabled(collection.packs[..i], enabledPacks)
      {
        var pack := collection.packs[i];
        assert collection.packs[..i + 1][..i] == collection.packs[..i];
        var configured := IsConfigured(enabledPacks, pack);
        AppendFlag(disabledPacks, !configured, AsSpec(pack));
        if !configured {
          disabledPacks := disabledPacks + [Config.Pack(pack.name, pack.version, [])];
        }
      }
      assert collection.packs[..|collection.packs|] == collection.packs;
    }

    method Delete(ex: Extension) returns (err: Option<Error>, ghost writes: seq<Write>, ghost failed: seq<Call>)
      modifies client`objects, client`failed
      ensures client.objects == Replay(old(client.objects), writes)
      ensures Deletes(InputsFor(ex), writes, err)
      ensures client.failed == old(client.failed) + failed && Blames(ex.namespace, InputsFor(ex).cluster, client.secrets, err, failed)
    {
      err, writes, failed := DeleteAll(ex.namespace, AllSpecs(collection.packs));
    }

    method ForceDelete(ex: Extension) returns (err: Option<Error>, ghost writes: seq<Write>, ghost failed: seq<Call>)
      modifies client`objects, client`failed
      ensures client.objects == Replay(old(client.objects), writes)
      ensures Deletes(InputsFor(ex), writes, err)
      ensures client.failed == old(client.failed) + failed && Blames(ex.namespace, InputsFor(ex).cluster, client.secrets, err, failed)
    {
      err, writes, failed := Delete(ex);
    }

    method Restore(ex: Extension)
      returns (err: Option<Error>, ghost contents: seq<Data>, ghost writes: seq<Write>, ghost failed: seq<Call>)
      modifies client`objects, client`failed
      ensures client.objects == Replay(old(client.objects), writes)
      ensures Reconciles(InputsFor(ex), contents, writes, err)
      ensures client.failed == old(client.failed) + failed && Blames(ex.namespace, InputsFor(ex).cluster, client.secrets, err, failed)
    {
      err, contents, writes, failed := Reconcile(ex);
    }

    method Migrate(ex: Extension)
      returns (err: Option<Error>, ghost contents: seq<Data>, ghost writes: seq<Write>, ghost failed: seq<Call>)
      modifies client`objects, client`failed
      ensures client.objects == Replay(old(client.objects), writes)
      ensures Reconciles(InputsFor(ex), contents, writes, err)
      ensures client.failed == old(client.failed) + failed && Blames(ex.namespace, InputsFor(ex).cluster, client.secrets, err, failed)
    {
      err, contents, writes, failed := Reconcile(ex);
    }
  }
}
