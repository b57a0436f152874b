/** No patch or resource is lost, and the iteration order of secrets does not reach the files. */
module PatchFiles {
  import opened Text
  import opened Collections
  import Config
  import Assets
  import opened Shoots
  import opened Rendering

  // ----- iteration order and the written files -----

  /** The files of one secret, whatever order it is iterated in. */
  ghost function GroupFiles(base: string, ref: string, data: SecretData): map<string, string> {
    map k | k in data :: PatchPath(base, SecretName(ref), k) := (
      PathOfKey(base, ref, data);
      data[k])
  }

  lemma PathOfKey(base: string, ref: string, data: SecretData)
    ensures forall k1, k2 | k1 in data && k2 in data
                            && PatchPath(base, SecretName(ref), k1) == PatchPath(base, SecretName(ref), k2) :: k1 == k2
  {
    forall k1, k2 | k1 in data && k2 in data
                    && PatchPath(base, SecretName(ref), k1) == PatchPath(base, SecretName(ref), k2)
      ensures k1 == k2
    {
      PatchPathInjective(base, SecretName(ref), k1, k2);
    }
  }

  lemma GroupFilesAdd(base: string, ref: string, data: SecretData, key: string, value: string)
    requires key in data ==> data[key] == value
    ensures GroupFiles(base, ref, data[key := value])
            == GroupFiles(base, ref, data)[PatchPath(base, SecretName(ref), key) := value]
  {
    hide PatchPath;
    PathOfKey(base, ref, data[key := value]);
    var path := PatchPath(base, SecretName(ref), key);
    var all := GroupFiles(base, ref, data[key := value]);
    assert key in data[key := value];
    assert path in all;
    assert forall k | k in data :: k in data[key := value] && PatchPath(base, SecretName(ref), k) in all;
  }

  lemma {:induction false} GroupWritten(files: map<string, string>, base: string, ref: string, data: SecretData,
                                        order: seq<string>)
    requires forall k | k in order :: k in data
    ensures WriteAll(files, GroupWrites(base, ref, data, order))
            == files + GroupFiles(base, ref, Restrict(data, order))
  {
    if order == [] {
      assert Restrict(data, order) == map[];
      assert GroupFiles(base, ref, map[]) == map[];
      assert GroupWrites(base, ref, data, order) == [];
    } else {
      var init, last := order[..|order| - 1], order[|order| - 1];
      hide WriteAll, GroupFiles, PatchPath;
      GroupWritten(files, base, ref, data, init);
      var w := FileWrite(PatchPath(base, SecretName(ref), last), data[last]);
      assert GroupWrites(base, ref, data, order) == GroupWrites(base, ref, data, init) + [w];
      WriteAppend(files, GroupWrites(base, ref, data, init), w);
      RestrictAppend(data, order);
      OverrideOne(Restrict(data, init), last, data[last]);
      GroupFilesAdd(base, ref, Restrict(data, init), last, data[last]);
      OverrideUpdate(files, GroupFiles(base, ref, Restrict(data, init)), w.path, w.data);
    }
  }

  lemma RestrictAll<K, V>(m: map<K, V>, keys: seq<K>)
    requires forall k :: k in keys <==> k in m
    ensures Restrict(m, keys) == m
  {
  }

  /** Whatever order the keys of each secret come in, the same files are written. */
  lemma {:induction false} PatchFilesOrderFree(files: map<string, string>, base: string, ns: string, secrets: Secrets,
                                               patches: seq<Config.PatchSpec>,
                                               o1: seq<seq<string>>, o2: seq<seq<string>>)
    requires EnumeratesAll(o1, ns, secrets, patches) && EnumeratesAll(o2, ns, secrets, patches)
    ensures WriteAll(files, PatchWrites(base, ns, secrets, patches, o1))
            == WriteAll(files, PatchWrites(base, ns, secrets, patches, o2))
  {
    if patches != [] {
      var n := |patches| - 1;
      var ref := patches[n].resourceRef;
      var data := SecretOf(secrets, ns, ref);
      PatchFilesOrderFree(files, base, ns, secrets, patches[..n], o1[..n], o2[..n]);
      hide WriteAll, GroupFiles, GroupWrites, SecretOf;
      var before := WriteAll(files, PatchWrites(base, ns, secrets, patches[..n], o1[..n]));
      WriteConcat(files, PatchWrites(base, ns, secrets, patches[..n], o1[..n]), GroupWrites(base, ref, data, o1[n]));
      WriteConcat(files, PatchWrites(base, ns, secrets, patches[..n], o2[..n]), GroupWrites(base, ref, data, o2[n]));
      GroupWritten(before, base, ref, data, o1[n]);
      GroupWritten(before, base, ref, data, o2[n]);
      RestrictAll(data, o1[n]);
      RestrictAll(data, o2[n]);
    }
  }

  /**
   Two runs that iterate the secrets in different orders write the same files, except that the
   kustomization files may list the patches of one specification in different orders.
   */
  lemma FilesOrderFree(files: Assets.Files, ns: string, secrets: Secrets, spec: Config.Pack, asset: Assets.Pack,
                       o1: seq<seq<string>>, o2: seq<seq<string>>, k1: string, k2: string)
    requires FirstUnreadable(files, asset.resources).None?
    requires EnumeratesAll(o1, ns, secrets, spec.patches) && EnumeratesAll(o2, ns, secrets, spec.patches)
    ensures var path := Join(asset.baseDir, KUSTOMIZATION_FILE);
            WriteAll(map[], PackWrites(files, ns, secrets, spec, asset, o1, k1)) - {path}
            == WriteAll(map[], PackWrites(files, ns, secrets, spec, asset, o2, k2)) - {path}
  {
    hide WriteAll, PatchWrites, ResourceWrites;
    var path := Join(asset.baseDir, KUSTOMIZATION_FILE);
    var resources := ResourceWrites(files, asset.resources);
    var p1 := PatchWrites(asset.baseDir, ns, secrets, spec.patches, o1);
    var p2 := PatchWrites(asset.baseDir, ns, secrets, spec.patches, o2);
    PatchFilesOrderFree(WriteAll(map[], resources), asset.baseDir, ns, secrets, spec.patches, o1, o2);
    WriteConcat(map[], resources, p1);
    WriteConcat(map[], resources, p2);
    WriteAppend(map[], resources + p1, FileWrite(path, k1));
    WriteAppend(map[], resources + p2, FileWrite(path, k2));
    WithoutUpdate(WriteAll(map[], resources + p1), path, k1);
    WithoutUpdate(WriteAll(map[], resources + p2), path, k2);
  }

  lemma WithoutUpdate<K, V>(m: map<K, V>, k: K, v: V)
    ensures m[k := v] - {k} == m - {k}
  {
  }

  // ----- iteration order and the list of patches -----

  function TotalKeys(ns: string, secrets: Secrets, patches: seq<Config.PatchSpec>): nat {
    if patches == [] then 0
    else
      var n := |patches| - 1;
      TotalKeys(ns, secrets, patches[..n]) + |SecretOf(secrets, ns, patches[n].resourceRef)|
  }

  lemma {:induction false} EnumerationSize(order: seq<string>, data: SecretData)
    requires Enumerates(order, data)
    ensures |order| == |data|
  {
    KeysOfOrder(order);
    assert (set k | k in order) == data.Keys;
  }

  lemma {:induction false} KeysOfOrder<T>(order: seq<T>)
    requires Assets.Distinct(order)
    ensures |set k | k in order| == |order|
  {
    if order != [] {
      var init, last := order[..|order| - 1], order[|order| - 1];
      KeysOfOrder(init);
      SplitLast([], order);
      assert (set k | k in order) == (set k | k in init) + {last};
      SizeOfAdd((set k | k in init), last);
    }
  }

  /** Two enumerations of one secret list the same patches. */
  lemma GroupPermuted(p: Config.PatchSpec, data: SecretData, o1: seq<string>, o2: seq<string>)
    requires Enumerates(o1, data) && Enumerates(o2, data)
    ensures multiset(GroupEntries(p, o1)) == multiset(GroupEntries(p, o2))
  {
    MultisetOfDistinct(o1, o2);
    var entry := (k: string) => Patch(PatchFile(SecretName(p.resourceRef), k), p.target);
    MappedPermutation(entry, o1, o2);
    assert GroupEntries(p, o1) == Mapped(entry, o1);
    assert GroupEntries(p, o2) == Mapped(entry, o2);
  }

  lemma {:induction false} MultisetOfDistinct<T>(a: seq<T>, b: seq<T>)
    requires Assets.Distinct(a) && Assets.Distinct(b)
    requires forall x :: x in a <==> x in b
    ensures multiset(a) == multiset(b)
  {
    forall x ensures multiset(a)[x] == multiset(b)[x] {
      OnceIn(a, x);
      OnceIn(b, x);
    }
  }

  lemma {:induction false} OnceIn<T>(s: seq<T>, x: T)
    requires Assets.Distinct(s)
    ensures multiset(s)[x] == if x in s then 1 else 0
  {
    if s != [] {
      SplitLast([], s);
      OnceIn(s[..|s| - 1], x);
    }
  }

  /**
   The patch list has one entry for each key of each used secret, the specifications in the order
   of the configuration; only within one specification may two runs order the entries differently.
   */
  lemma {:induction false} PatchListShape(ns: string, secrets: Secrets, patches: seq<Config.PatchSpec>,
                                          o1: seq<seq<string>>, o2: seq<seq<string>>, n: nat)
    requires EnumeratesAll(o1, ns, secrets, patches) && EnumeratesAll(o2, ns, secrets, patches)
    requires n <= |patches|
    ensures PatchEntries(patches[..n], o1[..n]) <= PatchEntries(patches, o1)
    ensures |PatchEntries(patches[..n], o1[..n])| == TotalKeys(ns, secrets, patches[..n])
    ensures multiset(PatchEntries(patches[..n], o1[..n])) == multiset(PatchEntries(patches[..n], o2[..n]))
    decreases |patches| + n
  {
    PatchListPrefix(patches, o1, n);
    hide SecretOf, GroupEntries;
    if n > 0 {
      PatchListShape(ns, secrets, patches, o1, o2, n - 1);
      assert patches[..n][..n - 1] == patches[..n - 1];
      assert o1[..n][..n - 1] == o1[..n - 1] && o2[..n][..n - 1] == o2[..n - 1];
      EnumerationSize(o1[n - 1], SecretOf(secrets, ns, patches[n - 1].resourceRef));
      GroupPermuted(patches[n - 1], SecretOf(secrets, ns, patches[n - 1].resourceRef), o1[n - 1], o2[n - 1]);
      GroupSize(patches[n - 1], o1[n - 1]);
    }
  }

  lemma GroupSize(p: Config.PatchSpec, order: seq<string>)
    ensures |GroupEntries(p, order)| == |order|
  {
  }

  lemma {:induction false} PatchListPrefix(patches: seq<Config.PatchSpec>, orders: seq<seq<string>>, n: nat)
    requires n <= |patches| == |orders|
    ensures PatchEntries(patches[..n], orders[..n]) <= PatchEntries(patches, orders)
    decreases |patches|
  {
    if n == |patches| {
      assert patches[..n] == patches && orders[..n] == orders;
    } else {
      var m := |patches| - 1;
      PatchListPrefix(patches[..m], orders[..m], n);
      assert patches[..m][..n] == patches[..n] && orders[..m][..n] == orders[..n];
    }
  }

  // ----- nothing is lost -----

  /** Is the given data what the file system has at the path? */
  predicate Resolves(files: map<string, string>, path: string, data: string) {
    path in files && files[path] == data
  }

  /** The patch specification and the secret key that a write comes from. */
  lemma {:induction false} OriginOfWrite(base: string, ns: string, secrets: Secrets, patches: seq<Config.PatchSpec>,
                                         orders: seq<seq<string>>, i: nat)
    returns (p: nat, key: string)
    requires EnumeratesAll(orders, ns, secrets, patches)
    requires i < |PatchWrites(base, ns, secrets, patches, orders)|
    ensures p < |patches| && key in SecretOf(secrets, ns, patches[p].resourceRef)
    ensures PatchWrites(base, ns, secrets, patches, orders)[i]
            == FileWrite(PatchPath(base, SecretName(patches[p].resourceRef), key),
                         SecretOf(secrets, ns, patches[p].resourceRef)[key])
    ensures |PatchEntries(patches, orders)| == |PatchWrites(base, ns, secrets, patches, orders)|
    ensures PatchEntries(patches, orders)[i] == Patch(PatchFile(SecretName(patches[p].resourceRef), key), patches[p].target)
  {
    hide SecretOf, PatchPath, PatchFile;
    EntriesMatchWrites(base, ns, secrets, patches, orders);
    var n := |patches| - 1;
    var before := PatchWrites(base, ns, secrets, patches[..n], orders[..n]);
    EntriesMatchWrites(base, ns, secrets, patches[..n], orders[..n]);
    if i < |before| {
      p, key := OriginOfWrite(base, ns, secrets, patches[..n], orders[..n], i);
    } else {
      p, key := n, orders[n][i - |before|];
      assert key in orders[n];
    }
  }

  lemma {:induction false} EntriesMatchWrites(base: string, ns: string, secrets: Secrets,
                                              patches: seq<Config.PatchSpec>, orders: seq<seq<string>>)
    requires EnumeratesAll(orders, ns, secrets, patches)
    ensures |PatchEntries(patches, orders)| == |PatchWrites(base, ns, secrets, patches, orders)|
  {
    if patches != [] {
      var n := |patches| - 1;
      EntriesMatchWrites(base, ns, secrets, patches[..n], orders[..n]);
    }
  }

  /** Every key of every used secret is written. */
  lemma {:induction false} WriteOfKey(base: string, ns: string, secrets: Secrets, patches: seq<Config.PatchSpec>,
                                      orders: seq<seq<string>>, p: nat, key: string)
    returns (i: nat)
    requires EnumeratesAll(orders, ns, secrets, patches)
    requires p < |patches| && key in SecretOf(secrets, ns, patches[p].resourceRef)
    ensures i < |PatchWrites(base, ns, secrets, patches, orders)|
    ensures PatchWrites(base, ns, secrets, patches, orders)[i]
            == FileWrite(PatchPath(base, SecretName(patches[p].resourceRef), key),
                         SecretOf(secrets, ns, patches[p].resourceRef)[key])
  {
    hide SecretOf, PatchPath;
    var n := |patches| - 1;
    var before := PatchWrites(base, ns, secrets, patches[..n], orders[..n]);
    if p < n {
      i := WriteOfKey(base, ns, secrets, patches[..n], orders[..n], p, key);
    } else {
      assert key in orders[n];
      var k: nat :| k < |orders[n]| && orders[n][k] == key;
      i := |before| + k;
    }
  }

  /** Any two keys of used secrets that get one file name hold the same bytes. */
  ghost predicate NoClash(ns: string, secrets: Secrets, patches: seq<Config.PatchSpec>) {
    forall p, q, k1, k2 | 0 <= p < |patches| && 0 <= q < |patches|
                          && k1 in SecretOf(secrets, ns, patches[p].resourceRef)
                          && k2 in SecretOf(secrets, ns, patches[q].resourceRef)
                          && PatchFile(SecretName(patches[p].resourceRef), k1)
                             == PatchFile(SecretName(patches[q].resourceRef), k2) ::
      SecretOf(secrets, ns, patches[p].resourceRef)[k1] == SecretOf(secrets, ns, patches[q].resourceRef)[k2]
  }

  /** No patch overwrites another one exactly when there is no clash of generated names. */
  lemma PatchesAgreeIff(base: string, ns: string, secrets: Secrets, patches: seq<Config.PatchSpec>,
                        orders: seq<seq<string>>)
    requires EnumeratesAll(orders, ns, secrets, patches)
    ensures Agreeing(PatchWrites(base, ns, secrets, patches, orders)) <==> NoClash(ns, secrets, patches)
  {
    hide SecretOf, PatchPath, PatchFile, PatchWrites;
    var writes := PatchWrites(base, ns, secrets, patches, orders);
    if NoClash(ns, secrets, patches) {
      forall i: nat, j: nat | i < j < |writes| && writes[i].path == writes[j].path
        ensures writes[i].data == writes[j].data
      {
        var p, k1 := OriginOfWrite(base, ns, secrets, patches, orders, i);
        var q, k2 := OriginOfWrite(base, ns, secrets, patches, orders, j);
        PatchPathIsFile(base, SecretName(patches[p].resourceRef), k1, SecretName(patches[q].resourceRef), k2);
      }
    }
    if Agreeing(writes) {
      forall p: nat, q: nat, k1, k2 | p < |patches| && q < |patches|
                            && k1 in SecretOf(secrets, ns, patches[p].resourceRef)
                            && k2 in SecretOf(secrets, ns, patches[q].resourceRef)
                            && PatchFile(SecretName(patches[p].resourceRef), k1)
                               == PatchFile(SecretName(patches[q].resourceRef), k2)
        ensures SecretOf(secrets, ns, patches[p].resourceRef)[k1] == SecretOf(secrets, ns, patches[q].resourceRef)[k2]
      {
        var i := WriteOfKey(base, ns, secrets, patches, orders, p, k1);
        var j := WriteOfKey(base, ns, secrets, patches, orders, q, k2);
        PatchPathIsFile(base, SecretName(patches[p].resourceRef), k1, SecretName(patches[q].resourceRef), k2);
      }
    }
  }

  /** No used secret is named like another one extended by a dash. */
  predicate NoDashExtension(patches: seq<Config.PatchSpec>) {
    forall i, j | 0 <= i < |patches| && 0 <= j < |patches| ::
      !(SecretName(patches[i].resourceRef) + "-" <= SecretName(patches[j].resourceRef))
  }

  lemma NoDashExtensionNoClash(ns: string, secrets: Secrets, patches: seq<Config.PatchSpec>)
    requires NoDashExtension(patches)
    ensures NoClash(ns, secrets, patches)
  {
    hide PatchFile;
    forall p, q, k1, k2 | 0 <= p < |patches| && 0 <= q < |patches|
                          && k1 in SecretOf(secrets, ns, patches[p].resourceRef)
                          && k2 in SecretOf(secrets, ns, patches[q].resourceRef)
                          && PatchFile(SecretName(patches[p].resourceRef), k1)
                             == PatchFile(SecretName(patches[q].resourceRef), k2)
      ensures SecretOf(secrets, ns, patches[p].resourceRef)[k1] == SecretOf(secrets, ns, patches[q].resourceRef)[k2]
    {
      NoCollision(SecretName(patches[p].resourceRef), k1, SecretName(patches[q].resourceRef), k2);
    }
  }

  /** Two patches whose secrets are named alike up to a dash and an extension. */
  function ClashingPatches(ref: string, ext: string, target: Config.Target): seq<Config.PatchSpec> {
    [Config.PatchSpec(ref, target), Config.PatchSpec(ref + "-" + ext, target)]
  }

  /** Their secrets, where the key of the first completes the name of the second. */
  function ClashingSecrets(ns: string, ref: string, ext: string, key: string, d1: string, d2: string): Secrets {
    map[ObjectKey(ns, SecretName(ref)) := map[ext + "-" + key := d1],
        ObjectKey(ns, SecretName(ref + "-" + ext)) := map[key := d2]]
  }

  lemma ClashingData(ns: string, ref: string, ext: string, key: string, d1: string, d2: string)
    ensures var secrets := ClashingSecrets(ns, ref, ext, key, d1, d2);
            && SecretOf(secrets, ns, ref) == map[ext + "-" + key := d1]
            && SecretOf(secrets, ns, ref + "-" + ext) == map[key := d2]
    ensures PatchFile(SecretName(ref), ext + "-" + key) == PatchFile(SecretName(ref + "-" + ext), key)
  {
    var s1, s2 := SecretName(ref), SecretName(ref + "-" + ext);
    assert |s1| < |s2|;
    assert s2[..|s1| + 1] == s1 + "-";
    assert s2[|s1| + 1..] == ext;
    CollisionIff(s1, ext + "-" + key, s2, key);
  }

  /**
   The hypothesis is needed. Whatever the pack, when the key of one secret completes the name of
   the other, the file that the kustomization lists for the first patch holds the second one.
   */
  lemma DashExtensionLosesPatch(files: Assets.Files, ns: string, spec: Config.Pack, asset: Assets.Pack,
                                orders: seq<seq<string>>, kustomization: string,
                                ref: string, ext: string, key: string, d1: string, d2: string, target: Config.Target)
    requires FirstUnreadable(files, asset.resources).None?
    requires spec.patches == ClashingPatches(ref, ext, target)
    requires EnumeratesAll(orders, ns, ClashingSecrets(ns, ref, ext, key, d1, d2), spec.patches)
    ensures var final := WriteAll(map[], PackWrites(files, ns, ClashingSecrets(ns, ref, ext, key, d1, d2), spec, asset,
                                                    orders, kustomization));
            && Resolves(final, PatchPath(asset.baseDir, SecretName(ref), ext + "-" + key), d2)
            && (d1 != d2 ==> !Resolves(final, PatchPath(asset.baseDir, SecretName(ref), ext + "-" + key), d1))
  {
    hide SecretName, PatchFile, SecretOf, ClashingSecrets, WriteAll, PatchWrites, ResourceWrites;
    var secrets, base := ClashingSecrets(ns, ref, ext, key, d1, d2), asset.baseDir;
    ClashingData(ns, ref, ext, key, d1, d2);
    PatchPathIsFile(base, SecretName(ref), ext + "-" + key, SecretName(ref + "-" + ext), key);
    var writes := PatchWrites(base, ns, secrets, spec.patches, orders);
    var w := FileWrite(PatchPath(base, SecretName(ref + "-" + ext), key), d2);
    LastGroup(base, ns, secrets, spec.patches, orders, key);
    var all := ContentWrites(files, ns, secrets, spec, asset, orders);
    SplitLast(ResourceWrites(files, asset.resources), writes);
    WriteAppend(map[], all[..|all| - 1], w);
    assert all == all[..|all| - 1] + [w];
    NotTheKustomization(base, SecretName(ref + "-" + ext), key);
    WriteAppend(map[], all, FileWrite(Join(base, KUSTOMIZATION_FILE), kustomization));
  }

  /** When the last secret has one key, its patch is written last. */
  lemma LastGroup(base: string, ns: string, secrets: Secrets, patches: seq<Config.PatchSpec>,
                  orders: seq<seq<string>>, key: string)
    requires EnumeratesAll(orders, ns, secrets, patches) && patches != []
    requires SecretOf(secrets, ns, patches[|patches| - 1].resourceRef).Keys == {key}
    ensures var writes := PatchWrites(base, ns, secrets, patches, orders);
            var ref := patches[|patches| - 1].resourceRef;
            && writes != []
            && writes[|writes| - 1] == FileWrite(PatchPath(base, SecretName(ref), key), SecretOf(secrets, ns, ref)[key])
  {
    hide SecretOf, PatchPath, SecretName;
    var n := |patches| - 1;
    var data := SecretOf(secrets, ns, patches[n].resourceRef);
    OnlyKey(orders[n], data, key);
    var group := GroupWrites(base, patches[n].resourceRef, data, orders[n]);
    assert |group| == 1 && group[0] == FileWrite(PatchPath(base, SecretName(patches[n].resourceRef), key), data[key]);
  }

  lemma OnlyKey(order: seq<string>, data: SecretData, key: string)
    requires Enumerates(order, data) && data.Keys == {key}
    ensures order == [key]
  {
    EnumerationSize(order, data);
    assert |data| == |data.Keys| == 1;
    assert order[0] in order;
  }

  /** Resources lie directly in the pack directory, under names that are generated for nothing else. */
  ghost predicate SeparateResources(asset: Assets.Pack, ns: string, secrets: Secrets, patches: seq<Config.PatchSpec>) {
    && (forall i, j | 0 <= i < j < |asset.resources| :: asset.resources[i].path != asset.resources[j].path)
    && (forall r | r in asset.resources ::
          && r.path == Join(asset.baseDir, Base(r.path))
          && Base(r.path) != KUSTOMIZATION_FILE
          && forall p, key | 0 <= p < |patches| && key in SecretOf(secrets, ns, patches[p].resourceRef) ::
               Base(r.path) != PatchFile(SecretName(patches[p].resourceRef), key))
  }

  lemma {:induction false} WritesAgree(files: Assets.Files, ns: string, secrets: Secrets, spec: Config.Pack,
                                       asset: Assets.Pack, orders: seq<seq<string>>, kustomization: string)
    requires FirstUnreadable(files, asset.resources).None?
    requires EnumeratesAll(orders, ns, secrets, spec.patches)
    requires SeparateResources(asset, ns, secrets, spec.patches) && NoClash(ns, secrets, spec.patches)
    ensures Agreeing(PackWrites(files, ns, secrets, spec, asset, orders, kustomization))
  {
    hide SecretOf, PatchFile, PatchWrites, Base, Join, NoClash;
    var base, resources := asset.baseDir, asset.resources;
    var rs := ResourceWrites(files, resources);
    var ps := PatchWrites(base, ns, secrets, spec.patches, orders);
    var kPath := Join(base, KUSTOMIZATION_FILE);
    PatchesAgreeIff(base, ns, secrets, spec.patches, orders);
    forall i: nat | i < |rs| ensures rs[i].path != kPath {
      assert resources[i] in resources;
      if rs[i].path == kPath { JoinInjective(base, Base(resources[i].path), KUSTOMIZATION_FILE); }
    }
    forall j: nat | j < |ps| ensures ps[j].path != kPath {
      var q, key := OriginOfWrite(base, ns, secrets, spec.patches, orders, j);
      NotTheKustomization(base, SecretName(spec.patches[q].resourceRef), key);
    }
    forall i: nat, j: nat | i < |rs| && j < |ps| ensures rs[i].path != ps[j].path {
      var q, key := OriginOfWrite(base, ns, secrets, spec.patches, orders, j);
      assert resources[i] in resources;
      OtherName(base, Base(resources[i].path), SecretName(spec.patches[q].resourceRef), key);
    }
    AgreeingParts(rs, ps, FileWrite(kPath, kustomization));
  }

  lemma NotTheKustomization(base: string, secret: string, key: string)
    ensures PatchPath(base, secret, key) != Join(base, KUSTOMIZATION_FILE)
  {
    PatchIsNoKustomization(secret, key);
    if PatchPath(base, secret, key) == Join(base, KUSTOMIZATION_FILE) {
      JoinInjective(base, PatchFile(secret, key), KUSTOMIZATION_FILE);
    }
  }

  lemma OtherName(base: string, name: string, secret: string, key: string)
    requires name != PatchFile(secret, key)
    ensures Join(base, name) != PatchPath(base, secret, key)
  {
    if Join(base, name) == PatchPath(base, secret, key) {
      JoinInjective(base, name, PatchFile(secret, key));
    }
  }

  lemma AgreeingParts(a: seq<FileWrite>, b: seq<FileWrite>, c: FileWrite)
    requires forall i, j | 0 <= i < j < |a| :: a[i].path != a[j].path
    requires Agreeing(b)
    requires forall i, j | 0 <= i < |a| && 0 <= j < |b| :: a[i].path != b[j].path
    requires forall i | 0 <= i < |a| :: a[i].path != c.path
    requires forall j | 0 <= j < |b| :: b[j].path != c.path
    ensures Agreeing(a + b + [c])
  {
  }

  /**
   When no generated names clash and resources have names of their own, every listed resource and
   every listed patch resolves to its own bytes, and the kustomization file is in place.
   */
  lemma NothingLost(files: Assets.Files, ns: string, secrets: Secrets, spec: Config.Pack, asset: Assets.Pack,
                    orders: seq<seq<string>>, kustomization: string)
    requires FirstUnreadable(files, asset.resources).None?
    requires EnumeratesAll(orders, ns, secrets, spec.patches)
    requires SeparateResources(asset, ns, secrets, spec.patches) && NoClash(ns, secrets, spec.patches)
    ensures var final := WriteAll(map[], PackWrites(files, ns, secrets, spec, asset, orders, kustomization));
            var k := KustomizationOf(asset, spec.patches, orders);
            && (forall i | 0 <= i < |k.resources| ::
                  Resolves(final, Join(asset.baseDir, k.resources[i]),
                           ResourceWrites(files, asset.resources)[i].data))
            && |k.patches| == |PatchWrites(asset.baseDir, ns, secrets, spec.patches, orders)|
            && (forall i | 0 <= i < |k.patches| ::
                  Resolves(final, Join(asset.baseDir, k.patches[i].path),
                           PatchWrites(asset.baseDir, ns, secrets, spec.patches, orders)[i].data))
            && Resolves(final, Join(asset.baseDir, KUSTOMIZATION_FILE), kustomization)
  {
    hide SecretOf, PatchFile, PatchWrites, Base, Join, NoClash, WriteAll, PatchEntries;
    var writes := PackWrites(files, ns, secrets, spec, asset, orders, kustomization);
    var rs := ResourceWrites(files, asset.resources);
    var ps := PatchWrites(asset.baseDir, ns, secrets, spec.patches, orders);
    var k := KustomizationOf(asset, spec.patches, orders);
    WritesAgree(files, ns, secrets, spec, asset, orders, kustomization);
    AllSurviveIff(map[], writes);
    EntriesMatchWrites(asset.baseDir, ns, secrets, spec.patches, orders);
    forall i: nat | i < |rs| ensures Survives(map[], writes, i) && writes[i] == rs[i]
                                     && rs[i].path == Join(asset.baseDir, k.resources[i]) {
      assert asset.resources[i] in asset.resources;
    }
    forall i: nat | i < |ps| ensures Survives(map[], writes, |rs| + i) && writes[|rs| + i] == ps[i]
                                     && ps[i].path == Join(asset.baseDir, k.patches[i].path) {
      var p, key := OriginOfWrite(asset.baseDir, ns, secrets, spec.patches, orders, i);
    }
    assert Survives(map[], writes, |writes| - 1);
  }

  /**
   In the finished file system, every patch file holds the bytes of its own key exactly when no
   generated names clash.
   */
  lemma PatchesResolveIff(files: Assets.Files, ns: string, secrets: Secrets, spec: Config.Pack, asset: Assets.Pack,
                          orders: seq<seq<string>>, kustomization: string)
    requires FirstUnreadable(files, asset.resources).None?
    requires EnumeratesAll(orders, ns, secrets, spec.patches)
    ensures (forall p: nat, key | p < |spec.patches| && key in SecretOf(secrets, ns, spec.patches[p].resourceRef) ::
               Resolves(WriteAll(map[], PackWrites(files, ns, secrets, spec, asset, orders, kustomization)),
                        PatchPath(asset.baseDir, SecretName(spec.patches[p].resourceRef), key),
                        SecretOf(secrets, ns, spec.patches[p].resourceRef)[key]))
            <==> NoClash(ns, secrets, spec.patches)
  {
    hide SecretOf, PatchPath, PatchFile, SecretName, WriteAll, PackWrites;
    var final := WriteAll(map[], PackWrites(files, ns, secrets, spec, asset, orders, kustomization));
    var patches := spec.patches;
    if NoClash(ns, secrets, patches) {
      forall p: nat, key | p < |patches| && key in SecretOf(secrets, ns, patches[p].resourceRef)
        ensures Resolves(final, PatchPath(asset.baseDir, SecretName(patches[p].resourceRef), key),
                         SecretOf(secrets, ns, patches[p].resourceRef)[key])
      {
        PatchResolves(files, ns, secrets, spec, asset, orders, kustomization, p, key);
      }
    }
    if forall p: nat, key | p < |patches| && key in SecretOf(secrets, ns, patches[p].resourceRef) ::
         Resolves(final, PatchPath(asset.baseDir, SecretName(patches[p].resourceRef), key),
                  SecretOf(secrets, ns, patches[p].resourceRef)[key]) {
      forall p: nat, q: nat, k1, k2 | p < |patches| && q < |patches|
                            && k1 in SecretOf(secrets, ns, patches[p].resourceRef)
                            && k2 in SecretOf(secrets, ns, patches[q].resourceRef)
                            && PatchFile(SecretName(patches[p].resourceRef), k1)
                               == PatchFile(SecretName(patches[q].resourceRef), k2)
        ensures SecretOf(secrets, ns, patches[p].resourceRef)[k1] == SecretOf(secrets, ns, patches[q].resourceRef)[k2]
      {
        PatchPathIsFile(asset.baseDir, SecretName(patches[p].resourceRef), k1, SecretName(patches[q].resourceRef), k2);
        assert Resolves(final, PatchPath(asset.baseDir, SecretName(patches[p].resourceRef), k1),
                        SecretOf(secrets, ns, patches[p].resourceRef)[k1]);
        assert Resolves(final, PatchPath(asset.baseDir, SecretName(patches[q].resourceRef), k2),
                        SecretOf(secrets, ns, patches[q].resourceRef)[k2]);
      }
    }
  }

  lemma PatchResolves(files: Assets.Files, ns: string, secrets: Secrets, spec: Config.Pack, asset: Assets.Pack,
                      orders: seq<seq<string>>, kustomization: string, p: nat, key: string)
    requires FirstUnreadable(files, asset.resources).None?
    requires EnumeratesAll(orders, ns, secrets, spec.patches) && NoClash(ns, secrets, spec.patches)
    requires p < |spec.patches| && key in SecretOf(secrets, ns, spec.patches[p].resourceRef)
    ensures Resolves(WriteAll(map[], PackWrites(files, ns, secrets, spec, asset, orders, kustomization)),
                     PatchPath(asset.baseDir, SecretName(spec.patches[p].resourceRef), key),
                     SecretOf(secrets, ns, spec.patches[p].resourceRef)[key])
  {
    hide SecretOf, PatchFile, PatchPath, SecretName, PatchWrites, WriteAll, Join, ResourceWrites;
    var base, patches := asset.baseDir, spec.patches;
    var rs, ps := ResourceWrites(files, asset.resources), PatchWrites(base, ns, secrets, patches, orders);
    var all := PackWrites(files, ns, secrets, spec, asset, orders, kustomization);
    var path := PatchPath(base, SecretName(patches[p].resourceRef), key);
    var i := WriteOfKey(base, ns, secrets, patches, orders, p, key);
    assert all[|rs| + i] == ps[i];
    var k := LastWriteAt(map[], all, path);
    NotTheKustomization(base, SecretName(patches[p].resourceRef), key);
    assert |rs| + i <= k < |rs| + |ps|;
    assert all[k] == ps[k - |rs|];
    var q, key2 := OriginOfWrite(base, ns, secrets, patches, orders, k - |rs|);
    PatchPathIsFile(base, SecretName(patches[p].resourceRef), key, SecretName(patches[q].resourceRef), key2);
  }

  // ----- no write meets a directory -----

  /** Kubernetes allows no slashes in the names and keys of secrets. */
  ghost predicate SlashFree(ns: string, secrets: Secrets, patches: seq<Config.PatchSpec>) {
    forall p, key | p in patches && key in SecretOf(secrets, ns, p.resourceRef) :: '/' !in SecretName(p.resourceRef) && '/' !in key
  }

  ghost predicate LiesIn(base: string, path: string) {
    exists name :: '/' !in name && path == Join(base, name)
  }

  /**
   All files of a pack lie directly in its directory. No file is written where another one needs a
   directory, so that the file system refuses none of them.
   */
  lemma NoDirectoryInTheWay(files: Assets.Files, ns: string, secrets: Secrets, spec: Config.Pack, asset: Assets.Pack,
                            orders: seq<seq<string>>, kustomization: string)
    requires FirstUnreadable(files, asset.resources).None? && EnumeratesAll(orders, ns, secrets, spec.patches)
    requires SlashFree(ns, secrets, spec.patches)
    requires forall r | r in asset.resources :: r.path == Join(asset.baseDir, Base(r.path))
    ensures var writes := PackWrites(files, ns, secrets, spec, asset, orders, kustomization);
            && (forall i | 0 <= i < |writes| :: LiesIn(asset.baseDir, writes[i].path))
            && (forall i, j | 0 <= i < |writes| && 0 <= j < |writes| :: !(writes[i].path + "/" <= writes[j].path))
  {
    hide SecretOf, PatchFile, PatchWrites, Base, Join, SecretName, LiesIn;
    var writes := PackWrites(files, ns, secrets, spec, asset, orders, kustomization);
    var rs, ps := ResourceWrites(files, asset.resources), PatchWrites(asset.baseDir, ns, secrets, spec.patches, orders);
    forall i: nat | i < |writes| ensures LiesIn(asset.baseDir, writes[i].path) {
      if i < |rs| {
        assert asset.resources[i] in asset.resources;
        FileLiesIn(asset.baseDir, Base(asset.resources[i].path));
      } else if i < |rs| + |ps| {
        var p, key := OriginOfWrite(asset.baseDir, ns, secrets, spec.patches, orders, i - |rs|);
        assert spec.patches[p] in spec.patches;
        PatchLiesIn(asset.baseDir, SecretName(spec.patches[p].resourceRef), key);
      } else {
        FileLiesIn(asset.baseDir, KUSTOMIZATION_FILE);
      }
    }
    forall i, j | 0 <= i < |writes| && 0 <= j < |writes| ensures !(writes[i].path + "/" <= writes[j].path) {
      NeitherInside(asset.baseDir, writes[i].path, writes[j].path);
    }
  }

  lemma FileLiesIn(base: string, name: string)
    requires '/' !in name
    ensures LiesIn(base, Join(base, name))
  {
  }

  lemma PatchLiesIn(base: string, secret: string, key: string)
    requires '/' !in secret && '/' !in key
    ensures LiesIn(base, PatchPath(base, secret, key))
  {
    assert PatchPath(base, secret, key) == Join(base, "patch-" + secret + "-" + key);
  }

  lemma NeitherInside(base: string, path1: string, path2: string)
    requires LiesIn(base, path1) && LiesIn(base, path2)
    ensures !(path1 + "/" <= path2)
  {
    var n1 :| '/' !in n1 && path1 == Join(base, n1);
    var n2 :| '/' !in n2 && path2 == Join(base, n2);
    assert forall k | |base| < k < |path2| :: path2[k] == n2[k - |base| - 1];
    assert (path1 + "/")[|path1|] == '/';
  }

  // ----- when the rendering is unique -----

  /** Every iteration order of the secrets renders alike. */
  ghost predicate OneRendering(tools: Toolkit, files: Assets.Files, shoot: Shoot, ns: string, secrets: Secrets,
                               spec: Config.Pack, asset: Assets.Pack)
  {
    forall o1, o2 | EnumeratesAll(o1, ns, secrets, spec.patches) && EnumeratesAll(o2, ns, secrets, spec.patches) ::
      Content(tools, files, shoot, ns, secrets, spec, asset, o1) == Content(tools, files, shoot, ns, secrets, spec, asset, o2)
  }

  /** Every used secret has at most one key, as in the documentation. */
  predicate SingleKeys(ns: string, secrets: Secrets, patches: seq<Config.PatchSpec>) {
    forall i | 0 <= i < |patches| :: |SecretOf(secrets, ns, patches[i].resourceRef)| <= 1
  }

  /** Secrets of at most one key leave no choice of order. */
  lemma SingleKeysOneOrder(ns: string, secrets: Secrets, patches: seq<Config.PatchSpec>,
                           o1: seq<seq<string>>, o2: seq<seq<string>>)
    requires SingleKeys(ns, secrets, patches)
    requires EnumeratesAll(o1, ns, secrets, patches) && EnumeratesAll(o2, ns, secrets, patches)
    ensures o1 == o2
  {
    hide SecretOf;
    forall i | 0 <= i < |o1| ensures o1[i] == o2[i] {
      var data := SecretOf(secrets, ns, patches[i].resourceRef);
      EnumerationSize(o1[i], data);
      EnumerationSize(o2[i], data);
      if |data| == 1 {
        assert o1[i][0] in o1[i];
        assert o1[i][0] in o2[i];
      }
    }
  }

  /** The same orders, but with the first two keys of one secret exchanged. */
  function Swapped(orders: seq<seq<string>>, i: nat): seq<seq<string>>
    requires i < |orders| && |orders[i]| >= 2
  {
    orders[i := [orders[i][1], orders[i][0]] + orders[i][2..]]
  }

  lemma SwappedEnumerates(ns: string, secrets: Secrets, patches: seq<Config.PatchSpec>, orders: seq<seq<string>>, i: nat)
    requires EnumeratesAll(orders, ns, secrets, patches)
    requires i < |orders| && |orders[i]| >= 2
    ensures EnumeratesAll(Swapped(orders, i), ns, secrets, patches)
  {
    hide SecretOf;
    SwapKeeps(orders[i]);
  }

  lemma SwapKeeps<T>(s: seq<T>)
    requires Assets.Distinct(s) && |s| >= 2
    ensures Assets.Distinct([s[1], s[0]] + s[2..])
    ensures forall x :: x in [s[1], s[0]] + s[2..] <==> x in s
  {
    var t := [s[1], s[0]] + s[2..];
    assert t[0] == s[1] && t[1] == s[0] && forall i | 2 <= i < |s| :: t[i] == s[i];
    forall x ensures x in t <==> x in s {
      assert x in t ==> exists i :: 0 <= i < |t| && t[i] == x;
      assert x in s ==> exists i :: 0 <= i < |s| && s[i] == x;
    }
  }

  /** Exchanging two keys of one secret changes the patch list. */
  lemma SwappedListDiffers(ns: string, secrets: Secrets, patches: seq<Config.PatchSpec>, orders: seq<seq<string>>, i: nat)
    requires EnumeratesAll(orders, ns, secrets, patches)
    requires i < |orders| && |orders[i]| >= 2
    ensures PatchEntries(patches, orders) != PatchEntries(patches, Swapped(orders, i))
  {
    var swapped := Swapped(orders, i);
    SwappedEnumerates(ns, secrets, patches, orders, i);
    EntryAt(ns, secrets, patches, orders, i);
    EntryAt(ns, secrets, patches, swapped, i);
    assert swapped[..i] == orders[..i];
    if PatchFile(SecretName(patches[i].resourceRef), orders[i][0])
       == PatchFile(SecretName(patches[i].resourceRef), orders[i][1]) {
      PatchPathIsFile("", SecretName(patches[i].resourceRef), orders[i][0], SecretName(patches[i].resourceRef), orders[i][1]);
      PatchPathInjective("", SecretName(patches[i].resourceRef), orders[i][0], orders[i][1]);
    }
  }

  /** The list continues after the specifications before i with the first key of specification i. */
  lemma EntryAt(ns: string, secrets: Secrets, patches: seq<Config.PatchSpec>, orders: seq<seq<string>>, i: nat)
    requires EnumeratesAll(orders, ns, secrets, patches)
    requires i < |orders| && |orders[i]| >= 1
    ensures var at := |PatchEntries(patches[..i], orders[..i])|;
            && at < |PatchEntries(patches, orders)|
            && PatchEntries(patches, orders)[at] == Patch(PatchFile(SecretName(patches[i].resourceRef), orders[i][0]),
                                                          patches[i].target)
  {
    hide SecretOf, PatchFile, SecretName;
    PatchListPrefix(patches, orders, i + 1);
    assert patches[..i + 1][..i] == patches[..i] && orders[..i + 1][..i] == orders[..i];
    assert PatchEntries(patches[..i + 1], orders[..i + 1])
           == PatchEntries(patches[..i], orders[..i]) + GroupEntries(patches[i], orders[i]);
  }

  /**
   The patch list is the same for all iteration orders exactly when every used secret has at most
   one key.
   */
  lemma ListOrderFreeIff(ns: string, secrets: Secrets, patches: seq<Config.PatchSpec>)
    ensures (forall o1, o2 | EnumeratesAll(o1, ns, secrets, patches) && EnumeratesAll(o2, ns, secrets, patches) ::
               PatchEntries(patches, o1) == PatchEntries(patches, o2))
            <==> SingleKeys(ns, secrets, patches)
  {
    hide SecretOf, PatchEntries;
    if SingleKeys(ns, secrets, patches) {
      forall o1, o2 | EnumeratesAll(o1, ns, secrets, patches) && EnumeratesAll(o2, ns, secrets, patches)
        ensures PatchEntries(patches, o1) == PatchEntries(patches, o2)
      {
        SingleKeysOneOrder(ns, secrets, patches, o1, o2);
      }
    } else {
      var i: nat :| i < |patches| && |SecretOf(secrets, ns, patches[i].resourceRef)| > 1;
      var orders := SomeOrders(ns, secrets, patches);
      EnumerationSize(orders[i], SecretOf(secrets, ns, patches[i].resourceRef));
      SwappedEnumerates(ns, secrets, patches, orders, i);
      SwappedListDiffers(ns, secrets, patches, orders, i);
    }
  }

  /** Marshalling never fails and loses nothing. */
  ghost predicate MarshalsFaithfully(tools: Toolkit) {
    && (forall k :: tools.marshal(k).Some?)
    && forall k1, k2 | tools.marshal(k1) == tools.marshal(k2) :: k1 == k2
  }

  /**
   The complete file system, kustomization file included, is the same for all iteration orders
   exactly when every used secret has at most one key.
   */
  lemma FileSystemOrderFreeIff(tools: Toolkit, files: Assets.Files, ns: string, secrets: Secrets, spec: Config.Pack,
                               asset: Assets.Pack)
    requires FirstUnreadable(files, asset.resources).None? && MarshalsFaithfully(tools)
    ensures (forall o1, o2 | EnumeratesAll(o1, ns, secrets, spec.patches) && EnumeratesAll(o2, ns, secrets, spec.patches) ::
               FinalFiles(tools, files, ns, secrets, spec, asset, o1) == FinalFiles(tools, files, ns, secrets, spec, asset, o2))
            <==> SingleKeys(ns, secrets, spec.patches)
  {
    hide SecretOf, PatchEntries, FinalFiles;
    ListOrderFreeIff(ns, secrets, spec.patches);
    forall o1, o2 | EnumeratesAll(o1, ns, secrets, spec.patches) && EnumeratesAll(o2, ns, secrets, spec.patches)
      ensures FinalFiles(tools, files, ns, secrets, spec, asset, o1) == FinalFiles(tools, files, ns, secrets, spec, asset, o2)
              ==> PatchEntries(spec.patches, o1) == PatchEntries(spec.patches, o2)
    {
      if FinalFiles(tools, files, ns, secrets, spec, asset, o1) == FinalFiles(tools, files, ns, secrets, spec, asset, o2) {
        SameFilesSameText(tools, files, ns, secrets, spec, asset, o1, o2);
      }
    }
    if SingleKeys(ns, secrets, spec.patches) {
      forall o1, o2 | EnumeratesAll(o1, ns, secrets, spec.patches) && EnumeratesAll(o2, ns, secrets, spec.patches)
        ensures o1 == o2
      {
        SingleKeysOneOrder(ns, secrets, spec.patches, o1, o2);
      }
    }
  }

  /** The file system of a pack for given iteration orders. */
  ghost function FinalFiles(tools: Toolkit, files: Assets.Files, ns: string, secrets: Secrets, spec: Config.Pack,
                            asset: Assets.Pack, orders: seq<seq<string>>): map<string, string>
    requires FirstUnreadable(files, asset.resources).None? && EnumeratesAll(orders, ns, secrets, spec.patches)
  {
    WriteAll(map[], PackWrites(files, ns, secrets, spec, asset, orders,
                               tools.marshal(KustomizationOf(asset, spec.patches, orders)).GetOr("")))
  }

  lemma SameFilesSameText(tools: Toolkit, files: Assets.Files, ns: string, secrets: Secrets, spec: Config.Pack,
                          asset: Assets.Pack, o1: seq<seq<string>>, o2: seq<seq<string>>)
    requires FirstUnreadable(files, asset.resources).None?
    requires EnumeratesAll(o1, ns, secrets, spec.patches) && EnumeratesAll(o2, ns, secrets, spec.patches)
    requires FinalFiles(tools, files, ns, secrets, spec, asset, o1) == FinalFiles(tools, files, ns, secrets, spec, asset, o2)
    ensures tools.marshal(KustomizationOf(asset, spec.patches, o1)).GetOr("")
            == tools.marshal(KustomizationOf(asset, spec.patches, o2)).GetOr("")
  {
    hide WriteAll, ContentWrites, KustomizationOf, Enumerates, SecretOf;
    var path := Join(asset.baseDir, KUSTOMIZATION_FILE);
    var t1 := tools.marshal(KustomizationOf(asset, spec.patches, o1)).GetOr("");
    var t2 := tools.marshal(KustomizationOf(asset, spec.patches, o2)).GetOr("");
    WriteAppend(map[], ContentWrites(files, ns, secrets, spec, asset, o1), FileWrite(path, t1));
    WriteAppend(map[], ContentWrites(files, ns, secrets, spec, asset, o2), FileWrite(path, t2));
    assert FinalFiles(tools, files, ns, secrets, spec, asset, o1)[path] == t1;
    assert FinalFiles(tools, files, ns, secrets, spec, asset, o2)[path] == t2;
  }

  lemma SingleKeysRenderAlike(tools: Toolkit, files: Assets.Files, shoot: Shoot, ns: string, secrets: Secrets,
                              spec: Config.Pack, asset: Assets.Pack)
    requires SingleKeys(ns, secrets, spec.patches)
    ensures OneRendering(tools, files, shoot, ns, secrets, spec, asset)
  {
    hide SecretOf, Content;
    forall o1, o2 | EnumeratesAll(o1, ns, secrets, spec.patches) && EnumeratesAll(o2, ns, secrets, spec.patches)
      ensures o1 == o2
    {
      SingleKeysOneOrder(ns, secrets, spec.patches, o1, o2);
    }
  }

  /** Some enumeration of every secret exists. */
  lemma {:induction false} SomeOrders(ns: string, secrets: Secrets, patches: seq<Config.PatchSpec>)
    returns (orders: seq<seq<string>>)
    ensures EnumeratesAll(orders, ns, secrets, patches)
  {
    orders := [];
    if patches != [] {
      var n := |patches| - 1;
      var init := SomeOrders(ns, secrets, patches[..n]);
      var last := SomeOrder(SecretOf(secrets, ns, patches[n].resourceRef).Keys);
      orders := init + [last];
    }
  }

  lemma {:induction false} SomeOrder(keys: set<string>) returns (order: seq<string>)
    ensures Assets.Distinct(order) && forall k :: k in order <==> k in keys
  {
    order := [];
    if keys != {} {
      var k :| k in keys;
      var rest := SomeOrder(keys - {k});
      order := rest + [k];
      InAppend(rest, k);
      Assets.DistinctAppend(rest, k);
    }
  }
}
