/** Packs, the collection loaded from a file system, and the checksum gate. */
module Assets {
  import opened Results
  import opened Text
  import opened Collections
  import Hex
  import Sums

  type Digest = d: seq<Hex.byte> | |d| == 32 witness seq(32, _ => 0)

  /** SHA-256 (section 6.2 of FIPS 180-4), as some function from contents to 32 bytes. */
  type Hasher = string -> Digest

  // ----- file system -----

  datatype Node = File(data: string) | Directory | Unreadable

  /** The entries of a file system under their slash-separated paths. */
  type Files = map<string, Node>

  function ReadFile(files: Files, path: string): Option<string> {
    if path in files && files[path].File? then Some(files[path].data) else None
  }

  function PackDir(name: string, version: string): string {
    Join(Join("packs", name), version)
  }

  /** The glob packs/x/y, with stars for x and y. */
  predicate IsPackDir(path: string) {
    && '/' in path && PlainName(Base(path))
    && '/' in Dir(path) && PlainName(Base(Dir(path)))
    && Dir(Dir(path)) == "packs"
  }

  /** The glob dir/x.yaml, with a star for x. */
  predicate IsResourcePath(dir: string, path: string) {
    '/' in path && Dir(path) == dir && EndsWith(Base(path), ".yaml")
  }

  /**
   fs.Glob: every matching path once. The paths come in some order; the real function sorts them,
   and nothing here depends on how.
   */
  method Glob(files: Files, matches: string -> bool) returns (paths: seq<string>)
    ensures forall p :: p in paths <==> p in files && matches(p)
    ensures Distinct(paths)
  {
    paths := [];
    var rest := files.Keys;
    while rest != {}
      invariant rest <= files.Keys
      invariant forall p :: p in paths <==> p in files && p !in rest && matches(p)
      invariant Distinct(paths)
      decreases rest
    {
      var p :| p in rest;
      rest := rest - {p};
      if matches(p) {
        DistinctAppend(paths, p);
        paths := paths + [p];
      }
    }
  }

  // ----- packs -----

  datatype Resource = Resource(path: string, sha256: string)

  datatype Pack = Pack(name: string, version: string, description: string, resources: seq<Resource>, baseDir: string)

  datatype Collection = Collection(packs: seq<Pack>, files: Files)

  function PackExists(packs: seq<Pack>, name: string, version: string): (found: bool)
    ensures found <==> exists p :: p in packs && p.name == name && p.version == version
  {
    if packs == [] then false
    else if packs[0].name == name && packs[0].version == version then true
    else
      assert packs == [packs[0]] + packs[1..];
      PackExists(packs[1..], name, version)
  }

  function GetPack(packs: seq<Pack>, name: string, version: string): (found: Option<Pack>)
    ensures found.Some? ==> exists i ::
                              && 0 <= i < |packs| && packs[i] == found.value
                              && packs[i].name == name && packs[i].version == version
                              && forall j | 0 <= j < i :: packs[j].name != name || packs[j].version != version
    ensures found.None? ==> forall p | p in packs :: p.name != name || p.version != version
  {
    if packs == [] then None
    else if packs[0].name == name && packs[0].version == version then Some(packs[0])
    else
      assert packs == [packs[0]] + packs[1..];
      GetPack(packs[1..], name, version)
  }

  /** The existence test and the lookup agree on every collection. */
  lemma ExistsIffGet(packs: seq<Pack>, name: string, version: string)
    ensures PackExists(packs, name, version) <==> GetPack(packs, name, version).Some?
  {
  }

  // ----- verification -----

  datatype VerifyError =
    | MissingName | MissingVersion | MissingDescription | NoResources
    | MissingChecksum(path: string) | UnreadableResource(path: string) | ChecksumMismatch(path: string)

  function VerifyResource(sha: Hasher, files: Files, r: Resource): Option<VerifyError> {
    if r.sha256 == "" then Some(MissingChecksum(r.path))
    else
      match ReadFile(files, r.path)
      case None => Some(UnreadableResource(r.path))
      case Some(data) =>
        if !EqualFold(r.sha256, Hex.Encode(sha(data))) then Some(ChecksumMismatch(r.path)) else None
  }

  /** The recorded checksum is 64 hexadecimal digits, in any letter case, of the digest of the contents. */
  predicate Intact(sha: Hasher, files: Files, r: Resource) {
    && ReadFile(files, r.path).Some?
    && |r.sha256| == 64
    && Hex.Decode(r.sha256) == Some(sha(ReadFile(files, r.path).value))
  }

  lemma VerifyResourceIffIntact(sha: Hasher, files: Files, r: Resource)
    ensures VerifyResource(sha, files, r) == None <==> Intact(sha, files, r)
  {
    var data := ReadFile(files, r.path);
    if data.Some? {
      Hex.EqualFoldIffDecodes(r.sha256, sha(data.value));
    }
  }

  function MetadataErrors(p: Pack): seq<VerifyError> {
    Flag(p.name == "", MissingName) + Flag(p.version == "", MissingVersion)
    + Flag(p.description == "", MissingDescription) + Flag(p.resources == [], NoResources)
  }

  function ResourceErrors(sha: Hasher, files: Files, rs: seq<Resource>): seq<VerifyError> {
    if rs == [] then []
    else
      ResourceErrors(sha, files, rs[..|rs| - 1]) + Listed(VerifyResource(sha, files, rs[|rs| - 1]))
  }

  lemma ResourceErrorsStep(sha: Hasher, files: Files, rs: seq<Resource>, i: nat)
    requires i < |rs|
    ensures ResourceErrors(sha, files, rs[..i + 1])
            == ResourceErrors(sha, files, rs[..i]) + Listed(VerifyResource(sha, files, rs[i]))
  {
    assert rs[..i + 1][..i] == rs[..i];
  }

  predicate Sound(sha: Hasher, files: Files, p: Pack) {
    && p.name != "" && p.version != "" && p.description != "" && p.resources != []
    && forall r | r in p.resources :: Intact(sha, files, r)
  }

  lemma {:induction false} ResourceErrorsIff(sha: Hasher, files: Files, rs: seq<Resource>)
    ensures ResourceErrors(sha, files, rs) == [] <==> forall r | r in rs :: Intact(sha, files, r)
  {
    if rs != [] {
      var init, last := rs[..|rs| - 1], rs[|rs| - 1];
      ResourceErrorsIff(sha, files, init);
      VerifyResourceIffIntact(sha, files, last);
      assert rs == init + [last];
    }
  }

  function PackErrors(sha: Hasher, files: Files, p: Pack): seq<VerifyError> {
    MetadataErrors(p) + ResourceErrors(sha, files, p.resources)
  }

  /** No error is reported exactly for a sound pack. */
  lemma PackErrorsIff(sha: Hasher, files: Files, p: Pack)
    ensures PackErrors(sha, files, p) == [] <==> Sound(sha, files, p)
  {
    ResourceErrorsIff(sha, files, p.resources);
    EmptyConcat(MetadataErrors(p), ResourceErrors(sha, files, p.resources));
  }

  method VerifyPack(sha: Hasher, files: Files, p: Pack) returns (errs: seq<VerifyError>)
    ensures errs == PackErrors(sha, files, p)
  {
    errs := [];
    if p.name == "" { errs := errs + [MissingName]; }
    assert errs == Flag(p.name == "", MissingName);
    if p.version == "" { errs := errs + [MissingVersion]; }
    assert errs == Flag(p.name == "", MissingName) + Flag(p.version == "", MissingVersion);
    if p.description == "" { errs := errs + [MissingDescription]; }
    assert errs == Flag(p.name == "", MissingName) + Flag(p.version == "", MissingVersion)
                   + Flag(p.description == "", MissingDescription);
    if p.resources == [] { errs := errs + [NoResources]; }
    assert errs == MetadataErrors(p);
    EmptyTail(errs);
    for i := 0 to |p.resources|
      invariant errs == MetadataErrors(p) + ResourceErrors(sha, files, p.resources[..i])
    {
      var err := VerifyResource(sha, files, p.resources[i]);
      ResourceErrorsStep(sha, files, p.resources, i);
      AppendAssoc(MetadataErrors(p), ResourceErrors(sha, files, p.resources[..i]), Listed(err));
      EmptyTail(errs);
      if err.Some? {
        errs := errs + [err.value];
      }
    }
    assert p.resources[..|p.resources|] == p.resources;
  }

  /** One entry for each pack that is not sound, in order: its errors. */
  function CollectionErrors(sha: Hasher, files: Files, packs: seq<Pack>): seq<seq<VerifyError>> {
    if packs == [] then []
    else
      var errs := PackErrors(sha, files, packs[|packs| - 1]);
      CollectionErrors(sha, files, packs[..|packs| - 1]) + Flag(errs != [], errs)
  }

  lemma {:induction false} CollectionErrorsIff(sha: Hasher, files: Files, packs: seq<Pack>)
    ensures CollectionErrors(sha, files, packs) == [] <==> forall p | p in packs :: Sound(sha, files, p)
  {
    if packs != [] {
      var init, last := packs[..|packs| - 1], packs[|packs| - 1];
      CollectionErrorsIff(sha, files, init);
      PackErrorsIff(sha, files, last);
      var errs := PackErrors(sha, files, last);
      EmptyConcat(CollectionErrors(sha, files, init), Flag(errs != [], errs));
      InAppend(init, last);
      SplitLast([], packs);
    }
  }

  lemma CollectionErrorsStep(sha: Hasher, files: Files, packs: seq<Pack>, i: nat)
    requires i < |packs|
    ensures CollectionErrors(sha, files, packs[..i + 1])
            == CollectionErrors(sha, files, packs[..i])
               + Flag(PackErrors(sha, files, packs[i]) != [], PackErrors(sha, files, packs[i]))
  {
    assert packs[..i + 1][..i] == packs[..i];
  }

  method VerifyCollection(sha: Hasher, c: Collection) returns (errs: seq<seq<VerifyError>>)
    ensures errs == CollectionErrors(sha, c.files, c.packs)
  {
    errs := [];
    for i := 0 to |c.packs|
      invariant errs == CollectionErrors(sha, c.files, c.packs[..i])
    {
      var packErrs := VerifyPack(sha, c.files, c.packs[i]);
      CollectionErrorsStep(sha, c.files, c.packs, i);
      EmptyTail(errs);
      if packErrs != [] {
        errs := errs + [packErrs];
      }
    }
    assert c.packs[..|c.packs|] == c.packs;
  }

  // ----- what loading a directory means -----

  function DescPath(dir: string): string { Join(dir, "DESC") }

  function SumsPath(dir: string): string { Join(dir, "SUMS") }

  predicate Loadable(files: Files, dir: string) {
    && ReadFile(files, DescPath(dir)).Some?
    && ReadFile(files, SumsPath(dir)).Some?
    && Sums.Parse(ReadFile(files, SumsPath(dir)).value).Some?
  }

  function Description(files: Files, dir: string): string
    requires Loadable(files, dir)
  {
    TrimSpace(ReadFile(files, DescPath(dir)).value)
  }

  /** The recorded checksum of a path, or the empty string. */
  function RecordedSum(files: Files, dir: string, path: string): string
    requires Loadable(files, dir)
  {
    var sums := Sums.Parse(ReadFile(files, SumsPath(dir)).value).value;
    if path in sums then sums[path] else ""
  }

  predicate HasResources(files: Files, dir: string) {
    exists p :: p in files && IsResourcePath(dir, p)
  }

  predicate Distinct<T(==)>(s: seq<T>) {
    forall i, j | 0 <= i < j < |s| :: s[i] != s[j]
  }

  lemma DistinctAppend<T>(s: seq<T>, x: T)
    requires Distinct(s) && x !in s
    ensures Distinct(s + [x])
  {
  }

  /** Every resource of the directory once, each with its recorded checksum. */
  predicate Lists(files: Files, dir: string, resources: seq<Resource>)
    requires Loadable(files, dir)
  {
    && (forall r | r in resources ::
          r.path in files && IsResourcePath(dir, r.path) && r.sha256 == RecordedSum(files, dir, r.path))
    && (forall path | path in files && IsResourcePath(dir, path) ::
          Resource(path, RecordedSum(files, dir, path)) in resources)
    && Distinct(resources)
  }

  /** The pack is what the directory at its base holds. */
  predicate Holds(files: Files, p: Pack) {
    && IsPackDir(p.baseDir)
    && p.baseDir in files && files[p.baseDir].Directory?
    && p.name == Base(Dir(p.baseDir)) && p.version == Base(p.baseDir)
    && p.baseDir == PackDir(p.name, p.version)
    && Loadable(files, p.baseDir)
    && p.description == Description(files, p.baseDir)
    && p.resources != []
    && Lists(files, p.baseDir, p.resources)
  }

  /** The resources of the directory are as recorded and there is a description. */
  predicate SoundDir(sha: Hasher, files: Files, dir: string) {
    && Loadable(files, dir)
    && Description(files, dir) != ""
    && forall path | path in files && IsResourcePath(dir, path) ::
         Intact(sha, files, Resource(path, RecordedSum(files, dir, path)))
  }

  /** Loading tolerates this directory entry. */
  predicate Acceptable(sha: Hasher, files: Files, skipVerify: bool, dir: string)
    requires dir in files
  {
    && !files[dir].Unreadable?
    && (files[dir].Directory? ==>
          Loadable(files, dir) && (!skipVerify && HasResources(files, dir) ==> SoundDir(sha, files, dir)))
  }

  /** A collection that says exactly what its file system holds. */
  ghost predicate Faithful(c: Collection) {
    && (forall p | p in c.packs :: Holds(c.files, p))
    && (forall i, j | 0 <= i < j < |c.packs| :: c.packs[i].baseDir != c.packs[j].baseDir)
    && (forall d | d in c.files && IsPackDir(d) && c.files[d].Directory? && HasResources(c.files, d) ::
          d in BaseDirs(c.packs))
  }

  function BaseDirs(packs: seq<Pack>): set<string> {
    set p | p in packs :: p.baseDir
  }

  lemma SoundIffDir(sha: Hasher, files: Files, p: Pack)
    requires Holds(files, p)
    ensures Sound(sha, files, p) <==> SoundDir(sha, files, p.baseDir)
  {
    AllIntactIff(sha, files, p.baseDir, p.resources);
  }

  lemma AllIntactIff(sha: Hasher, files: Files, dir: string, resources: seq<Resource>)
    requires Loadable(files, dir) && Lists(files, dir, resources)
    ensures (forall r | r in resources :: Intact(sha, files, r))
            <==> forall path | path in files && IsResourcePath(dir, path) ::
                   Intact(sha, files, Resource(path, RecordedSum(files, dir, path)))
  {
    forall r | r in resources ensures r == Resource(r.path, RecordedSum(files, dir, r.path)) {
    }
  }

  // ----- what verification reports -----

  /** What the error says about the pack directory is true. */
  predicate IsFault(sha: Hasher, files: Files, dir: string, e: VerifyError)
    requires Loadable(files, dir)
  {
    match e
    case MissingDescription => Blank(ReadFile(files, DescPath(dir)).value)
    case MissingChecksum(path) => path in files && IsResourcePath(dir, path) && RecordedSum(files, dir, path) == ""
    case UnreadableResource(path) =>
      path in files && IsResourcePath(dir, path) && RecordedSum(files, dir, path) != "" && !files[path].File?
    case ChecksumMismatch(path) =>
      && path in files && IsResourcePath(dir, path) && RecordedSum(files, dir, path) != "" && files[path].File?
      && Hex.Decode(RecordedSum(files, dir, path)) != Some(sha(files[path].data))
    case _ => false
  }

  /** A directory is sound exactly when nothing is wrong with it. */
  lemma SoundIffNoFault(sha: Hasher, files: Files, dir: string)
    requires Loadable(files, dir)
    ensures SoundDir(sha, files, dir) <==> forall e :: !IsFault(sha, files, dir, e)
  {
    hide IsResourcePath, RecordedSum, TrimSpace, Sums.Parse;
    TrimSpaceBlank(ReadFile(files, DescPath(dir)).value);
    forall path | path in files && IsResourcePath(dir, path)
      ensures Intact(sha, files, Resource(path, RecordedSum(files, dir, path)))
              <==> && !IsFault(sha, files, dir, MissingChecksum(path)) && !IsFault(sha, files, dir, UnreadableResource(path))
                   && !IsFault(sha, files, dir, ChecksumMismatch(path))
    {
      IntactIffNoFault(sha, files, dir, path);
    }
    assert IsFault(sha, files, dir, MissingDescription) <==> Description(files, dir) == "";
  }

  lemma IntactIffNoFault(sha: Hasher, files: Files, dir: string, path: string)
    requires Loadable(files, dir) && path in files && IsResourcePath(dir, path)
    ensures Intact(sha, files, Resource(path, RecordedSum(files, dir, path)))
            <==> && !IsFault(sha, files, dir, MissingChecksum(path)) && !IsFault(sha, files, dir, UnreadableResource(path))
                 && !IsFault(sha, files, dir, ChecksumMismatch(path))
  {
    hide IsResourcePath, RecordedSum, Loadable;
    var sum := RecordedSum(files, dir, path);
    if files[path].File? && sum != "" {
      Hex.EqualFoldIffDecodes(sum, sha(files[path].data));
    }
  }

  /**
   What loading tolerates, spelled out: files, and directories with a readable description and a
   readable checksum file of good lines, in which verification finds no fault if there are resources.
   */
  lemma AcceptableIff(sha: Hasher, files: Files, skipVerify: bool, dir: string)
    requires dir in files
    ensures Acceptable(sha, files, skipVerify, dir) <==>
            match files[dir]
            case File(_) => true
            case Unreadable => false
            case Directory =>
              && dir + "/" + "DESC" in files && files[dir + "/" + "DESC"].File?
              && dir + "/" + "SUMS" in files && files[dir + "/" + "SUMS"].File?
              && (forall line | line in Sums.Terminated(files[dir + "/" + "SUMS"].data) ::
                    line == "" || exists hash, path :: TwoWords(line, hash, path))
              && (Loadable(files, dir) && !skipVerify && HasResources(files, dir) ==> forall e :: !IsFault(sha, files, dir, e))
  {
    hide SoundDir, IsFault, HasResources, Sums.Parse, Sums.Terminated, TwoWords;
    if files[dir].Directory? {
      if SumsPath(dir) in files && files[SumsPath(dir)].File? {
        Sums.ParseFailsIff(files[SumsPath(dir)].data);
      }
      if Loadable(files, dir) {
        SoundIffNoFault(sha, files, dir);
      }
    }
  }

  /** For each directory of an unsound pack, all that is wrong with it, and each fault once. */
  ghost predicate Reports(sha: Hasher, files: Files, errs: seq<seq<VerifyError>>) {
    exists dirs :: |dirs| == |errs| && ReportsDirs(sha, files, dirs, errs)
  }

  ghost predicate ReportsDirs(sha: Hasher, files: Files, dirs: seq<string>, errs: seq<seq<VerifyError>>)
    requires |dirs| == |errs|
  {
    && Distinct(dirs)
    && (forall d :: d in dirs <==> IsDir(files, d) && HasResources(files, d) && !SoundDir(sha, files, d))
    && forall i | 0 <= i < |dirs| ::
         && Loadable(files, dirs[i]) && errs[i] != [] && Distinct(errs[i])
         && forall e :: e in errs[i] <==> IsFault(sha, files, dirs[i], e)
  }

  lemma {:induction false} ResourceErrorsAre(sha: Hasher, files: Files, rs: seq<Resource>, e: VerifyError)
    ensures e in ResourceErrors(sha, files, rs) <==> exists r :: r in rs && VerifyResource(sha, files, r) == Some(e)
  {
    hide VerifyResource;
    if rs != [] {
      var init, last := rs[..|rs| - 1], rs[|rs| - 1];
      ResourceErrorsAre(sha, files, init, e);
      InConcat(ResourceErrors(sha, files, init), Listed(VerifyResource(sha, files, last)));
      SplitLast([], rs);
      InAppend(init, last);
    }
  }

  lemma MetadataErrorsAre(p: Pack, e: VerifyError)
    requires p.name != "" && p.version != "" && p.resources != []
    ensures e in MetadataErrors(p) <==> e.MissingDescription? && p.description == ""
  {
  }

  /** The errors of a loaded pack are exactly the faults of its directory. */
  lemma PackErrorsAreFaults(sha: Hasher, files: Files, p: Pack, e: VerifyError)
    requires Holds(files, p)
    ensures e in PackErrors(sha, files, p) <==> IsFault(sha, files, p.baseDir, e)
  {
    hide IsPackDir, IsResourcePath, RecordedSum, Sums.Parse, TrimSpace, ResourceErrors, MetadataErrors, VerifyResource;
    InConcat(MetadataErrors(p), ResourceErrors(sha, files, p.resources));
    ResourceErrorsAre(sha, files, p.resources, e);
    TrimSpaceBlank(ReadFile(files, DescPath(p.baseDir)).value);
    assert p.name != "" && p.version != "" by {
      NamesArePlain(files, p);
    }
    MetadataErrorsAre(p, e);
    forall r | r in p.resources
      ensures VerifyResource(sha, files, r) == Some(e) <==> !e.MissingDescription? && IsFaultOf(sha, files, p.baseDir, r.path, e)
    {
      VerifyResourceFinds(sha, files, p.baseDir, r, e);
    }
  }

  lemma NamesArePlain(files: Files, p: Pack)
    requires Holds(files, p)
    ensures PlainName(p.name) && PlainName(p.version)
  {
  }

  /** The fault is one of this resource. */
  predicate IsFaultOf(sha: Hasher, files: Files, dir: string, path: string, e: VerifyError)
    requires Loadable(files, dir)
  {
    IsFault(sha, files, dir, e)
    && (e == MissingChecksum(path) || e == UnreadableResource(path) || e == ChecksumMismatch(path))
  }

  lemma VerifyResourceFinds(sha: Hasher, files: Files, dir: string, r: Resource, e: VerifyError)
    requires Loadable(files, dir)
    requires r.path in files && IsResourcePath(dir, r.path) && r.sha256 == RecordedSum(files, dir, r.path)
    ensures VerifyResource(sha, files, r) == Some(e) <==> IsFaultOf(sha, files, dir, r.path, e)
  {
    hide IsResourcePath, RecordedSum, Loadable, EqualFold;
    if files[r.path].File? {
      Hex.EqualFoldIffDecodes(r.sha256, sha(files[r.path].data));
    }
  }

  lemma {:induction false} ResourceErrorsDistinct(sha: Hasher, files: Files, rs: seq<Resource>)
    requires forall i, j | 0 <= i < j < |rs| :: rs[i].path != rs[j].path
    ensures Distinct(ResourceErrors(sha, files, rs))
  {
    hide VerifyResource, Distinct;
    if rs != [] {
      var init, last := rs[..|rs| - 1], rs[|rs| - 1];
      ResourceErrorsDistinct(sha, files, init);
      var e := VerifyResource(sha, files, last);
      EmptyTail(ResourceErrors(sha, files, init));
      if e.Some? {
        ResourceErrorsAre(sha, files, init, e.value);
        forall r | r in init ensures VerifyResource(sha, files, r) != e {
          ErrorsNamePath(sha, files, r);
          ErrorsNamePath(sha, files, last);
          var i :| 0 <= i < |init| && init[i] == r;
          assert rs[i].path != last.path;
        }
        DistinctAppend(ResourceErrors(sha, files, init), e.value);
      }
    } else {
      assert Distinct<VerifyError>([]) by {
        NoneDistinct<VerifyError>();
      }
    }
  }

  lemma NoneDistinct<T>()
    ensures Distinct<T>([])
  {
  }

  lemma ErrorsNamePath(sha: Hasher, files: Files, r: Resource)
    ensures var e := VerifyResource(sha, files, r);
            e in {None, Some(MissingChecksum(r.path)), Some(UnreadableResource(r.path)), Some(ChecksumMismatch(r.path))}
  {
  }

  lemma DistinctConcat<T>(a: seq<T>, b: seq<T>)
    requires Distinct(a) && Distinct(b) && forall x | x in a :: x !in b
    ensures Distinct(a + b)
  {
    assert forall i | 0 <= i < |a| :: (a + b)[i] in a;
    assert forall i | 0 <= i < |b| :: (a + b)[|a| + i] == b[i] && b[i] in b;
  }

  /** Each fault is reported once. */
  lemma PackErrorsDistinct(sha: Hasher, files: Files, p: Pack)
    requires Holds(files, p)
    ensures Distinct(PackErrors(sha, files, p))
  {
    hide IsPackDir, IsResourcePath, RecordedSum, Loadable, ResourceErrors, MetadataErrors, VerifyResource, Description;
    forall i, j | 0 <= i < j < |p.resources| ensures p.resources[i].path != p.resources[j].path {
      assert p.resources[i] in p.resources && p.resources[j] in p.resources;
      assert p.resources[i] != p.resources[j];
    }
    ResourceErrorsDistinct(sha, files, p.resources);
    NamesArePlain(files, p);
    var metadata := MetadataErrors(p);
    OneMetadataError(p);
    forall e | e in metadata ensures e !in ResourceErrors(sha, files, p.resources) {
      MetadataErrorsAre(p, e);
      ResourceErrorsAre(sha, files, p.resources, e);
      forall r | r in p.resources ensures VerifyResource(sha, files, r) != Some(e) {
        ErrorsNamePath(sha, files, r);
      }
    }
    DistinctConcat(metadata, ResourceErrors(sha, files, p.resources));
  }

  lemma OneMetadataError(p: Pack)
    requires p.name != "" && p.version != "" && p.resources != []
    ensures Distinct(MetadataErrors(p))
  {
  }

  /** The packs that have errors, in order. */
  lemma {:induction false} PacksWithErrors(sha: Hasher, files: Files, packs: seq<Pack>) returns (bad: seq<Pack>)
    ensures |bad| == |CollectionErrors(sha, files, packs)|
    ensures forall p :: p in bad <==> p in packs && PackErrors(sha, files, p) != []
    ensures forall i | 0 <= i < |bad| :: CollectionErrors(sha, files, packs)[i] == PackErrors(sha, files, bad[i])
    ensures Distinct(BaseDirList(packs)) ==> Distinct(BaseDirList(bad))
  {
    hide PackErrors, Distinct;
    bad := [];
    if packs != [] {
      var init, last := packs[..|packs| - 1], packs[|packs| - 1];
      bad := PacksWithErrors(sha, files, init);
      SplitLast([], packs);
      InAppend(init, last);
      BaseDirListAppend(init, last);
      if PackErrors(sha, files, last) != [] {
        InAppend(bad, last);
        BaseDirListAppend(bad, last);
        bad := bad + [last];
      }
    }
  }

  function BaseDirList(packs: seq<Pack>): seq<string> {
    seq(|packs|, i requires 0 <= i < |packs| => packs[i].baseDir)
  }

  lemma BaseDirListAppend(packs: seq<Pack>, p: Pack)
    ensures Distinct(BaseDirList(packs + [p])) <==>
            Distinct(BaseDirList(packs)) && forall q | q in packs :: q.baseDir != p.baseDir
  {
    var init, all := BaseDirList(packs), BaseDirList(packs + [p]);
    assert all == init + [p.baseDir];
    if Distinct(all) {
      forall q | q in packs ensures q.baseDir != p.baseDir {
        var i :| 0 <= i < |packs| && packs[i] == q;
        assert all[i] != all[|packs|];
      }
      assert forall i | 0 <= i < |init| :: all[i] == init[i];
    }
  }

  /** Verifying a loaded collection reports what is wrong with it, all of it and nothing else. */
  lemma VerificationReports(sha: Hasher, c: Collection)
    requires Faithful(c)
    ensures Reports(sha, c.files, CollectionErrors(sha, c.files, c.packs))
  {
    hide Holds, PackErrors, CollectionErrors, IsPackDir, HasResources, SoundDir, IsFault, Loadable;
    var bad := PacksWithErrors(sha, c.files, c.packs);
    var dirs := BaseDirList(bad);
    var errs := CollectionErrors(sha, c.files, c.packs);
    forall p | p in c.packs
      ensures Loadable(c.files, p.baseDir) && IsDir(c.files, p.baseDir) && HasResources(c.files, p.baseDir)
      ensures PackErrors(sha, c.files, p) != [] <==> !SoundDir(sha, c.files, p.baseDir)
      ensures Distinct(PackErrors(sha, c.files, p))
      ensures forall e :: e in PackErrors(sha, c.files, p) <==> IsFault(sha, c.files, p.baseDir, e)
    {
      LoadedIsDir(sha, c.files, p);
      PackErrorsDistinct(sha, c.files, p);
      forall e ensures e in PackErrors(sha, c.files, p) <==> IsFault(sha, c.files, p.baseDir, e) {
        PackErrorsAreFaults(sha, c.files, p, e);
      }
    }
    forall d | IsDir(c.files, d) && HasResources(c.files, d) && !SoundDir(sha, c.files, d) ensures d in dirs {
      assert d in BaseDirs(c.packs);
      var p :| p in c.packs && p.baseDir == d;
      var i :| 0 <= i < |bad| && bad[i] == p;
      assert dirs[i] == d;
    }
    assert forall i | 0 <= i < |bad| :: bad[i] in bad && dirs[i] == bad[i].baseDir;
    assert ReportsDirs(sha, c.files, dirs, errs);
  }

  lemma LoadedIsDir(sha: Hasher, files: Files, p: Pack)
    requires Holds(files, p)
    ensures Loadable(files, p.baseDir) && IsDir(files, p.baseDir) && HasResources(files, p.baseDir)
    ensures PackErrors(sha, files, p) != [] <==> !SoundDir(sha, files, p.baseDir)
  {
    hide IsPackDir, IsResourcePath, PackErrors, Sound, SoundDir, Loadable;
    assert p.resources[0] in p.resources;
    PackErrorsIff(sha, files, p);
    SoundIffDir(sha, files, p);
  }

  // ----- loading -----

  datatype LoadError =
    | NoFileSystem
    | UnreadableDir(dir: string)
    | NoDescription(dir: string)
    | NoSums(dir: string)
    | BadSums(dir: string)
    | VerifyFailed(errs: seq<seq<VerifyError>>)

  /** What is wrong with the file system when loading reports this error. */
  ghost predicate Explains(sha: Hasher, files: Files, skipVerify: bool, e: LoadError) {
    match e
    case NoFileSystem => false
    case UnreadableDir(d) => d in files && IsPackDir(d) && files[d].Unreadable?
    case NoDescription(d) => IsDir(files, d) && ReadFile(files, DescPath(d)).None?
    case NoSums(d) => IsDir(files, d) && ReadFile(files, DescPath(d)).Some? && ReadFile(files, SumsPath(d)).None?
    case BadSums(d) => IsDir(files, d) && ReadFile(files, DescPath(d)).Some? && ReadFile(files, SumsPath(d)).Some?
                       && Sums.Parse(ReadFile(files, SumsPath(d)).value).None?
    case VerifyFailed(errs) =>
      && !skipVerify && errs != [] && Reports(sha, files, errs)
      && forall d | d in files && IsPackDir(d) :: Acceptable(sha, files, true, d)
  }

  predicate IsDir(files: Files, dir: string) {
    dir in files && IsPackDir(dir) && files[dir].Directory?
  }

  lemma PackDirParts(dir: string)
    requires IsPackDir(dir)
    ensures dir == PackDir(Base(Dir(dir)), Base(dir))
  {
    PartsJoin(dir);
    PartsJoin(Dir(dir));
  }

  lemma IsPackDirIff(name: string, version: string)
    requires '/' !in name && '/' !in version
    ensures IsPackDir(PackDir(name, version)) <==> PlainName(name) && PlainName(version)
    ensures Base(PackDir(name, version)) == version && Base(Dir(PackDir(name, version))) == name
  {
    JoinParts(Join("packs", name), version);
    JoinParts("packs", name);
  }

  /** The glob of the pack directories, spelled out. */
  lemma PackDirIff(path: string)
    ensures IsPackDir(path) <==>
            exists name, version :: PlainName(name) && PlainName(version) && path == "packs/" + name + "/" + version
  {
    hide PlainName, Base, Dir;
    if IsPackDir(path) {
      PackDirParts(path);
      PackDirSpelled(Base(Dir(path)), Base(path));
    }
    hide IsPackDir;
    forall name, version | PlainName(name) && PlainName(version) && path == "packs/" + name + "/" + version
      ensures IsPackDir(path)
    {
      PackDirSpelled(name, version);
      PlainNamesMakePackDir(name, version);
    }
  }

  lemma PackDirSpelled(name: string, version: string)
    ensures PackDir(name, version) == "packs/" + name + "/" + version
  {
    assert "packs" + "/" == "packs/";
  }

  lemma PlainNamesMakePackDir(name: string, version: string)
    requires PlainName(name) && PlainName(version)
    ensures IsPackDir(PackDir(name, version))
  {
    IsPackDirIff(name, version);
  }

  /** The glob of the resources of a directory, spelled out. */
  lemma ResourcePathIff(dir: string, path: string)
    ensures IsResourcePath(dir, path) <==> exists stem :: '/' !in stem && path == dir + "/" + (stem + ".yaml")
  {
    if IsResourcePath(dir, path) {
      PartsJoin(path);
      var stem := Base(path)[..|Base(path)| - 5];
      assert Base(path) == stem + ".yaml";
    }
    forall stem | '/' !in stem && path == dir + "/" + (stem + ".yaml") ensures IsResourcePath(dir, path) {
      JoinParts(dir, stem + ".yaml");
      assert path == Join(dir, stem + ".yaml");
    }
  }

  /** A pack directory determines the name and the version of its pack. */
  lemma PackDirInjective(n1: string, v1: string, n2: string, v2: string)
    requires PackDir(n1, v1) == PackDir(n2, v2)
    requires '/' !in v1 && '/' !in v2 && '/' !in n1 && '/' !in n2
    ensures n1 == n2 && v1 == v2
  {
    JoinParts(Join("packs", n1), v1);
    JoinParts(Join("packs", n2), v2);
    JoinInjective("packs", n1, n2);
  }

  method LoadResources(files: Files, dir: string, sums: map<string, string>) returns (resources: seq<Resource>)
    requires Loadable(files, dir) && Sums.Parse(ReadFile(files, SumsPath(dir)).value) == Some(sums)
    ensures resources == [] <==> !HasResources(files, dir)
    ensures Lists(files, dir, resources)
  {
    var paths := Glob(files, p => IsResourcePath(dir, p));
    resources := [];
    for i := 0 to |paths|
      invariant |resources| == i
      invariant forall k | 0 <= k < i :: resources[k] == Resource(paths[k], RecordedSum(files, dir, paths[k]))
    {
      var sha256 := if paths[i] in sums then sums[paths[i]] else "";
      resources := resources + [Resource(paths[i], sha256)];
    }
    ResourcesListed(files, dir, paths, resources);
  }

  /** Reads one pack directory; a directory without resources gives no pack. */
  method LoadPack(sha: Hasher, files: Files, dir: string) returns (res: Result<Option<Pack>, LoadError>)
    requires IsPackDir(dir) && dir in files && files[dir].Directory?
    ensures res.Ok? <==> Loadable(files, dir)
    ensures res.Ok? ==> (res.value.Some? <==> HasResources(files, dir))
    ensures res.Ok? && res.value.Some? ==> Holds(files, res.value.value) && res.value.value.baseDir == dir
    ensures res.Err? ==> !res.error.VerifyFailed? && Explains(sha, files, true, res.error)
  {
    var name := Base(Dir(dir));
    var version := Base(dir);
    PackDirParts(dir);

    var desc := ReadFile(files, DescPath(dir));
    if desc.None? {
      return Err(NoDescription(dir));
    }
    var sumsData := ReadFile(files, SumsPath(dir));
    if sumsData.None? {
      return Err(NoSums(dir));
    }
    var parsed := Sums.SumsFromReader(Sums.Reader(sumsData.value, false));
    if parsed.Err? {
      return Err(BadSums(dir));
    }
    var sums := parsed.value;

    var resources := LoadResources(files, dir, sums);
    if resources == [] {
      return Ok(None);
    }
    var pack := Pack(name, version, TrimSpace(desc.value), resources, dir);
    return Ok(Some(pack));
  }

  lemma ResourcesListed(files: Files, dir: string, paths: seq<string>, resources: seq<Resource>)
    requires Loadable(files, dir)
    requires forall p :: p in paths <==> p in files && IsResourcePath(dir, p)
    requires Distinct(paths)
    requires |resources| == |paths|
    requires forall k | 0 <= k < |paths| :: resources[k] == Resource(paths[k], RecordedSum(files, dir, paths[k]))
    ensures resources == [] <==> !HasResources(files, dir)
    ensures Lists(files, dir, resources)
  {
    forall r | r in resources
      ensures r.path in files && IsResourcePath(dir, r.path) && r.sha256 == RecordedSum(files, dir, r.path)
    {
      var k :| 0 <= k < |resources| && resources[k] == r;
      assert paths[k] in paths;
    }
    forall path | path in files && IsResourcePath(dir, path)
      ensures Resource(path, RecordedSum(files, dir, path)) in resources
    {
      assert path in paths;
      var k :| 0 <= k < |paths| && paths[k] == path;
      assert resources[k] in resources;
    }
    if resources != [] {
      assert resources[0] in resources;
    }
  }

  /** The packs found in the directories looked at so far. */
  ghost predicate Collected(files: Files, dirs: seq<string>, packs: seq<Pack>)
    requires forall d | d in dirs :: d in files
  {
    && (forall p | p in packs :: Holds(files, p) && p.baseDir in dirs)
    && (forall i, j | 0 <= i < j < |packs| :: packs[i].baseDir != packs[j].baseDir)
    && (forall d | d in dirs && files[d].Directory? && HasResources(files, d) :: d in BaseDirs(packs))
  }

  lemma CollectedSkip(files: Files, dirs: seq<string>, packs: seq<Pack>, dir: string)
    requires (forall d | d in dirs :: d in files) && Collected(files, dirs, packs)
    requires dir in files && !(files[dir].Directory? && HasResources(files, dir))
    ensures Collected(files, dirs + [dir], packs)
  {
    InAppend(dirs, dir);
  }

  lemma BaseDirsAppend(packs: seq<Pack>, pack: Pack)
    ensures BaseDirs(packs + [pack]) == BaseDirs(packs) + {pack.baseDir}
  {
    InAppend(packs, pack);
  }

  lemma CollectedAdd(files: Files, dirs: seq<string>, packs: seq<Pack>, pack: Pack)
    requires (forall d | d in dirs :: d in files) && Collected(files, dirs, packs)
    requires Holds(files, pack) && pack.baseDir !in dirs
    ensures Collected(files, dirs + [pack.baseDir], packs + [pack])
  {
    hide Holds, HasResources, BaseDirs;
    InAppend(packs, pack);
    InAppend(dirs, pack.baseDir);
    BaseDirsAppend(packs, pack);
    forall k | 0 <= k < |packs| ensures packs[k].baseDir != pack.baseDir {
      assert packs[k] in packs;
    }
  }

  /** The loop of New over the pack directories, before verification. */
  method LoadPacks(sha: Hasher, files: Files) returns (res: Result<seq<Pack>, LoadError>)
    ensures res.Ok? <==> forall d | d in files && IsPackDir(d) :: Acceptable(sha, files, true, d)
    ensures res.Ok? ==> Faithful(Collection(res.value, files))
    ensures res.Err? ==> !res.error.VerifyFailed? && Explains(sha, files, true, res.error)
  {
    hide Holds, HasResources, Loadable, IsPackDir;
    var dirs := Glob(files, p => IsPackDir(p));
    var packs: seq<Pack> := [];
    for i := 0 to |dirs|
      invariant Collected(files, dirs[..i], packs)
      invariant forall d | d in dirs[..i] :: Acceptable(sha, files, true, d)
    {
      var dir := dirs[i];
      assert dir in dirs && dir !in dirs[..i];
      assert dirs[..i + 1] == dirs[..i] + [dir];
      if files[dir].Unreadable? {
        return Err(UnreadableDir(dir));
      }
      if !files[dir].Directory? {
        CollectedSkip(files, dirs[..i], packs, dir);
        continue;
      }
      var loaded := LoadPack(sha, files, dir);
      if loaded.Err? {
        return Err(loaded.error);
      }
      if loaded.value.None? {
        CollectedSkip(files, dirs[..i], packs, dir);
        continue;
      }
      CollectedAdd(files, dirs[..i], packs, loaded.value.value);
      packs := packs + [loaded.value.value];
    }
    assert dirs[..|dirs|] == dirs;
    return Ok(packs);
  }

  /** Loads and verifies the collection of a file system, if one is given. */
  method New(sha: Hasher, fs: Option<Files>, skipVerify: bool) returns (res: Result<Collection, LoadError>)
    ensures res.Ok? <==> fs.Some? && forall d | d in fs.value && IsPackDir(d) :: Acceptable(sha, fs.value, skipVerify, d)
    ensures res.Ok? ==> res.value.files == fs.value && Faithful(res.value)
    ensures res.Err? ==> if fs.None? then res.error == NoFileSystem else Explains(sha, fs.value, skipVerify, res.error)
  {
    if fs.None? {
      return Err(NoFileSystem);
    }
    var files := fs.value;
    var packs := LoadPacks(sha, files);
    if packs.Err? {
      return Err(packs.error);
    }
    var c := Collection(packs.value, files);
    if !skipVerify {
      var errs := VerifyCollection(sha, c);
      CollectionErrorsIff(sha, files, c.packs);
      VerifiedIff(sha, c);
      if errs != [] {
        VerificationReports(sha, c);
        return Err(VerifyFailed(errs));
      }
    }
    return Ok(c);
  }

  /** All packs are sound exactly when every loaded directory passes verification. */
  lemma VerifiedIff(sha: Hasher, c: Collection)
    requires Faithful(c)
    requires forall d | d in c.files && IsPackDir(d) :: Acceptable(sha, c.files, true, d)
    ensures (forall p | p in c.packs :: Sound(sha, c.files, p))
            <==> forall d | d in c.files && IsPackDir(d) :: Acceptable(sha, c.files, false, d)
  {
    forall p | p in c.packs ensures Sound(sha, c.files, p) <==> SoundDir(sha, c.files, p.baseDir) {
      SoundIffDir(sha, c.files, p);
    }
    if forall d | d in c.files && IsPackDir(d) :: Acceptable(sha, c.files, false, d) {
      forall p | p in c.packs ensures Sound(sha, c.files, p) {
        assert p.resources[0] in p.resources;
        assert HasResources(c.files, p.baseDir);
        assert Acceptable(sha, c.files, false, p.baseDir);
      }
    }
  }

  // ----- what a loaded collection guarantees -----

  /** Name and version identify a loaded pack. */
  lemma IdentityIsUnique(c: Collection, i: nat, j: nat)
    requires Faithful(c)
    requires i < |c.packs| && j < |c.packs|
    requires c.packs[i].name == c.packs[j].name && c.packs[i].version == c.packs[j].version
    ensures i == j
  {
    assert c.packs[i] in c.packs && c.packs[j] in c.packs;
  }

  /** Looking a loaded pack up by its own name and version finds that pack. */
  lemma GetPackFindsEveryMember(c: Collection, p: Pack)
    requires Faithful(c) && p in c.packs
    ensures GetPack(c.packs, p.name, p.version) == Some(p)
  {
    var k: nat :| k < |c.packs| && c.packs[k] == p;
    var found := GetPack(c.packs, p.name, p.version);
    var i: nat :| i < |c.packs| && c.packs[i] == found.value
                  && c.packs[i].name == p.name && c.packs[i].version == p.version;
    IdentityIsUnique(c, i, k);
  }

  /** What loading records about a pack: where it lies, and that its resources lie directly there. */
  lemma LoadedPackShape(c: Collection, p: Pack)
    requires Faithful(c) && p in c.packs
    ensures p.baseDir == PackDir(p.name, p.version) && PlainName(p.name) && PlainName(p.version)
    ensures |p.resources| > 0
    ensures forall r | r in p.resources :: r.path == Join(p.baseDir, Base(r.path))
  {
    forall r | r in p.resources ensures r.path == Join(p.baseDir, Base(r.path)) {
      PartsJoin(r.path);
    }
  }
}
