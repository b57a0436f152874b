/** The metadata that pack-build writes for a pack, and what the loader makes of it. */
module PackBuild {
  import opened Results
  import opened Text
  import opened Collections
  import Hex
  import Sums
  import opened Assets

  // ----- the pack spec -----

  datatype SpecError = MissingVariable | InvalidName | InvalidVersion

  /** The characters of the class alnum, which depends on the locale of the shell. */
  type Alnum = f: char -> bool | forall c | f(c) :: !IsSpace(c) && c != '/'
    witness c => '0' <= c <= '9' || 'a' <= c <= 'z' || 'A' <= c <= 'Z'

  predicate MatchesRegex(alnum: Alnum, s: string) {
    forall i | 0 <= i < |s| :: alnum(s[i]) || s[i] in {'.', '_', '+', '@', '-'}
  }

  function CheckSpec(alnum: Alnum, name: string, version: string, description: string): (err: Option<SpecError>)
    ensures err == None <==> && name != "" && version != "" && description != ""
                             && MatchesRegex(alnum, name) && MatchesRegex(alnum, version)
    ensures err == Some(MissingVariable) <==> "" in {name, version, description}
    ensures err == Some(InvalidName) ==> !MatchesRegex(alnum, name)
    ensures err == Some(InvalidVersion) ==> MatchesRegex(alnum, name) && !MatchesRegex(alnum, version)
  {
    if name == "" || version == "" || description == "" then Some(MissingVariable)
    else if !MatchesRegex(alnum, name) then Some(InvalidName)
    else if !MatchesRegex(alnum, version) then Some(InvalidVersion)
    else None
  }

  /** A spec is accepted exactly when nothing is empty and every character of name and version is allowed. */
  lemma SpecAcceptedIff(alnum: Alnum, name: string, version: string, description: string)
    ensures CheckSpec(alnum, name, version, description) == None <==>
            && name != "" && version != "" && description != ""
            && forall c | c in name || c in version :: alnum(c) || c == '.' || c == '_' || c == '+' || c == '@' || c == '-'
  {
    forall s: string, c | c in s && MatchesRegex(alnum, s) ensures alnum(c) || c in {'.', '_', '+', '@', '-'} {
      var i :| 0 <= i < |s| && s[i] == c;
    }
    assert forall s: string, i | 0 <= i < |s| :: s[i] in s;
  }

  /**
   An accepted name and version make a path that is a single word and from which both can be read
   back. The loader recognises it as a pack directory unless one of them is a dot or two dots, which
   the check lets through.
   */
  lemma CheckedSpecHasPackDir(alnum: Alnum, name: string, version: string, description: string)
    requires CheckSpec(alnum, name, version, description) == None
    ensures Word(PackDir(name, version))
    ensures Base(Dir(PackDir(name, version))) == name && Base(PackDir(name, version)) == version
    ensures IsPackDir(PackDir(name, version)) <==> name !in {".", ".."} && version !in {".", ".."}
  {
    MatchingIsPlain(alnum, name);
    MatchingIsPlain(alnum, version);
    IsPackDirIff(name, version);
    hide IsPackDir, Word, Base, Dir;
    assert Word("packs") && Word("/") by {
      WordLiterals();
    }
    WordConcat("packs", "/");
    WordConcat("packs" + "/", name);
    WordConcat(Join("packs", name), "/");
    WordConcat(Join("packs", name) + "/", version);
  }

  lemma WordLiterals()
    ensures Word("packs") && Word("/")
  {
  }

  lemma MatchingIsPlain(alnum: Alnum, s: string)
    requires s != "" && MatchesRegex(alnum, s)
    ensures Word(s) && '/' !in s
  {
    forall i | 0 <= i < |s| ensures s[i] != '/' && !IsSpace(s[i]) {
      assert alnum(s[i]) || s[i] in {'.', '_', '+', '@', '-'};
    }
  }

  // ----- the shell commands -----

  /** The shell's echo takes a lone argument of this form for an option. */
  predicate IsEchoOption(s: string) {
    |s| >= 2 && s[0] == '-' && forall i | 1 <= i < |s| :: s[i] in {'n', 'e', 'E'}
  }

  function Echo(s: string): string {
    if !IsEchoOption(s) then s + ['\n'] else if 'n' in s then "" else ['\n']
  }

  /** Echo prints something visible exactly for a description that is not blank and no option. */
  lemma EchoIsBlankIff(s: string)
    ensures TrimSpace(Echo(s)) == "" <==> Blank(s) || IsEchoOption(s)
    ensures !IsEchoOption(s) ==> TrimSpace(Echo(s)) == TrimSpace(s)
  {
    TrimSpaceBlank(s);
    TrimSpaceBlank(Echo(s));
    if !IsEchoOption(s) {
      TrimSpaceAppend(s, '\n');
    }
  }

  /** find, below the directory and in any letter case: also in sub-directories. */
  predicate Finds(files: Files, dir: string, path: string) {
    && path in files && files[path].File?
    && dir + "/" <= path
    && |Base(path)| >= 5 && EqualFold(Base(path)[|Base(path)| - 5..], ".yaml")
  }

  lemma FindsEveryFile(files: Files, dir: string, path: string)
    requires path in files && files[path].File? && IsResourcePath(dir, path)
    ensures Finds(files, dir, path)
  {
    PartsJoin(path);
  }

  lemma MetadataIsNoResource(dir: string, other: string)
    ensures !IsResourcePath(other, DescPath(dir)) && !IsResourcePath(other, SumsPath(dir))
    ensures Base(DescPath(dir)) == "DESC" && Base(SumsPath(dir)) == "SUMS"
    ensures Dir(DescPath(dir)) == dir && Dir(SumsPath(dir)) == dir
  {
    JoinParts(dir, "DESC");
    JoinParts(dir, "SUMS");
  }

  // ----- the file tree -----

  /** The checksums that sha256sum computes for the resources of a pack. */
  function Checksums(sha: Hasher, files: Files, dir: string): map<string, string> {
    map p | p in files && Finds(files, dir, p) :: Hex.Encode(sha(files[p].data))
  }

  ghost predicate Orders(order: seq<string>, sums: map<string, string>) {
    forall p :: p in order <==> p in sums
  }

  /** The tree after the metadata of a pack has been written, its resources taken in the given order. */
  ghost function Built(sha: Hasher, files: Files, dir: string, description: string, order: seq<string>): Files
    requires Orders(order, Checksums(sha, files, dir))
  {
    var described := (files - {SumsPath(dir)})[DescPath(dir) := File(Echo(description))];
    if order == [] then described
    else described[SumsPath(dir) := File(Sums.PrintSums(Checksums(sha, files, dir), order))]
  }

  /** The metadata files are not found as resources. */
  lemma MetadataIsNotFound(files: Files, dir: string, description: string)
    ensures var described := (files - {SumsPath(dir)})[DescPath(dir) := File(Echo(description))];
            && SumsPath(dir) !in described && SumsPath(dir) != DescPath(dir)
            && (forall p :: Finds(described, dir, p) <==> Finds(files, dir, p))
            && forall p | Finds(files, dir, p) ::
                 p in files && files[p].File? && p in described && described[p] == files[p] && p != SumsPath(dir)
  {
    hide Dir, LastSlash, Echo, EqualFold;
    MetadataIsNoResource(dir, dir);
  }

  class AssetsTree {
    var files: Files

    constructor (files: Files)
      ensures this.files == files
    {
      this.files := files;
    }

    method AppendTo(path: string, text: string)
      modifies this
      requires path in files ==> files[path].File?
      ensures files == old(files)[path := File((if path in old(files) then old(files)[path].data else "") + text)]
    {
      files := files[path := File((if path in files then files[path].data else "") + text)];
    }

    /**
     The steps of pack-build after package() has filled the pack directory: the description, then
     one checksum line a resource.
     */
    method WriteMetadata(sha: Hasher, alnum: Alnum, name: string, version: string, description: string)
      returns (err: Option<SpecError>, order: seq<string>)
      requires CheckSpec(alnum, name, version, description).None? ==> IsPrepared(PackDir(name, version))
      modifies this
      ensures err == CheckSpec(alnum, name, version, description)
      ensures err.Some? ==> files == old(files)
      ensures err.None? ==>
                && Orders(order, Checksums(sha, old(files), PackDir(name, version)))
                && files == Built(sha, old(files), PackDir(name, version), description, order)
    {
      hide Sums.PrintSums, Echo, Word, Finds, DescPath, SumsPath, PackDir, CheckSpec, Hex.Encode;
      order := [];
      err := CheckSpec(alnum, name, version, description);
      if err.Some? {
        return;
      }
      var dir := PackDir(name, version);
      ghost var sums := Checksums(sha, files, dir);
      ghost var start := files;
      MetadataIsNotFound(files, dir, description);

      files := files[DescPath(dir) := File(Echo(description))];
      if SumsPath(dir) in files && files[SumsPath(dir)].File? {
        files := files - {SumsPath(dir)};
      }
      assert files == (start - {SumsPath(dir)})[DescPath(dir) := File(Echo(description))];

      var tree := files;
      order := Glob(tree, p => Finds(tree, dir, p));
      var resources := order;
      AppendSums(sha, dir, resources, sums);
    }

    /** The while-read loop over the found resources. */
    method AppendSums(sha: Hasher, dir: string, resources: seq<string>, ghost sums: map<string, string>)
      requires SumsPath(dir) !in files
      requires forall p | p in resources ::
                 && p in files && files[p].File? && p != SumsPath(dir)
                 && p in sums && sums[p] == Hex.Encode(sha(files[p].data))
      modifies this
      ensures files == if resources == [] then old(files)
                       else old(files)[SumsPath(dir) := File(Sums.PrintSums(sums, resources))]
    {
      for i := 0 to |resources|
        invariant forall p | p in resources[..i] :: p in sums
        invariant files == if i == 0 then old(files)
                           else old(files)[SumsPath(dir) := File(Sums.PrintSums(sums, resources[..i]))]
      {
        Sums.PrintSumsStep(sums, resources, i);
        AppendTo(SumsPath(dir), Sums.SumLine(Hex.Encode(sha(files[resources[i]].data)), resources[i]));
      }
      assert resources[..|resources|] == resources;
    }

    /** The directory exists, and nothing but files is in the way of the metadata. */
    ghost predicate IsPrepared(dir: string)
      reads this
    {
      && dir in files && files[dir].Directory?
      && (DescPath(dir) in files ==> files[DescPath(dir)].File?)
      && (SumsPath(dir) in files ==> files[SumsPath(dir)].File?)
      && forall p | Finds(files, dir, p) :: Word(p) && '\\' !in p
    }
  }

  // ----- what is built is accepted -----

  lemma ChecksumsRoundTrip(sha: Hasher, files: Files, dir: string, order: seq<string>)
    requires Orders(order, Checksums(sha, files, dir))
    requires forall p | Finds(files, dir, p) :: Word(p)
    ensures Sums.Parse(Sums.PrintSums(Checksums(sha, files, dir), order)) == Some(Checksums(sha, files, dir))
  {
    var sums := Checksums(sha, files, dir);
    forall p | p in sums ensures Word(p) && Word(sums[p]) {
      Hex.EncodeIsSpaceFree(sha(files[p].data));
    }
    Sums.SumsRoundTrip(sums, order);
  }

  /** Loading reads back exactly the description and the checksums that were written. */
  lemma BuiltIsReadBack(sha: Hasher, files: Files, dir: string, description: string, order: seq<string>)
    requires Orders(order, Checksums(sha, files, dir)) && order != []
    requires forall p | Finds(files, dir, p) :: Word(p)
    ensures var after := Built(sha, files, dir, description, order);
            && Loadable(after, dir)
            && Description(after, dir) == TrimSpace(Echo(description))
            && forall p :: RecordedSum(after, dir, p)
                           == if Finds(files, dir, p) then Hex.Encode(sha(files[p].data)) else ""
  {
    hide Sums.Parse, Sums.PrintSums, TrimSpace, Echo, Dir, Base, LastSlash;
    ChecksumsRoundTrip(sha, files, dir, order);
    assert DescPath(dir) != SumsPath(dir) by {
      MetadataIsNoResource(dir, dir);
    }
  }

  lemma EncodedDigestIsIntact(sha: Hasher, files: Files, path: string)
    requires path in files && files[path].File?
    ensures Intact(sha, files, Resource(path, Hex.Encode(sha(files[path].data))))
  {
    Hex.DecodeEncode(sha(files[path].data));
  }

  /**
   What the loader wants of a pack directory that pack-build fills: with *.yaml entries, a description
   that is not blank and not an option of echo, and nothing but regular files under such names;
   without them, something for find, which also looks for other letter cases and in sub-directories.
   */
  predicate Buildable(files: Files, dir: string, description: string) {
    if HasResources(files, dir) then
      && !Blank(description) && !IsEchoOption(description)
      && forall p | p in files && IsResourcePath(dir, p) :: files[p].File?
    else exists p :: p in files && Finds(files, dir, p)
  }

  /** The loader accepts what pack-build wrote exactly when the directory is buildable. */
  lemma BuiltIsAcceptedIff(sha: Hasher, files: Files, dir: string, description: string, order: seq<string>)
    requires IsDir(files, dir)
    requires Orders(order, Checksums(sha, files, dir))
    requires forall p | Finds(files, dir, p) :: Word(p)
    ensures dir in Built(sha, files, dir, description, order)
    ensures Acceptable(sha, Built(sha, files, dir, description, order), false, dir)
            <==> Buildable(files, dir, description)
  {
    hide IsPackDir, IsResourcePath, Sums.Parse, Sums.PrintSums, Blank, IsEchoOption, TrimSpace, Intact, Finds;
    var after := Built(sha, files, dir, description, order);
    DirIsNoMetadata(dir, dir);
    BuiltKeepsResources(sha, files, dir, description, order, dir);
    EchoIsBlankIff(description);
    FoundIffOrdered(sha, files, dir, order);
    if order == [] {
      NothingFound(sha, files, dir, description, order);
    } else {
      BuiltIsReadBack(sha, files, dir, description, order);
      forall p | p in files && IsResourcePath(dir, p)
        ensures Intact(sha, after, Resource(p, RecordedSum(after, dir, p))) <==> files[p].File?
      {
        BuiltIntactIff(sha, files, dir, description, order, p);
      }
    }
  }

  lemma FoundIffOrdered(sha: Hasher, files: Files, dir: string, order: seq<string>)
    requires Orders(order, Checksums(sha, files, dir))
    ensures order != [] <==> exists p :: p in files && Finds(files, dir, p)
  {
    hide Finds;
    if order != [] {
      assert order[0] in order;
      assert order[0] in Checksums(sha, files, dir);
    }
    forall p | p in files && Finds(files, dir, p) ensures order != [] {
      assert p in Checksums(sha, files, dir);
      assert p in order;
    }
  }

  lemma NothingFound(sha: Hasher, files: Files, dir: string, description: string, order: seq<string>)
    requires Orders(order, Checksums(sha, files, dir)) && order == []
    ensures forall p | p in files && IsResourcePath(dir, p) :: !files[p].File?
    ensures !Loadable(Built(sha, files, dir, description, order), dir)
  {
    hide IsResourcePath, Finds;
    MetadataIsNoResource(dir, dir);
    FoundIffOrdered(sha, files, dir, order);
    forall p | p in files && IsResourcePath(dir, p) ensures files[p].File? ==> Finds(files, dir, p) {
      if files[p].File? { FindsEveryFile(files, dir, p); }
    }
  }

  lemma BuiltIntactIff(sha: Hasher, files: Files, dir: string, description: string, order: seq<string>, path: string)
    requires Orders(order, Checksums(sha, files, dir)) && order != []
    requires forall p | Finds(files, dir, p) :: Word(p)
    requires path in files && IsResourcePath(dir, path)
    requires Loadable(Built(sha, files, dir, description, order), dir)
    requires RecordedSum(Built(sha, files, dir, description, order), dir, path)
             == if Finds(files, dir, path) then Hex.Encode(sha(files[path].data)) else ""
    ensures Intact(sha, Built(sha, files, dir, description, order),
                   Resource(path, RecordedSum(Built(sha, files, dir, description, order), dir, path)))
            <==> files[path].File?
  {
    var after := Built(sha, files, dir, description, order);
    BuiltKeepsResources(sha, files, dir, description, order, dir);
    assert after[path] == files[path];
    if files[path].File? {
      FindsEveryFile(files, dir, path);
      EncodedDigestIsIntact(sha, after, path);
    }
  }

  lemma DirIsNoMetadata(dir: string, other: string)
    requires IsPackDir(dir) && IsPackDir(other)
    ensures other != DescPath(dir) && other != SumsPath(dir)
  {
    MetadataIsNoResource(dir, dir);
    PartsJoin(dir);
    PartsJoin(Dir(dir));
  }

  lemma BuiltKeepsResources(sha: Hasher, files: Files, dir: string, description: string, order: seq<string>,
                            other: string)
    requires Orders(order, Checksums(sha, files, dir))
    ensures var after := Built(sha, files, dir, description, order);
            && (forall p | IsResourcePath(other, p) :: p in after <==> p in files)
            && (forall p | IsResourcePath(other, p) && p in files :: after[p] == files[p])
            && (HasResources(after, other) <==> HasResources(files, other))
  {
  }

  /** Building changes the two metadata files of the pack and nothing else in the whole tree. */
  lemma BuildingChangesMetadataOnly(sha: Hasher, files: Files, dir: string, description: string, order: seq<string>)
    requires Orders(order, Checksums(sha, files, dir))
    ensures var after := Built(sha, files, dir, description, order);
            && after - {dir + "/" + "DESC", dir + "/" + "SUMS"} == files - {dir + "/" + "DESC", dir + "/" + "SUMS"}
            && dir + "/" + "DESC" in after && after[dir + "/" + "DESC"].File?
            && (!IsEchoOption(description) ==> after[dir + "/" + "DESC"].data == description + "\n")
            && (order == [] ==> dir + "/" + "SUMS" !in after)
  {
    hide Checksums, IsEchoOption, Sums.PrintSums;
    assert dir + "/" + "DESC" != dir + "/" + "SUMS" by {
      MetadataIsNoResource(dir, dir);
    }
  }

  lemma FoundEnds(files: Files, dir: string, path: string)
    requires Finds(files, dir, path)
    ensures exists stem, y, a, m, l ::
              && path == dir + "/" + stem + ['.', y, a, m, l]
              && y in {'y', 'Y'} && a in {'a', 'A'} && m in {'m', 'M'} && l in {'l', 'L'}
  {
    hide LastSlash;
    var n := |path| - 5;
    BaseEnds(path);
    assert path[|dir|] == '/';
    assert EqualFold(path[n..], ".yaml");
    Folded(path[n..]);
    var stem := path[|dir| + 1..n];
    assert path == dir + "/" + stem + ['.', path[n + 1], path[n + 2], path[n + 3], path[n + 4]];
  }

  lemma Folded(s: string)
    requires EqualFold(s, ".yaml")
    ensures |s| == 5 && s[0] == '.' && s[1] in {'y', 'Y'} && s[2] in {'a', 'A'} && s[3] in {'m', 'M'} && s[4] in {'l', 'L'}
  {
    assert forall i | 0 <= i < 5 :: FoldsTo(s[i], ".yaml"[i]);
  }

  lemma BaseEnds(path: string)
    ensures |Base(path)| <= |path| && path[|path| - |Base(path)|..] == Base(path)
    ensures |Base(path)| >= 5 ==> Base(path)[|Base(path)| - 5..] == path[|path| - 5..]
  {
  }

  lemma EndsFound(dir: string, path: string, stem: string, y: char, a: char, m: char, l: char)
    requires path == dir + "/" + stem + ['.', y, a, m, l]
    requires y in {'y', 'Y'} && a in {'a', 'A'} && m in {'m', 'M'} && l in {'l', 'L'}
    ensures dir + "/" <= path && |Base(path)| >= 5 && EqualFold(Base(path)[|Base(path)| - 5..], ".yaml")
  {
    hide Base, EqualFold;
    var ending := ['.', y, a, m, l];
    AnyCase(y, a, m, l);
    EndOf(dir + "/" + stem, ending);
    AppendAssoc(dir + "/", stem, ending);
    NoSlashAtEnd(path, 5);
    BaseEnds(path);
  }

  lemma AnyCase(y: char, a: char, m: char, l: char)
    requires y in {'y', 'Y'} && a in {'a', 'A'} && m in {'m', 'M'} && l in {'l', 'L'}
    ensures EqualFold(['.', y, a, m, l], ".yaml") && '/' !in ['.', y, a, m, l]
  {
  }

  lemma EndOf<T>(a: seq<T>, b: seq<T>)
    ensures (a + b)[|a + b| - |b|..] == b
  {
  }

  lemma NoSlashAtEnd(path: string, n: nat)
    requires n <= |path| && '/' !in path[|path| - n..]
    ensures |Base(path)| >= n
  {
    assert forall i | |path| - n <= i < |path| :: path[i] == path[|path| - n..][i - (|path| - n)];
  }

  /** The files that find lists: at any depth, with the extension in any letter case. */
  lemma FindsIff(files: Files, dir: string, path: string)
    ensures Finds(files, dir, path) <==>
            && path in files && files[path].File?
            && exists stem, y, a, m, l ::
                 && path == dir + "/" + stem + ['.', y, a, m, l]
                 && y in {'y', 'Y'} && a in {'a', 'A'} && m in {'m', 'M'} && l in {'l', 'L'}
  {
    if Finds(files, dir, path) {
      FoundEnds(files, dir, path);
    }
    if stem, y, a, m, l :|
         && path == dir + "/" + stem + ['.', y, a, m, l]
         && y in {'y', 'Y'} && a in {'a', 'A'} && m in {'m', 'M'} && l in {'l', 'L'} {
      EndsFound(dir, path, stem, y, a, m, l);
    }
  }

  /** Building one pack changes neither the set of pack directories nor how any other one is judged. */
  lemma BuildingLeavesOtherPacks(sha: Hasher, files: Files, dir: string, description: string, order: seq<string>,
                                 skipVerify: bool, other: string)
    requires IsPackDir(dir) && IsPackDir(other) && other != dir
    requires Orders(order, Checksums(sha, files, dir))
    ensures other in Built(sha, files, dir, description, order) <==> other in files
    ensures other in files ==>
              (Acceptable(sha, Built(sha, files, dir, description, order), skipVerify, other)
               <==> Acceptable(sha, files, skipVerify, other))
  {
    hide IsPackDir, IsResourcePath, Sums.Parse, Sums.PrintSums, Acceptable, HasResources;
    var after := Built(sha, files, dir, description, order);
    DirIsNoMetadata(dir, other);
    MetadataIsNoResource(dir, other);
    MetadataIsNoResource(other, other);
    BuiltKeepsResources(sha, files, dir, description, order, other);
    if other in files {
      SameJudgement(sha, files, after, skipVerify, other);
    }
  }

  /** How a pack directory is judged depends on its own entries only. */
  lemma SameJudgement(sha: Hasher, files: Files, after: Files, skipVerify: bool, dir: string)
    requires dir in files && dir in after && files[dir] == after[dir]
    requires ReadFile(after, DescPath(dir)) == ReadFile(files, DescPath(dir))
    requires ReadFile(after, SumsPath(dir)) == ReadFile(files, SumsPath(dir))
    requires forall p | IsResourcePath(dir, p) :: p in after <==> p in files
    requires forall p | IsResourcePath(dir, p) && p in files :: after[p] == files[p]
    requires HasResources(after, dir) <==> HasResources(files, dir)
    ensures Acceptable(sha, after, skipVerify, dir) <==> Acceptable(sha, files, skipVerify, dir)
  {
    if Loadable(files, dir) {
      forall p | p in files && IsResourcePath(dir, p)
        ensures Intact(sha, after, Resource(p, RecordedSum(after, dir, p)))
                <==> Intact(sha, files, Resource(p, RecordedSum(files, dir, p)))
      {
        assert after[p] == files[p];
      }
    }
  }

  // ----- building, then loading -----

  datatype BuildError = BadSpec(reason: SpecError) | NotLoaded(cause: LoadError)

  /** The pack is the one that was built, with its description and the digest of each of its resources. */
  predicate IsBuild(sha: Hasher, files: Files, name: string, version: string, description: string, p: Pack) {
    && p.name == name && p.version == version && p.baseDir == PackDir(name, version)
    && p.description == TrimSpace(description) && Distinct(p.resources)
    && (forall r | r in p.resources ::
          && r.path in files && files[r.path].File? && IsResourcePath(p.baseDir, r.path)
          && r.sha256 == Hex.Encode(sha(files[r.path].data)))
    && (forall path | path in files && IsResourcePath(p.baseDir, path) :: exists r :: r in p.resources && r.path == path)
  }

  ghost predicate OthersAcceptable(sha: Hasher, files: Files, dir: string) {
    forall d | d in files && IsPackDir(d) && d != dir :: Acceptable(sha, files, false, d)
  }

  /**
   Writes the metadata of a pack and loads the whole tree, verification included. That succeeds
   exactly for a valid spec and a buildable directory in a tree whose other packs load. The
   reconciler then finds the pack exactly when there is a *.yaml entry, with the digests of its own
   resources as checksums.
   */
  method BuildAndLoad(tree: AssetsTree, sha: Hasher, alnum: Alnum, name: string, version: string, description: string)
    returns (res: Result<Collection, BuildError>)
    requires CheckSpec(alnum, name, version, description).None? ==>
               tree.IsPrepared(PackDir(name, version)) && IsPackDir(PackDir(name, version))
    modifies tree
    ensures res.Ok? <==> && CheckSpec(alnum, name, version, description).None?
                         && Buildable(old(tree.files), PackDir(name, version), description)
                         && OthersAcceptable(sha, old(tree.files), PackDir(name, version))
    ensures res.Ok? ==>
              && res.value.files == tree.files && Faithful(res.value)
              && (PackExists(res.value.packs, name, version) <==> HasResources(old(tree.files), PackDir(name, version)))
              && (HasResources(old(tree.files), PackDir(name, version)) ==>
                    && GetPack(res.value.packs, name, version).Some?
                    && IsBuild(sha, old(tree.files), name, version, description,
                               GetPack(res.value.packs, name, version).value))
    ensures res.Err? && res.error.BadSpec? ==> tree.files == old(tree.files)
  {
    hide IsPackDir, IsResourcePath, HasResources, OthersAcceptable, Acceptable, Faithful, Buildable, IsBuild, Finds,
      Explains, Built;
    ghost var files, dir := tree.files, PackDir(name, version);
    var specErr, order := tree.WriteMetadata(sha, alnum, name, version, description);
    if specErr.Some? {
      return Err(BadSpec(specErr.value));
    }
    var loaded := New(sha, Some(tree.files), false);
    BuiltTreeLoadsIff(sha, files, dir, description, order);
    if loaded.Err? {
      return Err(NotLoaded(loaded.error));
    }
    MatchingIsPlain(alnum, name);
    MatchingIsPlain(alnum, version);
    BuiltPackIsFound(sha, files, name, version, description, order, loaded.value);
    return Ok(loaded.value);
  }

  lemma BuiltTreeLoadsIff(sha: Hasher, files: Files, dir: string, description: string, order: seq<string>)
    requires IsDir(files, dir) && Orders(order, Checksums(sha, files, dir))
    requires forall p | Finds(files, dir, p) :: Word(p)
    ensures var after := Built(sha, files, dir, description, order);
            (forall d | d in after && IsPackDir(d) :: Acceptable(sha, after, false, d))
            <==> Buildable(files, dir, description) && OthersAcceptable(sha, files, dir)
  {
    hide IsPackDir, Buildable, Acceptable, Finds, Built;
    var after := Built(sha, files, dir, description, order);
    BuiltIsAcceptedIff(sha, files, dir, description, order);
    forall d | IsPackDir(d) && d != dir
      ensures d in after <==> d in files
      ensures d in after ==> (Acceptable(sha, after, false, d) <==> Acceptable(sha, files, false, d))
    {
      BuildingLeavesOtherPacks(sha, files, dir, description, order, false, d);
    }
  }

  lemma BuiltKeepsDir(sha: Hasher, files: Files, dir: string, description: string, order: seq<string>)
    requires IsDir(files, dir) && Orders(order, Checksums(sha, files, dir))
    ensures IsDir(Built(sha, files, dir, description, order), dir)
  {
    hide IsPackDir, Finds;
    DirIsNoMetadata(dir, dir);
  }

  lemma SomethingIsFound(sha: Hasher, files: Files, dir: string, order: seq<string>)
    requires HasResources(files, dir) && Orders(order, Checksums(sha, files, dir))
    requires forall p | p in files && IsResourcePath(dir, p) :: files[p].File?
    ensures order != []
  {
    hide IsResourcePath, Finds;
    var p :| p in files && IsResourcePath(dir, p);
    FindsEveryFile(files, dir, p);
    assert p in Checksums(sha, files, dir);
  }

  lemma HeldIsBuild(sha: Hasher, files: Files, name: string, version: string, description: string, order: seq<string>,
                    p: Pack)
    requires HasResources(files, PackDir(name, version))
    requires Orders(order, Checksums(sha, files, PackDir(name, version)))
    requires forall q | Finds(files, PackDir(name, version), q) :: Word(q)
    requires forall q | q in files && IsResourcePath(PackDir(name, version), q) :: files[q].File?
    requires !IsEchoOption(description) && '/' !in name && '/' !in version
    requires Holds(Built(sha, files, PackDir(name, version), description, order), p)
    requires p.baseDir == PackDir(name, version)
    ensures IsBuild(sha, files, name, version, description, p) && p.name == name && p.version == version
  {
    hide IsResourcePath, IsEchoOption, Finds, Built, IsPackDir, Loadable, Description, RecordedSum, TrimSpace, Echo, Word;
    var dir := PackDir(name, version);
    SomethingIsFound(sha, files, dir, order);
    BuiltIsReadBack(sha, files, dir, description, order);
    BuiltKeepsResources(sha, files, dir, description, order, dir);
    EchoIsBlankIff(description);
    IsPackDirIff(name, version);
    forall q | q in files && IsResourcePath(dir, q) ensures Finds(files, dir, q) {
      FindsEveryFile(files, dir, q);
    }
  }

  lemma BuiltPackIsFound(sha: Hasher, files: Files, name: string, version: string, description: string, order: seq<string>,
                         c: Collection)
    requires IsDir(files, PackDir(name, version)) && Buildable(files, PackDir(name, version), description)
    requires Orders(order, Checksums(sha, files, PackDir(name, version)))
    requires forall p | Finds(files, PackDir(name, version), p) :: Word(p)
    requires '/' !in name && '/' !in version
    requires Faithful(c) && c.files == Built(sha, files, PackDir(name, version), description, order)
    ensures PackExists(c.packs, name, version) <==> HasResources(files, PackDir(name, version))
    ensures HasResources(files, PackDir(name, version)) ==>
              && GetPack(c.packs, name, version).Some?
              && IsBuild(sha, files, name, version, description, GetPack(c.packs, name, version).value)
  {
    hide IsResourcePath, IsEchoOption, Blank, Finds, Holds, IsBuild, Built, IsPackDir, HasResources, Word, Checksums;
    var dir := PackDir(name, version);
    BuiltKeepsResources(sha, files, dir, description, order, dir);
    BuiltKeepsDir(sha, files, dir, description, order);
    ExistsIffGet(c.packs, name, version);
    if HasResources(files, dir) {
      assert dir in BaseDirs(c.packs);
      var p :| p in c.packs && p.baseDir == dir;
      assert Holds(c.files, p);
      HeldIsBuild(sha, files, name, version, description, order, p);
      GetPackFindsEveryMember(c, p);
    } else if PackExists(c.packs, name, version) {
      var p :| p in c.packs && p.name == name && p.version == version;
      HeldHasResources(c.files, p);
    }
  }

  lemma HeldHasResources(files: Files, p: Pack)
    requires Holds(files, p)
    ensures HasResources(files, PackDir(p.name, p.version))
  {
    hide IsResourcePath, Loadable, RecordedSum, Description;
    assert p.resources[0] in p.resources;
  }
}
