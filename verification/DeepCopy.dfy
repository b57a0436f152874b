/** Copying a provider configuration, whose slices and selectors are shared by reference. */
module DeepCopy {
  import opened Results
  import Config

  class SelectorCell {
    var value: Config.Selector

    constructor (value: Config.Selector)
      ensures this.value == value
    {
      this.value := value;
    }
  }

  datatype PatchSpec = PatchSpec(resourceRef: string, target: SelectorCell?)

  /** A slice is a backing array, or nil. */
  datatype Pack = Pack(name: string, version: string, patches: array?<PatchSpec>)

  datatype PackConfigSpec = PackConfigSpec(packs: array?<Pack>)

  datatype TypeMeta = TypeMeta(kind: string, apiVersion: string)

  datatype PackConfig = PackConfig(typeMeta: TypeMeta, spec: PackConfigSpec)

  // ----- the value that a structure stands for; nil and empty slices differ -----

  datatype Slice<T> = Nil | Items(items: seq<T>)

  datatype PatchValue = PatchValue(resourceRef: string, target: Option<Config.Selector>)

  datatype PackValue = PackValue(name: string, version: string, patches: Slice<PatchValue>)

  ghost function PatchValueOf(p: PatchSpec): PatchValue
    reads p.target
  {
    PatchValue(p.resourceRef, if p.target == null then None else Some(p.target.value))
  }

  /** The selectors that patch specifications point to. */
  ghost function Targets(ps: seq<PatchSpec>): set<object> {
    set p | p in ps && p.target != null :: p.target as object
  }

  ghost function PatchValues(ps: seq<PatchSpec>): seq<PatchValue>
    reads Targets(ps)
  {
    seq(|ps|, i requires 0 <= i < |ps| reads Targets(ps) => PatchValueOf(ps[i]))
  }

  /** The cells that can be written through a pack: its patch array and its selectors. */
  ghost function PackCells(p: Pack): set<object>
    reads p.patches
  {
    if p.patches == null then {} else {p.patches} + Targets(p.patches[..])
  }

  ghost function PackValueOf(p: Pack): PackValue
    reads p.patches, PackCells(p)
  {
    PackValue(p.name, p.version, if p.patches == null then Nil else Items(PatchValues(p.patches[..])))
  }

  /** The patch arrays that packs point to. */
  ghost function Arrays(ps: seq<Pack>): set<object> {
    set p | p in ps && p.patches != null :: p.patches as object
  }

  ghost function Cells(ps: seq<Pack>): set<object>
    reads Arrays(ps)
  {
    Arrays(ps) + set p, o | p in ps && o in PackCells(p) :: o
  }

  ghost function PackValues(ps: seq<Pack>): seq<PackValue>
    reads Arrays(ps), Cells(ps)
  {
    seq(|ps|, i requires 0 <= i < |ps| reads Arrays(ps), Cells(ps) => PackValueOf(ps[i]))
  }

  /** The cells that can be written through a configuration, at any depth. */
  ghost function SpecCells(s: PackConfigSpec): set<object>
    reads s.packs, if s.packs == null then {} else Arrays(s.packs[..])
  {
    if s.packs == null then {} else {s.packs} + Cells(s.packs[..])
  }

  ghost function SpecValueOf(s: PackConfigSpec): Slice<PackValue>
    reads s.packs, if s.packs == null then {} else Arrays(s.packs[..]), SpecCells(s)
  {
    if s.packs == null then Nil else Items(PackValues(s.packs[..]))
  }

  lemma SamePatchValues(a: seq<PatchSpec>, b: seq<PatchSpec>)
    requires |a| == |b| && forall k | 0 <= k < |a| :: PatchValueOf(a[k]) == PatchValueOf(b[k])
    ensures PatchValues(a) == PatchValues(b)
  {
  }

  lemma SamePackValues(a: seq<Pack>, b: seq<Pack>)
    requires |a| == |b| && forall k | 0 <= k < |a| :: PackValueOf(a[k]) == PackValueOf(b[k])
    ensures PackValues(a) == PackValues(b)
  {
  }

  /** Equal selectors, or none in both. */
  ghost predicate SameTarget(a: SelectorCell?, b: SelectorCell?)
    reads a, b
  {
    (a == null <==> b == null) && (a != null && b != null ==> a.value == b.value)
  }

  /** Packs of equal value have equal parts, down to each selector. */
  lemma EqualPacksEqualParts(p: Pack, q: Pack)
    requires PackValueOf(p) == PackValueOf(q)
    ensures p.name == q.name && p.version == q.version && (p.patches == null <==> q.patches == null)
    ensures p.patches != null && q.patches != null ==>
              && p.patches.Length == q.patches.Length
              && forall k | 0 <= k < p.patches.Length ::
                   p.patches[k].resourceRef == q.patches[k].resourceRef && SameTarget(p.patches[k].target, q.patches[k].target)
  {
    if p.patches != null {
      var ps, qs := PatchValues(p.patches[..]), PatchValues(q.patches[..]);
      assert ps == qs;
      forall k | 0 <= k < p.patches.Length
        ensures p.patches[k].resourceRef == q.patches[k].resourceRef && SameTarget(p.patches[k].target, q.patches[k].target)
      {
        assert ps[k] == PatchValueOf(p.patches[k]) && qs[k] == PatchValueOf(q.patches[k]);
      }
    }
  }

  /** So do whole configurations, pack by pack. */
  lemma EqualSpecsEqualParts(s: PackConfigSpec, t: PackConfigSpec)
    requires SpecValueOf(s) == SpecValueOf(t)
    ensures s.packs == null <==> t.packs == null
    ensures s.packs != null && t.packs != null ==>
              && s.packs.Length == t.packs.Length
              && forall i | 0 <= i < s.packs.Length :: PackValueOf(s.packs[i]) == PackValueOf(t.packs[i])
  {
    hide PackValueOf;
    if s.packs != null {
      var ps, qs := PackValues(s.packs[..]), PackValues(t.packs[..]);
      assert ps == qs;
      forall i | 0 <= i < s.packs.Length ensures PackValueOf(s.packs[i]) == PackValueOf(t.packs[i]) {
        assert ps[i] == PackValueOf(s.packs[i]) && qs[i] == PackValueOf(t.packs[i]);
      }
    }
  }

  // ----- copying -----

  method PatchSpecDeepCopyInto(src: PatchSpec, out: array<PatchSpec>, i: nat)
    requires i < out.Length
    modifies out
    ensures forall k | 0 <= k < out.Length && k != i :: out[k] == old(out[k])
    ensures PatchValueOf(out[i]) == PatchValueOf(src)
    ensures out[i].target != null ==> fresh(out[i].target)
  {
    out[i] := src;
    if src.target != null {
      var cell := new SelectorCell(src.target.value);
      out[i] := out[i].(target := cell);
    }
  }

  method PackDeepCopy(src: Pack) returns (out: Pack)
    ensures PackValueOf(out) == PackValueOf(src)
    ensures fresh(PackCells(out))
  {
    out := src;
    if src.patches != null {
      var patches := new PatchSpec[src.patches.Length](_ => PatchSpec("", null));
      for i := 0 to src.patches.Length
        invariant fresh(patches) && patches.Length == src.patches.Length
        invariant forall k | 0 <= k < i :: PatchValueOf(patches[k]) == PatchValueOf(src.patches[k])
        invariant forall k | 0 <= k < i && patches[k].target != null :: fresh(patches[k].target)
      {
        PatchSpecDeepCopyInto(src.patches[i], patches, i);
      }
      SamePatchValues(patches[..], src.patches[..]);
      out := out.(patches := patches);
    }
  }

  /** Writing elsewhere does not show in a pack. */
  twostate lemma PackStays(p: Pack)
    requires forall o: object | o in old(PackCells(p)) :: unchanged(o)
    ensures PackCells(p) == old(PackCells(p)) && PackValueOf(p) == old(PackValueOf(p))
  {
  }

  method PackDeepCopyInto(src: Pack, out: array<Pack>, i: nat)
    requires i < out.Length && out !in PackCells(src)
    modifies out
    ensures forall k | 0 <= k < out.Length && k != i :: out[k] == old(out[k])
    ensures PackValueOf(out[i]) == PackValueOf(src) == old(PackValueOf(src))
    ensures fresh(PackCells(out[i])) && out !in PackCells(out[i])
  {
    var pack := PackDeepCopy(src);
    hide PackValueOf;
    label copied:
    out[i] := pack;
    PackStays@copied(pack);
    PackStays(src);
  }

  /** The slice of packs: a new array, each element copied in turn. */
  method CopyPacks(src: array<Pack>) returns (packs: array<Pack>)
    ensures fresh(packs) && packs.Length == src.Length
    ensures forall k | 0 <= k < packs.Length :: PackValueOf(packs[k]) == PackValueOf(src[k])
    ensures forall k | 0 <= k < packs.Length :: fresh(PackCells(packs[k]))
  {
    hide PackValueOf;
    packs := new Pack[src.Length](_ => Pack("", "", null));
    forall k | 0 <= k < src.Length
      ensures PackCells(src[k]) == old(PackCells(src[k])) && PackValueOf(src[k]) == old(PackValueOf(src[k]))
    {
      PackStays(src[k]);
    }
    for i := 0 to src.Length
      invariant forall k | 0 <= k < src.Length :: PackCells(src[k]) == old(PackCells(src[k]))
      invariant forall k | 0 <= k < src.Length :: PackValueOf(src[k]) == old(PackValueOf(src[k]))
      invariant forall k | 0 <= k < i :: PackValueOf(packs[k]) == PackValueOf(src[k])
      invariant forall k | 0 <= k < i :: fresh(PackCells(packs[k])) && packs !in PackCells(packs[k])
    {
      ghost var done := packs[..i];
      assert forall k | 0 <= k < i :: done[k] == packs[k];
      label before:
      PackDeepCopyInto(src[i], packs, i);
      forall k | 0 <= k < src.Length
        ensures PackCells(src[k]) == old(PackCells(src[k])) && PackValueOf(src[k]) == old(PackValueOf(src[k]))
      {
        PackStays(src[k]);
      }
      forall k | 0 <= k < i
        ensures PackCells(done[k]) == old@before(PackCells(done[k]))
                && PackValueOf(done[k]) == old@before(PackValueOf(done[k]))
      {
        PackStays@before(done[k]);
      }
      assert forall k | 0 <= k < i :: packs[k] == done[k];
    }
  }

  method PackConfigSpecDeepCopy(src: PackConfigSpec) returns (out: PackConfigSpec)
    ensures SpecValueOf(out) == SpecValueOf(src)
    ensures fresh(SpecCells(out)) && SpecCells(out) !! SpecCells(src)
  {
    hide PackValueOf, PackValues;
    out := src;
    if src.packs != null {
      var packs := CopyPacks(src.packs);
      SamePackValues(packs[..], src.packs[..]);
      CellsOfElements(packs[..]);
      out := PackConfigSpec(packs);
    }
    WritesElsewhereDoNotShow(src);
  }

  lemma CellsOfElements(ps: seq<Pack>)
    ensures forall o | o in Cells(ps) :: exists k :: 0 <= k < |ps| && o in PackCells(ps[k])
  {
  }

  method PackConfigDeepCopy(src: PackConfig) returns (out: PackConfig)
    ensures out.typeMeta == src.typeMeta
    ensures SpecValueOf(out.spec) == SpecValueOf(src.spec)
    ensures fresh(SpecCells(out.spec)) && SpecCells(out.spec) !! SpecCells(src.spec)
  {
    var spec := PackConfigSpecDeepCopy(src.spec);
    out := src.(spec := spec);
  }

  /**
   Writing only cells that a configuration does not reach leaves its cells and its value alone.
   With the disjointness of copy and source, later writes through either never show in the other.
   */
  twostate lemma WritesElsewhereDoNotShow(s: PackConfigSpec)
    requires forall o: object | o in old(SpecCells(s)) :: unchanged(o)
    ensures SpecCells(s) == old(SpecCells(s)) && SpecValueOf(s) == old(SpecValueOf(s))
  {
  }
}
