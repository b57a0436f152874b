/** What failed attempts cannot damage, and why retrying converges. */
module Progress {
  import opened Results
  import Config
  import Assets
  import opened Shoots
  import opened Rendering
  import opened Store
  import opened Plan
  import opened Outcomes

  // ----- applying comes before deleting -----

  lemma {:induction false} AppliesKeepKeys(s: Objects, writes: seq<Write>)
    requires forall i | 0 <= i < |writes| :: writes[i].Apply?
    ensures s.Keys <= Replay(s, writes).Keys
  {
    if writes != [] {
      AppliesKeepKeys(s, writes[..|writes| - 1]);
    }
  }

  /**
   If an attempt fails before its deletions, no object is missing at any moment, and only objects
   of a prefix of the configured packs have changed, the pack whose create failed included.
   */
  lemma FailureBeforeDeletion(inp: Inputs, contents: seq<Data>, writes: seq<Write>, err: Error, s: Objects)
    requires Reconciles(inp, contents, writes, Some(err)) && !err.DeleteFailed?
    ensures forall n | 0 <= n <= |writes| :: s.Keys <= Replay(s, writes[..n]).Keys
    ensures writes != [] ==>
              && Configured(inp.tools, inp.providerConfig).Ok?
              && var specs := Configured(inp.tools, inp.providerConfig).value;
                 && |writes| <= |contents| <= |specs|
                 && (forall i | 0 <= i < |writes| :: writes[i] == Apply(KeyFor(inp.namespace, specs[i].name), contents[i]))
                 && (forall key | forall i | 0 <= i < |contents| :: key != KeyFor(inp.namespace, specs[i].name) ::
                       Lookup(Replay(s, writes), key) == Lookup(s, key))
  {
    hide CanRender, CanFail, KeyFor, Disabled, Replay, Configured;
    forall n | 0 <= n <= |writes| ensures s.Keys <= Replay(s, writes[..n]).Keys {
      AppliesKeepKeys(s, writes[..n]);
    }
    if writes != [] {
      var specs := Configured(inp.tools, inp.providerConfig).value;
      forall key | forall i | 0 <= i < |contents| :: key != KeyFor(inp.namespace, specs[i].name)
        ensures Lookup(Replay(s, writes), key) == Lookup(s, key)
      {
        VerdictNone(writes, key);
        LookupReplay(s, writes, key);
      }
    }
  }

  // ----- distance from the goal -----

  /** Tells for each name whether what it holds is good. */
  type Goal = (string, Option<Data>) -> bool

  /** The names of the collection whose object is not good. */
  function Off(s: Objects, ns: string, packs: seq<Assets.Pack>, good: Goal): set<string> {
    set n | n in PackNames(packs) && !good(n, Lookup(s, KeyFor(ns, n)))
  }

  /** The write leaves something good at a name of the collection. */
  ghost predicate Settles(ns: string, packs: seq<Assets.Pack>, good: Goal, w: Write) {
    exists n :: n in PackNames(packs) && w.key == KeyFor(ns, n) && good(n, if w.Apply? then Some(w.data) else None)
  }

  lemma SettlingStep(s: Objects, ns: string, packs: seq<Assets.Pack>, good: Goal, w: Write)
    requires Settles(ns, packs, good, w)
    ensures Off(Effect(s, w), ns, packs, good) <= Off(s, ns, packs, good)
  {
    hide PackNames;
    var n :| n in PackNames(packs) && w.key == KeyFor(ns, n) && good(n, if w.Apply? then Some(w.data) else None);
    forall m ensures KeyFor(ns, m) == KeyFor(ns, n) <==> m == n {
      KeyInjective(ns, m, ns, n);
    }
  }

  lemma {:induction false} SettlingRun(s: Objects, ns: string, packs: seq<Assets.Pack>, good: Goal, writes: seq<Write>,
                                       i: nat, j: nat)
    requires i <= j <= |writes|
    requires forall k | 0 <= k < |writes| :: Settles(ns, packs, good, writes[k])
    ensures Off(Replay(s, writes[..j]), ns, packs, good) <= Off(Replay(s, writes[..i]), ns, packs, good)
    decreases j
  {
    hide Off, Settles;
    if i < j {
      SettlingRun(s, ns, packs, good, writes, i, j - 1);
      assert writes[..j][..j - 1] == writes[..j - 1];
      SettlingStep(Replay(s, writes[..j - 1]), ns, packs, good, writes[j - 1]);
    }
  }

  // ----- retries reach what success leaves -----

  ghost function Allowed(inp: Inputs): Goal
    requires inp.cluster.Some?
  {
    (name, v) => MayHold(inp, name, v)
  }

  /**
   The names of the collection that are not as success leaves them: a configured pack of a single
   version without a rendering of it, or anything else under another name.
   */
  ghost function Unsettled(inp: Inputs, s: Objects): set<string>
    requires inp.cluster.Some?
  {
    Off(s, inp.namespace, inp.collection.packs, Allowed(inp))
  }

  /** Applying a rendering of a configured pack that has no other version settles its name. */
  lemma ApplySettles(inp: Inputs, i: nat, data: Data)
    requires inp.cluster.Some? && i < |ConfiguredPacks(inp)| && Config.DistinctNames(ConfiguredPacks(inp))
    requires CanRender(inp, inp.cluster.value, ConfiguredPacks(inp)[i], data)
    requires !HasOtherVersion(inp.collection.packs, ConfiguredPacks(inp)[i])
    ensures Settles(inp.namespace, inp.collection.packs, Allowed(inp),
                    Apply(KeyFor(inp.namespace, ConfiguredPacks(inp)[i].name), data))
  {
    hide KeyFor, RendersTo, Configured, HasOtherVersion;
    var spec := ConfiguredPacks(inp)[i];
    FirstIsItself(ConfiguredPacks(inp), i);
    Assets.ExistsIffGet(inp.collection.packs, spec.name, spec.version);
    assert spec.name in PackNames(inp.collection.packs);
    assert MayHold(inp, spec.name, Some(data));
  }

  /** Every removal of a reconciliation settles its name. */
  lemma RemoveSettles(inp: Inputs, i: nat)
    requires inp.cluster.Some? && Config.DistinctNames(ConfiguredPacks(inp))
    requires i < |Disabled(inp.collection.packs, ConfiguredPacks(inp))|
    ensures Settles(inp.namespace, inp.collection.packs, Allowed(inp),
                    Remove(KeyFor(inp.namespace, Disabled(inp.collection.packs, ConfiguredPacks(inp))[i].name)))
  {
    hide KeyFor, CanRender, Configured;
    var specs := ConfiguredPacks(inp);
    var name := Disabled(inp.collection.packs, specs)[i].name;
    DisabledInCollection(inp.collection.packs, specs, i);
    RemovedIff(inp.collection.packs, specs, name);
    assert MayHold(inp, name, None);
  }

  /** Every write of an attempt is one of the plan: an apply of a rendered pack or a removal. */
  lemma WritesOfAttempt(inp: Inputs, shoot: Shoot, specs: seq<Config.Pack>, contents: seq<Data>, writes: seq<Write>,
                        err: Option<Error>, k: nat)
    requires Executes(inp, shoot, specs, contents, writes, err) && k < |writes|
    ensures |contents| <= |specs|
    ensures || (k < |contents| && writes[k] == Apply(KeyFor(inp.namespace, specs[k].name), contents[k]))
            || exists i :: 0 <= i < |Disabled(inp.collection.packs, specs)|
                           && writes[k] == Remove(KeyFor(inp.namespace, Disabled(inp.collection.packs, specs)[i].name))
  {
    hide KeyFor, Disabled, CanRender, CanFail;
    SplitAttempt(inp, shoot, specs, contents, writes, err);
    assert |ApplyWrites(inp.namespace, specs, contents)| == |contents|;
    if k >= |contents| {
      var disabled := Disabled(inp.collection.packs, specs);
      assert writes[k] == RemoveWrites(inp.namespace, disabled)[k - |contents|];
      assert writes[k] == Remove(KeyFor(inp.namespace, disabled[k - |contents|].name));
    }
  }

  lemma AttemptSettles(inp: Inputs, contents: seq<Data>, writes: seq<Write>, err: Option<Error>)
    requires inp.cluster.Some? && !inp.cluster.value.hibernated
    requires SingleVersions(inp.collection.packs, ConfiguredPacks(inp))
    requires Reconciles(inp, contents, writes, err)
    ensures forall k | 0 <= k < |writes| :: Settles(inp.namespace, inp.collection.packs, Allowed(inp), writes[k])
  {
    hide Settles, KeyFor, Disabled, CanRender, HasOtherVersion, CanFail, Allowed, Config.Errors;
    var specs := ConfiguredPacks(inp);
    Config.ValidIffWellFormed(specs);
    forall k: nat | k < |writes| ensures Settles(inp.namespace, inp.collection.packs, Allowed(inp), writes[k]) {
      WritesOfAttempt(inp, inp.cluster.value, specs, contents, writes, err, k);
      if k < |contents| && writes[k] == Apply(KeyFor(inp.namespace, specs[k].name), contents[k]) {
        ApplySettles(inp, k, contents[k]);
      } else {
        var i: nat :| i < |Disabled(inp.collection.packs, specs)|
          && writes[k] == Remove(KeyFor(inp.namespace, Disabled(inp.collection.packs, specs)[i].name));
        RemoveSettles(inp, i);
      }
    }
  }

  lemma SettledIffNoneUnsettled(inp: Inputs, s: Objects)
    requires inp.cluster.Some?
    ensures Settled(inp, s) <==> Unsettled(inp, s) == {}
  {
    hide MayHold, PackNames, KeyFor;
    if Settled(inp, s) {
      assert forall n :: n !in Unsettled(inp, s);
    }
    forall n | n in PackNames(inp.collection.packs) && Unsettled(inp, s) == {}
      ensures MayHold(inp, n, Lookup(s, KeyFor(inp.namespace, n)))
    {
      assert n !in Unsettled(inp, s);
    }
  }

  /**
   Retry progress. At every moment of an attempt, failed or not, no more names are unsettled than
   at any earlier moment; a successful attempt leaves none.
   */
  lemma RetryProgress(inp: Inputs, contents: seq<Data>, writes: seq<Write>, err: Option<Error>, s: Objects, i: nat, j: nat)
    requires inp.cluster.Some? && !inp.cluster.value.hibernated
    requires SingleVersions(inp.collection.packs, ConfiguredPacks(inp))
    requires Reconciles(inp, contents, writes, err)
    requires i <= j <= |writes|
    ensures var now, before := Unsettled(inp, Replay(s, writes[..j])), Unsettled(inp, Replay(s, writes[..i]));
            now <= before && |now| <= |before|
    ensures err == None ==> Unsettled(inp, Replay(s, writes)) == {}
  {
    hide Settles, Settled, Off, Allowed, Reconciles, Replay, SingleVersions, ConfiguredPacks;
    AttemptSettles(inp, contents, writes, err);
    SettlingRun(s, inp.namespace, inp.collection.packs, Allowed(inp), writes, i, j);
    SubsetSize(Unsettled(inp, Replay(s, writes[..j])), Unsettled(inp, Replay(s, writes[..i])));
    if err == None {
      SuccessSettles(inp, contents, writes, s);
      SettledIffNoneUnsettled(inp, Replay(s, writes));
    }
  }

  lemma SubsetSize<T>(a: set<T>, b: set<T>)
    requires a <= b
    ensures |a| <= |b|
  {
    assert b == a + (b - a);
  }

  datatype Attempt = Attempt(contents: seq<Data>, writes: seq<Write>, err: Option<Error>)

  function AfterAttempts(s: Objects, attempts: seq<Attempt>): Objects {
    if attempts == [] then s
    else Replay(AfterAttempts(s, attempts[..|attempts| - 1]), attempts[|attempts| - 1].writes)
  }

  /**
   A run of retries with the same configuration unsettles no name, and from the first success on
   every name is settled, whatever later attempts fail.
   */
  lemma {:induction false} RetryRun(inp: Inputs, attempts: seq<Attempt>, s: Objects)
    requires inp.cluster.Some? && !inp.cluster.value.hibernated
    requires SingleVersions(inp.collection.packs, ConfiguredPacks(inp))
    requires forall k | 0 <= k < |attempts| ::
               Reconciles(inp, attempts[k].contents, attempts[k].writes, attempts[k].err)
    ensures Unsettled(inp, AfterAttempts(s, attempts)) <= Unsettled(inp, s)
    ensures (exists k :: 0 <= k < |attempts| && attempts[k].err == None) ==>
              Unsettled(inp, AfterAttempts(s, attempts)) == {}
  {
    hide Unsettled, Reconciles, Replay, SingleVersions, ConfiguredPacks;
    if attempts != [] {
      var init, last := attempts[..|attempts| - 1], attempts[|attempts| - 1];
      assert forall k | 0 <= k < |init| :: init[k] == attempts[k];
      RetryRun(inp, init, s);
      RetryProgress(inp, last.contents, last.writes, last.err, AfterAttempts(s, init), 0, |last.writes|);
      assert last.writes[..|last.writes|] == last.writes && last.writes[..0] == [];
      ReplayNone(AfterAttempts(s, init));
    }
  }

  // ----- a fixed goal -----

  function Reached(packs: seq<Assets.Pack>, specs: seq<Config.Pack>, goal: seq<Data>): Goal
    requires |goal| == |specs|
  {
    (name, v) => v == Target(packs, specs, goal, name)
  }

  /** The names of the collection that differ from fixed contents of the configured packs. */
  function Wrong(s: Objects, ns: string, packs: seq<Assets.Pack>, specs: seq<Config.Pack>, goal: seq<Data>): set<string>
    requires |goal| == |specs|
  {
    Off(s, ns, packs, Reached(packs, specs, goal))
  }

  /** Contents that are the only renderings of the configured packs. */
  ghost predicate OnlyRenderings(inp: Inputs, goal: seq<Data>)
    requires inp.cluster.Some?
  {
    && |goal| == |ConfiguredPacks(inp)|
    && forall i, d | 0 <= i < |goal| && CanRender(inp, inp.cluster.value, ConfiguredPacks(inp)[i], d) :: d == goal[i]
  }

  lemma MayHoldOnlyTarget(inp: Inputs, goal: seq<Data>, name: string, v: Option<Data>)
    requires inp.cluster.Some? && OnlyRenderings(inp, goal) && MayHold(inp, name, v)
    ensures v == Target(inp.collection.packs, ConfiguredPacks(inp), goal, name)
  {
    hide CanRender, ConfiguredPacks, HasOtherVersion;
  }

  /** When each pack has one rendering, retries move towards it alone and success reaches it. */
  lemma RetryProgressToGoal(inp: Inputs, goal: seq<Data>, contents: seq<Data>, writes: seq<Write>, err: Option<Error>,
                            s: Objects, i: nat, j: nat)
    requires inp.cluster.Some? && !inp.cluster.value.hibernated
    requires SingleVersions(inp.collection.packs, ConfiguredPacks(inp)) && OnlyRenderings(inp, goal)
    requires Reconciles(inp, contents, writes, err)
    requires i <= j <= |writes|
    ensures Wrong(Replay(s, writes[..j]), inp.namespace, inp.collection.packs, ConfiguredPacks(inp), goal)
            <= Wrong(Replay(s, writes[..i]), inp.namespace, inp.collection.packs, ConfiguredPacks(inp), goal)
    ensures err == None ==> Wrong(Replay(s, writes), inp.namespace, inp.collection.packs, ConfiguredPacks(inp), goal) == {}
  {
    hide Reconciles, Replay, SingleVersions, ConfiguredPacks, MayHold, CanRender, Target, KeyFor, PackNames;
    var packs, good := inp.collection.packs, Reached(inp.collection.packs, ConfiguredPacks(inp), goal);
    forall name, v | MayHold(inp, name, v) ensures good(name, v) {
      MayHoldOnlyTarget(inp, goal, name, v);
    }
    AttemptSettles(inp, contents, writes, err);
    forall k | 0 <= k < |writes| ensures Settles(inp.namespace, packs, good, writes[k]) {
      assert Settles(inp.namespace, packs, Allowed(inp), writes[k]);
    }
    SettlingRun(s, inp.namespace, packs, good, writes, i, j);
    if err == None {
      SuccessSettles(inp, contents, writes, s);
    }
  }

  lemma PlanSettles(inp: Inputs, specs: seq<Config.Pack>, goal: seq<Data>, k: nat)
    requires |goal| == |specs| && Config.DistinctNames(specs) && InCollection(inp.collection.packs, specs)
    requires SingleVersions(inp.collection.packs, specs) && k < |FullPlan(inp, specs, goal)|
    ensures Settles(inp.namespace, inp.collection.packs, Reached(inp.collection.packs, specs, goal),
                    FullPlan(inp, specs, goal)[k])
  {
    hide KeyFor, HasOtherVersion, Disabled;
    var packs, disabled := inp.collection.packs, Disabled(inp.collection.packs, specs);
    if k < |specs| {
      assert FullPlan(inp, specs, goal)[k] == Apply(KeyFor(inp.namespace, specs[k].name), goal[k]);
      FirstIsItself(specs, k);
      NameInCollection(packs, specs, k);
      assert !HasOtherVersion(packs, specs[k]);
      assert Target(packs, specs, goal, specs[k].name) == Some(goal[k]);
    } else {
      assert FullPlan(inp, specs, goal)[k] == Remove(KeyFor(inp.namespace, disabled[k - |specs|].name));
      var name := disabled[k - |specs|].name;
      assert IsConfigured(disabled, name);
      DisabledInCollection(packs, specs, k - |specs|);
      RemovedIff(packs, specs, name);
      assert Target(packs, specs, goal, name) == None;
    }
  }

  /**
   Single versions are exactly what makes progress monotone: with another version of a configured
   pack in the collection, some start makes the full plan pass through a worse state.
   */
  lemma MonotoneIffSingleVersions(inp: Inputs, specs: seq<Config.Pack>, goal: seq<Data>)
    requires |goal| == |specs| && Config.DistinctNames(specs) && InCollection(inp.collection.packs, specs)
    ensures (forall s: Objects, i, j | 0 <= i <= j <= |FullPlan(inp, specs, goal)| ::
               Wrong(Replay(s, FullPlan(inp, specs, goal)[..j]), inp.namespace, inp.collection.packs, specs, goal)
               <= Wrong(Replay(s, FullPlan(inp, specs, goal)[..i]), inp.namespace, inp.collection.packs, specs, goal))
            <==> SingleVersions(inp.collection.packs, specs)
  {
    hide Off, Replay, Disabled, KeyFor, HasOtherVersion, Settles, Reached;
    var plan, good := FullPlan(inp, specs, goal), Reached(inp.collection.packs, specs, goal);
    if SingleVersions(inp.collection.packs, specs) {
      forall k: nat | k < |plan| ensures Settles(inp.namespace, inp.collection.packs, good, plan[k]) {
        PlanSettles(inp, specs, goal, k);
      }
      forall s: Objects, i: nat, j: nat | i <= j <= |plan|
        ensures Wrong(Replay(s, plan[..j]), inp.namespace, inp.collection.packs, specs, goal)
                <= Wrong(Replay(s, plan[..i]), inp.namespace, inp.collection.packs, specs, goal)
      {
        SettlingRun(s, inp.namespace, inp.collection.packs, good, plan, i, j);
      }
    } else {
      var i: nat :| i < |specs| && HasOtherVersion(inp.collection.packs, specs[i]);
      DetourThroughWorse(inp, specs, goal, i);
      assert 0 <= 0 <= |specs| <= |plan|;
    }
  }

  lemma DetourThroughWorse(inp: Inputs, specs: seq<Config.Pack>, goal: seq<Data>, i: nat)
    requires |goal| == |specs| && Config.DistinctNames(specs) && InCollection(inp.collection.packs, specs)
    requires i < |specs| && HasOtherVersion(inp.collection.packs, specs[i])
    ensures specs[i].name !in Wrong(Replay(map[], FullPlan(inp, specs, goal)[..0]), inp.namespace,
                                    inp.collection.packs, specs, goal)
    ensures specs[i].name in Wrong(Replay(map[], FullPlan(inp, specs, goal)[..|specs|]), inp.namespace,
                                   inp.collection.packs, specs, goal)
  {
    hide KeyFor, HasOtherVersion, Disabled, Verdict;
    var plan, applies := FullPlan(inp, specs, goal), ApplyWrites(inp.namespace, specs, goal);
    assert plan[..0] == [] && plan[..|specs|] == applies;
    NameInCollection(inp.collection.packs, specs, i);
    FirstIsItself(specs, i);
    LookupReplay(map[], applies, KeyFor(inp.namespace, specs[i].name));
    VerdictOfApplies(inp.namespace, specs, goal, specs[i].name);
  }
}
