/** Whole runs of operations, by any number of extensions and with any failures. */
module Runs {
  import opened Results
  import Config
  import Assets
  import opened Shoots
  import opened Rendering
  import opened Store
  import opened Plan
  import opened Outcomes
  import Actuator

  datatype Kind = Reconcile | Restore | Migrate | Delete | ForceDelete
  {
    predicate IsDeletion() {
      Delete? || ForceDelete?
    }
  }

  /** One operation that was carried out, with the objects it wrote, its error, if any, and the calls that failed. */
  datatype Event = Event(kind: Kind, inputs: Inputs, contents: seq<Data>, writes: seq<Write>, err: Option<Error>,
                         failed: seq<Call>)

  ghost predicate Permitted(e: Event) {
    && Blames(e.inputs.namespace, e.inputs.cluster, e.inputs.secrets, e.err, e.failed)
    && if e.kind.IsDeletion() then Deletes(e.inputs, e.writes, e.err)
       else Reconciles(e.inputs, e.contents, e.writes, e.err)
  }

  ghost predicate IsRun(collection: Assets.Collection, events: seq<Event>) {
    forall i | 0 <= i < |events| :: Permitted(events[i]) && events[i].inputs.collection == collection
  }

  function After(s: Objects, events: seq<Event>): Objects {
    if events == [] then s else Replay(After(s, events[..|events| - 1]), events[|events| - 1].writes)
  }

  // ----- framing -----

  lemma AllSpecsNames(packs: seq<Assets.Pack>, name: string)
    ensures IsConfigured(AllSpecs(packs), name) <==> name in PackNames(packs)
  {
    if IsConfigured(AllSpecs(packs), name) {
      var i :| 0 <= i < |packs| && AllSpecs(packs)[i].name == name;
      assert packs[i] in packs;
    }
    if name in PackNames(packs) {
      var p :| p in packs && p.name == name;
      var i :| 0 <= i < |packs| && packs[i] == p;
      assert AllSpecs(packs)[i].name == name;
    }
  }

  /** Whatever fails, an operation writes only objects named after packs of the collection. */
  lemma EventWritesWithin(e: Event)
    requires Permitted(e)
    ensures WritesWithin(e.inputs.namespace, e.inputs.collection.packs, e.writes)
  {
    if e.kind.IsDeletion() {
      DeletionWithin(e.inputs, e.writes, e.err);
    } else {
      ReconciliationWithin(e.inputs, e.contents, e.writes, e.err);
    }
  }

  lemma DeletionWithin(inp: Inputs, writes: seq<Write>, err: Option<Error>)
    requires Deletes(inp, writes, err)
    ensures WritesWithin(inp.namespace, inp.collection.packs, writes)
  {
  }

  lemma ReconciliationWithin(inp: Inputs, contents: seq<Data>, writes: seq<Write>, err: Option<Error>)
    requires Reconciles(inp, contents, writes, err)
    ensures WritesWithin(inp.namespace, inp.collection.packs, writes)
  {
    hide KeyFor, ManagedKeys, PackNames, Disabled, RendersTo, CanFail, Configured;
    if writes != [] {
      var specs := Configured(inp.tools, inp.providerConfig).value;
      var disabled := Disabled(inp.collection.packs, specs);
      forall i | 0 <= i < |contents| ensures Assets.PackExists(inp.collection.packs, specs[i].name, specs[i].version) {
        assert CanRender(inp, inp.cluster.value, specs[i], contents[i]);
        Assets.ExistsIffGet(inp.collection.packs, specs[i].name, specs[i].version);
      }
      AppliesWithin(inp.namespace, inp.collection.packs, specs, contents);
      forall i: nat | i < |disabled| ensures disabled[i].name in PackNames(inp.collection.packs) {
        DisabledInCollection(inp.collection.packs, specs, i);
      }
      RemovesWithin(inp.namespace, inp.collection.packs, disabled);
      SplitAttempt(inp, inp.cluster.value, specs, contents, writes, err);
    }
  }

  /** Objects that no operation of the run manages keep their initial content. */
  lemma {:induction false} RunKeepsForeignObjects(collection: Assets.Collection, events: seq<Event>, s: Objects, key: ObjectKey)
    requires IsRun(collection, events)
    requires forall i | 0 <= i < |events| :: key !in ManagedKeys(events[i].inputs.namespace, collection.packs)
    ensures Lookup(After(s, events), key) == Lookup(s, key)
  {
    if events != [] {
      var init, last := events[..|events| - 1], events[|events| - 1];
      hide ManagedKeys, Permitted, Replay;
      assert forall i | 0 <= i < |init| :: init[i] == events[i];
      RunKeepsForeignObjects(collection, init, s, key);
      EventWritesWithin(last);
      FrameOfWrites(last.inputs.namespace, collection.packs, last.writes, After(s, init), key);
    }
  }

  // ----- history independence -----

  /** What the run so far determines about the collection's objects in one namespace. */
  datatype Status =
    | Undetermined
    | Cleared
    | Installed(specs: seq<Config.Pack>, contents: seq<Data>)

  predicate IsHibernated(inp: Inputs) {
    inp.cluster.Some? && inp.cluster.value.hibernated
  }

  ghost function StatusAfter(e: Event): Status {
    if e.kind.IsDeletion() then Cleared
    else
      match Configured(e.inputs.tools, e.inputs.providerConfig)
      case Ok(specs) => Installed(specs, e.contents)
      case Err(_) => Undetermined
  }

  /** A success that was not skipped because of hibernation. */
  ghost predicate Decides(e: Event) {
    e.err == None && (e.kind.IsDeletion() || !IsHibernated(e.inputs))
  }

  /**
   The last operation on a namespace that decided about it. A failed one that wrote nothing does
   not matter; after a failed one that wrote something, nothing is decided.
   */
  ghost function Deciding(events: seq<Event>, ns: string): Option<Event> {
    if events == [] then None
    else
      var init, last := events[..|events| - 1], events[|events| - 1];
      if last.inputs.namespace != ns then Deciding(init, ns)
      else if Decides(last) then Some(last)
      else if last.writes == [] then Deciding(init, ns)
      else None
  }

  ghost function Track(events: seq<Event>, ns: string): Status {
    match Deciding(events, ns)
    case None => Undetermined
    case Some(e) => StatusAfter(e)
  }

  /** The operation at i decides about the namespace, and no later one touches it. */
  ghost predicate DecidesAt(events: seq<Event>, ns: string, i: nat) {
    && i < |events| && events[i].inputs.namespace == ns && Decides(events[i])
    && forall j | i < j < |events| && events[j].inputs.namespace == ns :: events[j].writes == [] && !Decides(events[j])
  }

  lemma {:induction false} DecidingIff(events: seq<Event>, ns: string, e: Event)
    ensures Deciding(events, ns) == Some(e) <==> exists i: nat :: DecidesAt(events, ns, i) && events[i] == e
  {
    if events != [] {
      var n := |events| - 1;
      var init, last := events[..n], events[n];
      hide Decides;
      DecidingIff(init, ns, e);
      if last.inputs.namespace != ns || (!Decides(last) && last.writes == []) {
        forall i: nat ensures DecidesAt(events, ns, i) <==> DecidesAt(init, ns, i) {
          DecidesBefore(events, ns, i);
        }
      } else {
        forall i: nat ensures DecidesAt(events, ns, i) <==> i == n && Decides(last) {
          assert i < n ==> events[n].inputs.namespace == ns;
        }
      }
    }
  }

  lemma DecidesBefore(events: seq<Event>, ns: string, i: nat)
    requires events != []
    requires var last := events[|events| - 1];
             last.inputs.namespace != ns || (!Decides(last) && last.writes == [])
    ensures DecidesAt(events, ns, i) <==> DecidesAt(events[..|events| - 1], ns, i)
  {
    hide Decides;
    var init := events[..|events| - 1];
    assert forall j | 0 <= j < |init| :: init[j] == events[j];
    if DecidesAt(init, ns, i) {
      assert forall j | i < j < |init| :: events[j] == init[j];
    }
  }

  /** The deciding operation is a permitted one of the run, on the namespace. */
  lemma {:induction false} DecidingIsSuccess(collection: Assets.Collection, events: seq<Event>, ns: string)
    requires IsRun(collection, events) && Deciding(events, ns).Some?
    ensures var e := Deciding(events, ns).value;
            Permitted(e) && Decides(e) && e.inputs.namespace == ns && e.inputs.collection == collection
  {
    hide Permitted, Decides;
    var init, last := events[..|events| - 1], events[|events| - 1];
    assert last == events[|events| - 1];
    if last.inputs.namespace != ns || !Decides(last) {
      assert forall i | 0 <= i < |init| :: init[i] == events[i];
      DecidingIsSuccess(collection, init, ns);
    }
  }

  ghost predicate Agrees(status: Status, packs: seq<Assets.Pack>, ns: string, s: Objects, name: string) {
    match status
    case Undetermined => true
    case Cleared => KeyFor(ns, name) !in s
    case Installed(specs, contents) =>
      |contents| == |specs| && Lookup(s, KeyFor(ns, name)) == Target(packs, specs, contents, name)
  }

  lemma DeletionRemoves(inp: Inputs, writes: seq<Write>, s: Objects, name: string)
    requires Deletes(inp, writes, None) && name in PackNames(inp.collection.packs)
    ensures KeyFor(inp.namespace, name) !in Replay(s, writes)
  {
    hide KeyFor, Replay, PackNames, Verdict;
    AllSpecsNames(inp.collection.packs, name);
    VerdictOfRemoves(inp.namespace, AllSpecs(inp.collection.packs), name);
    LookupReplay(s, writes, KeyFor(inp.namespace, name));
  }

  lemma OtherNamespace(ns1: string, ns2: string, packs: seq<Assets.Pack>, name: string)
    requires ns1 != ns2
    ensures KeyFor(ns1, name) !in ManagedKeys(ns2, packs)
  {
  }

  /** An event that determines the status establishes it, whatever the objects were before. */
  lemma DecidingEvent(e: Event, s: Objects, name: string)
    requires Permitted(e) && Decides(e) && name in PackNames(e.inputs.collection.packs)
    ensures Agrees(StatusAfter(e), e.inputs.collection.packs, e.inputs.namespace, Replay(s, e.writes), name)
  {
    hide KeyFor, Replay, PackNames, Target, ManagedKeys, Executes;
    if e.kind.IsDeletion() {
      DeletionRemoves(e.inputs, e.writes, s, name);
    } else {
      ReconcileFinalState(e.inputs, e.contents, e.writes, s);
    }
  }

  /**
   History independence. Over any run, with any failures and any operations on other namespaces
   in between, the objects under the names of the collection are what the last deciding
   operation alone determines, whatever happened before it.
   */
  lemma {:induction false} RunIsHistoryIndependent(collection: Assets.Collection, events: seq<Event>, s: Objects,
                                                   ns: string, name: string)
    requires IsRun(collection, events) && name in PackNames(collection.packs)
    ensures Agrees(Track(events, ns), collection.packs, ns, After(s, events), name)
  {
    if events != [] {
      var init, last := events[..|events| - 1], events[|events| - 1];
      hide ManagedKeys, Permitted, Replay, KeyFor, Agrees, PackNames, StatusAfter, Decides;
      assert forall i | 0 <= i < |init| :: init[i] == events[i];
      RunIsHistoryIndependent(collection, init, s, ns, name);
      if last.inputs.namespace != ns {
        EventWritesWithin(last);
        OtherNamespace(ns, last.inputs.namespace, collection.packs, name);
        FrameOfWrites(last.inputs.namespace, collection.packs, last.writes, After(s, init), KeyFor(ns, name));
        AgreesByLookup(Track(init, ns), collection.packs, ns, After(s, init), After(s, events), name);
      } else if Decides(last) {
        DecidingEvent(last, After(s, init), name);
      } else if last.writes == [] {
        ReplayNone(After(s, init));
      } else {
        NothingDetermined(collection.packs, ns, After(s, events), name);
      }
    } else {
      NothingDetermined(collection.packs, ns, s, name);
    }
  }

  lemma NothingDetermined(packs: seq<Assets.Pack>, ns: string, s: Objects, name: string)
    ensures Agrees(Undetermined, packs, ns, s, name)
  {
  }

  lemma AgreesByLookup(status: Status, packs: seq<Assets.Pack>, ns: string, s1: Objects, s2: Objects, name: string)
    requires Agrees(status, packs, ns, s1, name)
    requires Lookup(s1, KeyFor(ns, name)) == Lookup(s2, KeyFor(ns, name))
    ensures Agrees(status, packs, ns, s2, name)
  {
  }

  /** Both are deletions, or both install the same packs. */
  ghost predicate SameDecision(e1: Event, e2: Event) {
    && (e1.kind.IsDeletion() <==> e2.kind.IsDeletion())
    && (e1.kind.IsDeletion() || SameWork(e1.inputs, e2.inputs))
  }

  /** What the operation may leave under a name of the collection. */
  ghost predicate MayLeave(e: Event, name: string, v: Option<Data>) {
    if e.kind.IsDeletion() then v == None else e.inputs.cluster.Some? && MayHold(e.inputs, name, v)
  }

  lemma LeavesAllowed(e: Event, s: Objects, name: string)
    requires Permitted(e) && Decides(e) && name in PackNames(e.inputs.collection.packs)
    ensures MayLeave(e, name, Lookup(Replay(s, e.writes), KeyFor(e.inputs.namespace, name)))
  {
    hide KeyFor, Replay, PackNames, MayHold, ManagedKeys, Executes;
    if e.kind.IsDeletion() {
      DeletionRemoves(e.inputs, e.writes, s, name);
    } else {
      SuccessSettles(e.inputs, e.contents, e.writes, s);
    }
  }

  /** After a run, each name of the collection holds what the deciding operation may leave. */
  lemma RunLeavesAllowed(collection: Assets.Collection, events: seq<Event>, s: Objects, ns: string, name: string)
    requires IsRun(collection, events) && name in PackNames(collection.packs) && Deciding(events, ns).Some?
    ensures MayLeave(Deciding(events, ns).value, name, Lookup(After(s, events), KeyFor(ns, name)))
  {
    hide KeyFor, Replay, PackNames, MayLeave, Target, After, Permitted, Decides;
    var e := Deciding(events, ns).value;
    DecidingIsSuccess(collection, events, ns);
    RunIsHistoryIndependent(collection, events, s, ns, name);
    DecidingEvent(e, s, name);
    LeavesAllowed(e, s, name);
    DecisionIsDetermined(e);
    AgreeingLookups(StatusAfter(e), collection.packs, ns, After(s, events), Replay(s, e.writes), name);
  }

  lemma DecisionIsDetermined(e: Event)
    requires Permitted(e) && Decides(e)
    ensures !StatusAfter(e).Undetermined?
  {
    hide Executes;
  }

  lemma AgreeingLookups(status: Status, packs: seq<Assets.Pack>, ns: string, s1: Objects, s2: Objects, name: string)
    requires Agrees(status, packs, ns, s1, name) && Agrees(status, packs, ns, s2, name) && !status.Undetermined?
    ensures Lookup(s1, KeyFor(ns, name)) == Lookup(s2, KeyFor(ns, name))
  {
  }

  /**
   Two runs, from any two starts, whose deciding operations on a namespace decided the same: a name
   has an object after both or after neither, with contents that are renderings of one pack from the
   same inputs, and with equal contents if renderings are unique.
   */
  lemma SameDecisionSameObjects(collection: Assets.Collection, run1: seq<Event>, s1: Objects, run2: seq<Event>, s2: Objects,
                                ns: string, name: string)
    requires IsRun(collection, run1) && IsRun(collection, run2) && name in PackNames(collection.packs)
    requires Deciding(run1, ns).Some? && Deciding(run2, ns).Some?
    requires SameDecision(Deciding(run1, ns).value, Deciding(run2, ns).value)
    ensures var e := Deciding(run1, ns).value;
            var v1, v2 := Lookup(After(s1, run1), KeyFor(ns, name)), Lookup(After(s2, run2), KeyFor(ns, name));
            && MayLeave(e, name, v1) && MayLeave(e, name, v2)
            && (v1.Some? <==> v2.Some?)
            && (e.kind.IsDeletion() || UniqueRenderings(e.inputs) ==> v1 == v2)
  {
    hide IsRun, After, Deciding, KeyFor, PackNames, MayHold, UniqueRenderings, Reconciles, SameWork;
    var e1, e2 := Deciding(run1, ns).value, Deciding(run2, ns).value;
    DecidingIsSuccess(collection, run1, ns);
    DecidingIsSuccess(collection, run2, ns);
    RunLeavesAllowed(collection, run1, s1, ns, name);
    RunLeavesAllowed(collection, run2, s2, ns, name);
    if !e1.kind.IsDeletion() {
      var v1, v2 := Lookup(After(s1, run1), KeyFor(ns, name)), Lookup(After(s2, run2), KeyFor(ns, name));
      SameWorkMayHold(e1.inputs, e1.contents, e1.writes, e2.inputs, e2.contents, e2.writes, name, v2);
      MayHoldAlike(e1.inputs, name, v1, v2);
    }
  }

  // ----- carrying out a run -----

  /** An operation to carry out, and the clusters and secrets that the API server has by then. */
  datatype Request = Request(kind: Kind, extension: Actuator.Extension, clusters: map<string, Shoot>, secrets: Secrets)

  ghost predicate IsEventOf(e: Event, request: Request, tools: Toolkit) {
    && e.kind == request.kind && e.inputs.tools == tools && e.inputs.secrets == request.secrets
    && e.inputs.namespace == request.extension.namespace
    && e.inputs.providerConfig == request.extension.providerConfig
    && e.inputs.cluster == if e.inputs.namespace in request.clusters then Some(request.clusters[e.inputs.namespace]) else None
  }

  method PerformOne(actuator: Actuator.Actuator, request: Request) returns (err: Option<Error>, ghost event: Event)
    modifies actuator.client
    ensures Permitted(event) && IsEventOf(event, request, actuator.tools) && event.err == err
    ensures event.inputs.collection == actuator.collection
    ensures actuator.client.objects == Replay(old(actuator.client.objects), event.writes)
    ensures actuator.client.failed == old(actuator.client.failed) + event.failed
  {
    hide Reconciles, Deletes, Replay, Blames;
    actuator.client.clusters, actuator.client.secrets := request.clusters, request.secrets;
    ghost var contents, writes, failed := [], [], [];
    match request.kind {
      case Reconcile => err, contents, writes, failed := actuator.Reconcile(request.extension);
      case Restore => err, contents, writes, failed := actuator.Restore(request.extension);
      case Migrate => err, contents, writes, failed := actuator.Migrate(request.extension);
      case Delete => err, writes, failed := actuator.Delete(request.extension);
      case ForceDelete => err, writes, failed := actuator.ForceDelete(request.extension);
    }
    event := Event(request.kind, actuator.InputsFor(request.extension), contents, writes, err, failed);
  }

  /**
   The actuator carries out any operations, any of which may fail. What is there afterwards is what
   a run leaves: collection names as the deciding operation of their namespace determines them, and
   no change to any other object.
   */
  method Perform(actuator: Actuator.Actuator, requests: seq<Request>)
    returns (errs: seq<Option<Error>>, ghost events: seq<Event>)
    modifies actuator.client
    ensures IsRun(actuator.collection, events) && |events| == |errs| == |requests|
    ensures forall i | 0 <= i < |requests| ::
              IsEventOf(events[i], requests[i], actuator.tools) && events[i].err == errs[i]
    ensures actuator.client.objects == After(old(actuator.client.objects), events)
    ensures forall ns, name | name in PackNames(actuator.collection.packs) ::
              Agrees(Track(events, ns), actuator.collection.packs, ns, actuator.client.objects, name)
    ensures forall key | forall i | 0 <= i < |requests| ::
                           key !in ManagedKeys(requests[i].extension.namespace, actuator.collection.packs) ::
              Lookup(actuator.client.objects, key) == Lookup(old(actuator.client.objects), key)
  {
    hide Permitted, Replay, Agrees, Track, ManagedKeys, PackNames;
    errs, events := [], [];
    for i := 0 to |requests|
      invariant IsRun(actuator.collection, events) && |events| == |errs| == i
      invariant forall k | 0 <= k < i :: IsEventOf(events[k], requests[k], actuator.tools) && events[k].err == errs[k]
      invariant actuator.client.objects == After(old(actuator.client.objects), events)
    {
      var err;
      ghost var event;
      err, event := PerformOne(actuator, requests[i]);
      assert (events + [event])[..|events|] == events;
      errs, events := errs + [err], events + [event];
    }
    RunKeepsItsPromises(actuator.collection, events, old(actuator.client.objects));
  }

  lemma RunKeepsItsPromises(collection: Assets.Collection, events: seq<Event>, s: Objects)
    requires IsRun(collection, events)
    ensures forall ns, name | name in PackNames(collection.packs) ::
              Agrees(Track(events, ns), collection.packs, ns, After(s, events), name)
    ensures forall key | forall i | 0 <= i < |events| :: key !in ManagedKeys(events[i].inputs.namespace, collection.packs) ::
              Lookup(After(s, events), key) == Lookup(s, key)
  {
    hide IsRun, Agrees, Track, ManagedKeys, PackNames, After;
    forall ns, name | name in PackNames(collection.packs)
      ensures Agrees(Track(events, ns), collection.packs, ns, After(s, events), name)
    {
      RunIsHistoryIndependent(collection, events, s, ns, name);
    }
    forall key | forall i | 0 <= i < |events| :: key !in ManagedKeys(events[i].inputs.namespace, collection.packs)
      ensures Lookup(After(s, events), key) == Lookup(s, key)
    {
      RunKeepsForeignObjects(collection, events, s, key);
    }
  }
}
