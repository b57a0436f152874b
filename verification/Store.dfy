/** The ManagedResources on the API server, and the writes that change them. */
module Store {
  import opened Results
  import opened Collections
  import opened Shoots
  import opened Rendering

  /** ManagedResources by namespace and name. */
  type Objects = map<ObjectKey, Data>

  datatype Write = Apply(key: ObjectKey, data: Data) | Remove(key: ObjectKey)

  function Effect(s: Objects, w: Write): Objects {
    match w
    case Apply(key, data) => s[key := data]
    case Remove(key) => s - {key}
  }

  function Replay(s: Objects, ws: seq<Write>): Objects {
    if ws == [] then s else Effect(Replay(s, ws[..|ws| - 1]), ws[|ws| - 1])
  }

  function Lookup(s: Objects, key: ObjectKey): Option<Data> {
    if key in s then Some(s[key]) else None
  }

  lemma ReplayNone(s: Objects)
    ensures Replay(s, []) == s
  {
  }

  lemma ReplayAppend(s: Objects, ws: seq<Write>, w: Write)
    ensures Replay(s, ws + [w]) == Effect(Replay(s, ws), w)
  {
    assert (ws + [w])[..|ws|] == ws;
  }

  lemma {:induction false} ReplayConcat(s: Objects, a: seq<Write>, b: seq<Write>)
    ensures Replay(s, a + b) == Replay(Replay(s, a), b)
    decreases |b|
  {
    if b == [] {
      EmptyTail(a);
    } else {
      var init, last := b[..|b| - 1], b[|b| - 1];
      SplitLast(a, b);
      ReplayConcat(s, a, init);
      ReplayAppend(s, a + init, last);
      ReplayAppend(Replay(s, a), init, last);
    }
  }

  /** What the last write to a key says about it, if any write concerns it. */
  function Verdict(ws: seq<Write>, key: ObjectKey): Option<Option<Data>> {
    if ws == [] then None
    else
      var last := ws[|ws| - 1];
      if last.key != key then Verdict(ws[..|ws| - 1], key)
      else if last.Apply? then Some(Some(last.data)) else Some(None)
  }

  /** Replaying leaves at a key what its last write says, and what was there if there is none. */
  lemma {:induction false} LookupReplay(s: Objects, ws: seq<Write>, key: ObjectKey)
    ensures Lookup(Replay(s, ws), key) == match Verdict(ws, key) case None => Lookup(s, key) case Some(v) => v
  {
    if ws != [] {
      LookupReplay(s, ws[..|ws| - 1], key);
    }
  }

  lemma {:induction false} VerdictConcat(a: seq<Write>, b: seq<Write>, key: ObjectKey)
    ensures Verdict(a + b, key) == if Verdict(b, key).Some? then Verdict(b, key) else Verdict(a, key)
    decreases |b|
  {
    if b == [] {
      EmptyTail(a);
    } else {
      assert (a + b)[..|a + b| - 1] == a + b[..|b| - 1];
      VerdictConcat(a, b[..|b| - 1], key);
    }
  }

  /** A key that no write concerns has no verdict. */
  lemma {:induction false} VerdictNone(ws: seq<Write>, key: ObjectKey)
    ensures Verdict(ws, key) == None <==> forall i | 0 <= i < |ws| :: ws[i].key != key
  {
    if ws != [] {
      VerdictNone(ws[..|ws| - 1], key);
    }
  }

  // ----- the server -----

  datatype DeleteReply = Deleted | NotFound | Failed

  datatype Call = GetCluster(namespace: string) | GetSecret(key: ObjectKey) | Create(key: ObjectKey) | Delete(key: ObjectKey)

  /**
   The API server as the actuator sees it. Any call may fail, which is recorded; a create or delete
   that fails may still have taken effect.
   */
  class ApiServer {
    var objects: Objects
    var clusters: map<string, Shoot>
    var secrets: Secrets
    ghost var failed: seq<Call>

    constructor (objects: Objects, clusters: map<string, Shoot>, secrets: Secrets)
      ensures this.objects == objects && this.clusters == clusters && this.secrets == secrets && failed == []
    {
      this.objects, this.clusters, this.secrets, failed := objects, clusters, secrets, [];
    }

    method GetCluster(namespace: string) returns (cluster: Option<Shoot>)
      modifies this`failed
      ensures cluster.Some? ==> namespace in clusters && clusters[namespace] == cluster.value && failed == old(failed)
      ensures cluster.None? ==>
                failed == old(failed) + [Call.GetCluster(namespace)] || (failed == old(failed) && namespace !in clusters)
    {
      var up: bool := *;
      if !up {
        failed := failed + [Call.GetCluster(namespace)];
      }
      cluster := if up && namespace in clusters then Some(clusters[namespace]) else None;
    }

    method GetSecret(key: ObjectKey) returns (data: Option<SecretData>)
      modifies this`failed
      ensures data.Some? ==> key in secrets && secrets[key] == data.value && failed == old(failed)
      ensures data.None? ==>
                failed == old(failed) + [Call.GetSecret(key)] || (failed == old(failed) && key !in secrets)
    {
      var up: bool := *;
      if !up {
        failed := failed + [Call.GetSecret(key)];
      }
      data := if up && key in secrets then Some(secrets[key]) else None;
    }

    /** managedresources.CreateForShoot: creates or replaces. */
    method CreateForShoot(key: ObjectKey, data: Data) returns (ok: bool, ghost effective: bool)
      modifies this`objects, this`failed
      ensures ok ==> effective
      ensures failed == if ok then old(failed) else old(failed) + [Create(key)]
      ensures objects == if effective then Effect(old(objects), Apply(key, data)) else old(objects)
    {
      var reached: bool, answered: bool := *, *;
      if reached {
        objects := objects[key := data];
      }
      effective := reached;
      ok := reached && answered;
      if !ok {
        failed := failed + [Create(key)];
      }
    }

    /** managedresources.DeleteForShoot */
    method DeleteForShoot(key: ObjectKey) returns (reply: DeleteReply, ghost effective: bool)
      modifies this`objects, this`failed
      ensures reply != Failed ==> effective
      ensures failed == if reply == Failed then old(failed) + [Delete(key)] else old(failed)
      ensures objects == if effective then Effect(old(objects), Remove(key)) else old(objects)
      ensures reply == NotFound ==> key !in old(objects)
    {
      var reached: bool, answered: bool, strict: bool := *, *, *;
      reply := if !reached || !answered then Failed else if strict && key !in objects then NotFound else Deleted;
      if reached {
        objects := objects - {key};
      }
      effective := reached;
      if reply == Failed {
        failed := failed + [Delete(key)];
      }
    }
  }

  /** client.IgnoreNotFound */
  predicate IsError(reply: DeleteReply) {
    reply == Failed
  }
}
