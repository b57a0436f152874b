/** What the extension reads about a shoot cluster, and the errors it reports. */
module Shoots {
  import Config

  datatype ObjectKey = ObjectKey(namespace: string, name: string)

  /** The contents of a secret by key. Kubernetes keeps slashes out of keys and names. */
  type SecretData = map<string, string>

  type Secrets = map<ObjectKey, SecretData>

  datatype NamedReference = NamedReference(name: string, kind: string, apiVersion: string)

  datatype Shoot = Shoot(hibernated: bool, resources: seq<NamedReference>)

  predicate IsSecretRef(item: NamedReference, ref: string) {
    item.name == ref && item.kind == "Secret" && item.apiVersion == "v1"
  }

  predicate HasSecretRef(resources: seq<NamedReference>, ref: string) {
    exists i :: 0 <= i < |resources| && IsSecretRef(resources[i], ref)
  }

  lemma SecretRefIff(resources: seq<NamedReference>, ref: string)
    ensures HasSecretRef(resources, ref) <==> NamedReference(ref, "Secret", "v1") in resources
  {
    if HasSecretRef(resources, ref) {
      var i :| 0 <= i < |resources| && IsSecretRef(resources[i], ref);
      assert resources[i] == NamedReference(ref, "Secret", "v1");
    }
    if NamedReference(ref, "Secret", "v1") in resources {
      var i :| 0 <= i < |resources| && resources[i] == NamedReference(ref, "Secret", "v1");
      assert IsSecretRef(resources[i], ref);
    }
  }

  /** slices.IndexFunc for a referenced secret */
  method IndexOfSecretRef(resources: seq<NamedReference>, ref: string) returns (idx: int)
    ensures -1 <= idx < |resources|
    ensures idx == -1 <==> !HasSecretRef(resources, ref)
    ensures idx == -1 ==> NamedReference(ref, "Secret", "v1") !in resources
    ensures idx >= 0 ==> resources[idx] == NamedReference(ref, "Secret", "v1")
                         && NamedReference(ref, "Secret", "v1") !in resources[..idx]
  {
    for i := 0 to |resources|
      invariant forall j | 0 <= j < i :: !IsSecretRef(resources[j], ref)
    {
      var item := resources[i];
      if item.name == ref && item.kind == "Secret" && item.apiVersion == "v1" {
        return i;
      }
    }
    return -1;
  }

  datatype Error =
    // the provider configuration is wrong
    | NoProviderConfig
    | DecodeFailed
    | InvalidConfig(errs: seq<Config.FieldError>)
    | UnknownPack(name: string, version: string)
    | UnknownRef(ref: string)
    // rendering a pack fails
    | UnreadableResource(path: string)
    | MarshalFailed
    | KustomizeFailed
    | LabelsRejected(idx: nat)
    | YamlFailed(idx: nat)
    | SerializeFailed
    // a call to the API server fails
    | ClusterUnavailable
    | SecretUnavailable(ref: string)
    | CreateFailed(key: ObjectKey)
    | DeleteFailed(key: ObjectKey)
  {
    predicate IsConfigError() {
      NoProviderConfig? || DecodeFailed? || InvalidConfig? || UnknownPack? || UnknownRef?
    }
  }
}
