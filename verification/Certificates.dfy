// CA key pairs: looked up as secrets, generated when missing, created at most once.
module Certificates {
  import opened Calls
  import opened Options

  type Bytes = string

  datatype KeyPair = KeyPair(cert: Bytes, key: Bytes)

  datatype Purpose = ClusterCA | ClientClusterCA | EtcdCA | ServiceAccount | APIServerEtcdClient

  const TLS_CRT := "tls.crt"
  const TLS_KEY := "tls.key"

  type Secret = map<string, Bytes>

  function AsSecret(pair: KeyPair): Secret { map[TLS_KEY := pair.key, TLS_CRT := pair.cert] }

  /** A missing key is read as empty; a missing certificate makes the secret unusable. */
  function SecretToKeyPair(s: Secret): Option<KeyPair> {
    if TLS_CRT !in s then None
    else Some(KeyPair(s[TLS_CRT], if TLS_KEY in s then s[TLS_KEY] else ""))
  }

  ghost predicate Extends(before: map<Purpose, Secret>, after: map<Purpose, Secret>) {
    forall p | p in before :: p in after && after[p] == before[p]
  }

  datatype GetResult = Found(secret: Secret) | NotFound | GetFailed

  /** The CA secrets of one cluster, by purpose. Any number of other runs create secrets between two
      calls of this run; nobody updates or deletes one. */
  class SecretStore {
    const reliable: bool          // no call fails, reads are current, and no other run interferes
    var secrets: map<Purpose, Secret>

    method Interfere()
      modifies this
      ensures Extends(old(secrets), secrets)
      ensures reliable ==> secrets == old(secrets)
    {
      var created: map<Purpose, Secret> := *;
      if !reliable {
        secrets := created + secrets;
      }
    }

    /** Reads may lag behind: an existing secret may still be reported missing. */
    method Get(p: Purpose) returns (r: GetResult)
      modifies this
      ensures Extends(old(secrets), secrets)
      ensures r.Found? ==> p in secrets && secrets[p] == r.secret
      ensures reliable ==> secrets == old(secrets) && r == if p in secrets then Found(secrets[p]) else NotFound
    {
      Interfere();
      var failed := ApiFails(reliable);
      var lags := ApiFails(reliable);
      r := if failed then GetFailed else if p !in secrets || lags then NotFound else Found(secrets[p]);
    }

    /** Fails when the secret exists by then, or for any other reason. */
    method Create(p: Purpose, s: Secret) returns (err: bool)
      modifies this
      ensures Extends(old(secrets), secrets)
      ensures !err ==> p !in old(secrets) && p in secrets && secrets[p] == s
      ensures reliable ==> if p in old(secrets) then err && secrets == old(secrets)
                           else !err && secrets == old(secrets)[p := s]
    {
      Interfere();
      var failed := ApiFails(reliable);
      err := failed || p in secrets;
      if !err {
        secrets := secrets[p := s];
      }
    }
  }

  class Certificate {
    const purpose: Purpose
    const external: bool
    var keyPair: Option<KeyPair>
    var generated: bool

    constructor (purpose: Purpose, external: bool)
      ensures this.purpose == purpose && this.external == external
      ensures keyPair == None && !generated
    {
      this.purpose, this.external, keyPair, generated := purpose, external, None, false;
    }

    method Generate(reliable: bool) returns (err: bool)
      modifies this
      ensures reliable ==> !err
      ensures purpose == APIServerEtcdClient ==> !err && keyPair == old(keyPair) && generated == old(generated)
      ensures !err && purpose != APIServerEtcdClient ==> keyPair.Some? && generated
      ensures err ==> keyPair == old(keyPair) && generated == old(generated)
    {
      if purpose == APIServerEtcdClient {
        return false;
      }
      err := ApiFails(reliable);
      if !err {
        var pair: KeyPair := *;
        keyPair, generated := Some(pair), true;
      }
    }
  }

  /** The certificate holds exactly the pair that is stored for its purpose. */
  ghost predicate Agrees(c: Certificate, secrets: map<Purpose, Secret>)
    reads c
  {
    c.keyPair.Some? && c.purpose in secrets && SecretToKeyPair(secrets[c.purpose]) == c.keyPair
  }

  ghost predicate Blank(c: Certificate)
    reads c
  {
    c.keyPair == None && !c.generated
  }

  ghost predicate Distinct(certificates: seq<Certificate>) {
    forall i, j | 0 <= i < j < |certificates| :: certificates[i] != certificates[j]
  }

  /** What is stored for the certificate can be used; nothing being stored is an error only for external ones. */
  predicate Usable(c: Certificate, secrets: map<Purpose, Secret>) {
    if c.purpose in secrets then SecretToKeyPair(secrets[c.purpose]).Some? else !c.external
  }

  ghost predicate DistinctPurposes(certificates: seq<Certificate>) {
    forall i, j | 0 <= i < j < |certificates| :: certificates[i].purpose != certificates[j].purpose
  }

  method Lookup(certificates: seq<Certificate>, store: SecretStore) returns (err: bool)
    requires Distinct(certificates) && forall c | c in certificates :: Blank(c)
    modifies store, certificates
    ensures Extends(old(store.secrets), store.secrets)
    ensures forall c | c in certificates :: !c.generated && (c.keyPair.Some? ==> Agrees(c, store.secrets))
    ensures store.reliable ==>
              && store.secrets == old(store.secrets)
              && (err <==> exists c | c in certificates :: !Usable(c, store.secrets))
    ensures store.reliable && !err ==> forall c | c in certificates :: c.keyPair.Some? <==> c.purpose in store.secrets
  {
    for i := 0 to |certificates|
      invariant Extends(old(store.secrets), store.secrets)
      invariant forall c | c in certificates :: !c.generated && (c.keyPair.Some? ==> Agrees(c, store.secrets))
      invariant store.reliable ==> store.secrets == old(store.secrets)
      invariant store.reliable ==> forall j | 0 <= j < i ::
          Usable(certificates[j], store.secrets)
          && (certificates[j].purpose in store.secrets ==> certificates[j].keyPair.Some?)
    {
      var c := certificates[i];
      var r := store.Get(c.purpose);
      match r {
        case GetFailed => return true;
        case NotFound =>
          if c.external {
            return true;
          }
        case Found(s) =>
          var pair := SecretToKeyPair(s);
          if pair == None {
            return true;
          }
          c.keyPair := pair;
      }
    }
    err := false;
  }

  method GenerateMissing(certificates: seq<Certificate>, reliable: bool) returns (err: bool)
    requires Distinct(certificates) && forall c | c in certificates :: !c.generated
    modifies certificates
    ensures forall c | c in certificates && old(c.keyPair).Some? :: c.keyPair == old(c.keyPair) && !c.generated
    ensures forall c | c in certificates && c.purpose == APIServerEtcdClient ::
              c.keyPair == old(c.keyPair) && !c.generated
    ensures !err ==> forall c | c in certificates && old(c.keyPair).None? && c.purpose != APIServerEtcdClient ::
                       c.keyPair.Some? && c.generated
    ensures forall c | c in certificates && c.generated :: old(c.keyPair).None? && c.keyPair.Some?
    ensures reliable ==> !err
  {
    for i := 0 to |certificates|
      invariant forall c | c in certificates && old(c.keyPair).Some? :: c.keyPair == old(c.keyPair) && !c.generated
      invariant forall c | c in certificates && c.purpose == APIServerEtcdClient ::
                c.keyPair == old(c.keyPair) && !c.generated
      invariant forall c | c in certificates[..i] && old(c.keyPair).None? && c.purpose != APIServerEtcdClient ::
          c.keyPair.Some? && c.generated
      invariant forall c | c in certificates && c.keyPair.None? :: !c.generated
      invariant forall j | i <= j < |certificates| :: certificates[j].keyPair == old(certificates[j].keyPair)
    {
      var c := certificates[i];
      if c.keyPair == None {
        err := c.Generate(reliable);
        if err {
          return;
        }
      }
    }
    err := false;
  }

  ghost predicate OnlyUsableAdded(before: map<Purpose, Secret>, after: map<Purpose, Secret>) {
    forall p | p in after && p !in before :: SecretToKeyPair(after[p]).Some?
  }

  method SaveGenerated(certificates: seq<Certificate>, store: SecretStore) returns (err: bool)
    requires forall c | c in certificates && c.generated :: c.keyPair.Some?
    requires forall c | c in certificates && !c.generated && c.keyPair.Some? :: Agrees(c, store.secrets)
    modifies store
    ensures Extends(old(store.secrets), store.secrets)
    ensures !err ==> forall c | c in certificates && c.keyPair.Some? :: Agrees(c, store.secrets)
    ensures !err ==> forall c | c in certificates && c.generated :: c.purpose !in old(store.secrets)
    ensures (store.reliable && DistinctPurposes(certificates)
             && forall c | c in certificates && c.generated :: c.purpose !in old(store.secrets)) ==> !err
    ensures store.reliable ==> OnlyUsableAdded(old(store.secrets), store.secrets)
  {
    for i := 0 to |certificates|
      invariant Extends(old(store.secrets), store.secrets)
      invariant forall c | c in certificates && c.keyPair.Some? && (!c.generated || c in certificates[..i]) ::
          Agrees(c, store.secrets)
      invariant forall c | c in certificates[..i] && c.generated :: c.purpose !in old(store.secrets)
      invariant store.reliable ==> OnlyUsableAdded(old(store.secrets), store.secrets)
      invariant store.reliable ==> forall p | p in store.secrets && p !in old(store.secrets) ::
          exists j :: 0 <= j < i && certificates[j].purpose == p
    {
      var c := certificates[i];
      if c.generated {
        assert store.reliable && DistinctPurposes(certificates) && c.purpose !in old(store.secrets) ==>
            c.purpose !in store.secrets;
        err := store.Create(c.purpose, AsSecret(c.keyPair.value));
        if err {
          return;
        }
      }
    }
    err := false;
  }

  /** Interleaved with any number of other runs, a run that succeeds holds exactly the stored pair for
      every purpose, except that the etcd client pair, which is never generated, may be missing. A run
      that lost the race to create a secret fails. */
  method LookupOrGenerate(certificates: seq<Certificate>, store: SecretStore) returns (err: bool)
    requires Distinct(certificates) && forall c | c in certificates :: Blank(c)
    modifies store, certificates
    ensures Extends(old(store.secrets), store.secrets)
    ensures !err ==> forall c | c in certificates && (c.purpose != APIServerEtcdClient || c.keyPair.Some?) ::
              Agrees(c, store.secrets)
    ensures !err ==> forall c | c in certificates && c.generated :: c.purpose !in old(store.secrets)
    ensures (store.reliable && DistinctPurposes(certificates)
             && forall c | c in certificates :: Usable(c, old(store.secrets))) ==> !err
    ensures store.reliable ==> OnlyUsableAdded(old(store.secrets), store.secrets)
  {
    err := Lookup(certificates, store);
    if err {
      return;
    }
    err := GenerateMissing(certificates, store.reliable);
    if err {
      return;
    }
    err := SaveGenerated(certificates, store);
  }

  /** The certificates of a control plane node, which need an etcd one if etcd is embedded. */
  method NewCertificatesForInitialControlPlane(etcdEmbedded: bool) returns (certificates: seq<Certificate>)
    ensures Distinct(certificates) && |certificates| == if etcdEmbedded then 3 else 2
    ensures certificates[0].purpose == ClusterCA && certificates[1].purpose == ClientClusterCA
    ensures etcdEmbedded ==> certificates[2].purpose == EtcdCA
    ensures fresh(certificates) && forall c | c in certificates :: Blank(c) && !c.external
  {
    var clusterCA := new Certificate(ClusterCA, false);
    var clientCA := new Certificate(ClientClusterCA, false);
    certificates := [clusterCA, clientCA];
    if etcdEmbedded {
      var etcdCA := new Certificate(EtcdCA, false);
      certificates := certificates + [etcdCA];
    }
  }

  ghost predicate AllUsable(secrets: map<Purpose, Secret>) {
    forall p | p in secrets :: SecretToKeyPair(secrets[p]).Some?
  }

  // What a run that succeeded holds, by purpose.
  type Pairs = map<Purpose, KeyPair>

  /** Every pair is the one that is stored. */
  ghost predicate AllStored(pairs: Pairs, secrets: map<Purpose, Secret>) {
    forall p | p in pairs :: p in secrets && SecretToKeyPair(secrets[p]) == Some(pairs[p])
  }

  method PairsOf(certificates: seq<Certificate>, ghost secrets: map<Purpose, Secret>) returns (pairs: Pairs)
    requires forall c | c in certificates :: Agrees(c, secrets)
    ensures pairs.Keys == set c | c in certificates :: c.purpose
    ensures AllStored(pairs, secrets)
  {
    pairs := map[];
    for i := 0 to |certificates|
      invariant pairs.Keys == set c | c in certificates[..i] :: c.purpose
      invariant AllStored(pairs, secrets)
    {
      var c := certificates[i];
      assert Agrees(c, secrets) && certificates[..i + 1] == certificates[..i] + [c];
      pairs := pairs[c.purpose := c.keyPair.value];
    }
    assert certificates[..|certificates|] == certificates;
  }

  /** Any number of runs, each with certificates of its own: those that succeed hold the same pair for every
      purpose that two of them share, and it is still the one stored at the end. */
  method ManyRuns(store: SecretStore, etcdEmbedded: seq<bool>) returns (held: seq<Option<Pairs>>)
    modifies store
    ensures Extends(old(store.secrets), store.secrets)
    ensures |held| == |etcdEmbedded|
    ensures forall i | 0 <= i < |held| && held[i].Some? ::
              && held[i].value.Keys == {ClusterCA, ClientClusterCA} + (if etcdEmbedded[i] then {EtcdCA} else {})
              && AllStored(held[i].value, store.secrets)
    ensures forall i, j, p | 0 <= i < j < |held| && held[i].Some? && held[j].Some? ::
              p in held[i].value && p in held[j].value ==> held[i].value[p] == held[j].value[p]
    ensures store.reliable && AllUsable(old(store.secrets)) ==> forall i | 0 <= i < |held| :: held[i].Some?
  {
    held := [];
    for i := 0 to |etcdEmbedded|
      invariant Extends(old(store.secrets), store.secrets)
      invariant |held| == i
      invariant store.reliable && AllUsable(old(store.secrets)) ==>
          AllUsable(store.secrets) && forall j | 0 <= j < i :: held[j].Some?
      invariant forall j | 0 <= j < i && held[j].Some? ::
          && held[j].value.Keys == {ClusterCA, ClientClusterCA} + (if etcdEmbedded[j] then {EtcdCA} else {})
          && AllStored(held[j].value, store.secrets)
    {
      var pairs := OneRun(store, etcdEmbedded[i]);
      held := held + [pairs];
    }
  }

  method OneRun(store: SecretStore, etcdEmbedded: bool) returns (held: Option<Pairs>)
    modifies store
    ensures Extends(old(store.secrets), store.secrets)
    ensures held.Some? ==>
              && held.value.Keys == {ClusterCA, ClientClusterCA} + (if etcdEmbedded then {EtcdCA} else {})
              && AllStored(held.value, store.secrets)
    ensures store.reliable && AllUsable(old(store.secrets)) ==> held.Some? && AllUsable(store.secrets)
  {
    var certificates := NewCertificatesForInitialControlPlane(etcdEmbedded);
    var err := LookupOrGenerate(certificates, store);
    if err {
      return None;
    }
    var pairs := PairsOf(certificates, store.secrets);
    return Some(pairs);
  }

  lemma SecretRoundTrip(pair: KeyPair)
    ensures SecretToKeyPair(AsSecret(pair)) == Some(pair)
    ensures AsSecret(pair) == map["tls.crt" := pair.cert, "tls.key" := pair.key]
  {
  }
}
