/**
 * The AWS-backed vault: a local in-process secret cache held in a map field,
 * and three remote operations whose decisions (the string guard, the stub
 * delete, the folding of backend failures into one error) are modelled
 * without the network. The secrets-manager client is an object that records
 * the requests sent to it; what the backend answers is given to each remote
 * operation as a parameter.
 */
module Vault {

  datatype Option<+T> = None | Some(value: T)

  /**
   * A dynamically typed secret value (Go's interface{}): the nil interface,
   * a string, or any other value, told apart only by an identifier.
   */
  datatype Value = Nil | Str(s: string) | Other(id: nat)

  /** The errors the vault returns; each carries a fixed message. */
  datatype Error = LoadConfigFailed | GetSecretValueFailed | NotAString | CreateSecretFailed

  /** The text each error carries. */
  function Message(e: Error): string {
    match e
    case LoadConfigFailed => "failed to load aws config"
    case GetSecretValueFailed => "failed to get secret value"
    case NotAString => "secret value is not string"
    case CreateSecretFailed => "failed to create secret"
  }

  /** Distinct errors carry distinct texts, so a caller can tell them apart by message. */
  lemma MessagesDistinct(a: Error, b: Error)
    ensures Message(a) == Message(b) <==> a == b
  {
  }

  /** The type assertion `v.(string)`: the string inside `v`, if `v` holds one. */
  function AsString(v: Value): (r: Option<string>)
    ensures r.Some? <==> v.Str?
    ensures r.Some? ==> v == Str(r.value)
  {
    if v.Str? then Some(v.s) else None
  }

  // ---------------------------------------------------------------------------
  // The local cache, as values

  type Secrets = map<string, Value>

  /**
   * What indexing the cache yields: the stored value, or nil on a miss. A miss
   * and a stored nil read the same, so GetLocalSecret cannot tell them apart.
   */
  function Lookup(m: Secrets, name: string): (v: Value)
    ensures name in m ==> v == m[name]
    ensures v == Nil <==> name !in m || m[name] == Nil
  {
    if name in m then m[name] else Nil
  }

  /** A local-cache write: PutLocalSecret or DeleteLocalSecret. */
  datatype LocalOp = PutLocal(name: string, value: Value) | DeleteLocal(name: string)

  /** The cache after one local write. */
  function Apply(m: Secrets, op: LocalOp): (m': Secrets)
    ensures Lookup(m', op.name) == (if op.PutLocal? then op.value else Nil)
    ensures forall k | k != op.name :: Lookup(m', k) == Lookup(m, k)
    ensures m'.Keys == if op.PutLocal? then m.Keys + {op.name} else m.Keys - {op.name}
    ensures op.DeleteLocal? && op.name !in m ==> m' == m
  {
    match op
    case PutLocal(n, v) => m[n := v]
    case DeleteLocal(n) => m - {n}
  }

  /** A second put of the same name replaces the first. */
  lemma PutLocalOverwrites(m: Secrets, name: string, v: Value, w: Value)
    ensures Apply(Apply(m, PutLocal(name, v)), PutLocal(name, w)) == Apply(m, PutLocal(name, w))
  {
  }

  /** Puts of different names commute: applied one after another, their order does not matter. */
  lemma PutLocalsCommute(m: Secrets, a: string, v: Value, b: string, w: Value)
    requires a != b
    ensures Apply(Apply(m, PutLocal(a, v)), PutLocal(b, w)) == Apply(Apply(m, PutLocal(b, w)), PutLocal(a, v))
  {
  }

  /** The cache after a history of local writes, applied one after another. */
  function Run(m: Secrets, ops: seq<LocalOp>): Secrets
    decreases |ops|
  {
    if ops == [] then m else Run(Apply(m, ops[0]), ops[1..])
  }

  /**
   * Reference definition of what a name reads after a history: the value of the
   * last write to that name (nil for a delete), or `initial` if none touched it.
   */
  function LastWrite(ops: seq<LocalOp>, name: string, initial: Value): Value
    decreases |ops|
  {
    if ops == [] then initial
    else
      var op := ops[|ops| - 1];
      if op.name == name then (if op.PutLocal? then op.value else Nil)
      else LastWrite(ops[..|ops| - 1], name, initial)
  }

  lemma {:induction false} RunAppend(m: Secrets, ops: seq<LocalOp>, op: LocalOp)
    ensures Run(m, ops + [op]) == Apply(Run(m, ops), op)
    decreases |ops|
  {
    if ops == [] {
      assert ops + [op] == [op];
    } else {
      assert (ops + [op])[0] == ops[0];
      assert (ops + [op])[1..] == ops[1..] + [op];
      RunAppend(Apply(m, ops[0]), ops[1..], op);
    }
  }

  /** Last write wins: after any history, every name reads the value of its last write. */
  lemma {:induction false} RunLastWriteWins(m: Secrets, ops: seq<LocalOp>, name: string)
    ensures Lookup(Run(m, ops), name) == LastWrite(ops, name, Lookup(m, name))
    decreases |ops|
  {
    if ops != [] {
      var init, op := ops[..|ops| - 1], ops[|ops| - 1];
      assert ops == init + [op];
      RunAppend(m, init, op);
      RunLastWriteWins(m, init, name);
    }
  }

  /** The names a history of puts writes. */
  function Names(ops: seq<LocalOp>): set<string> {
    set i | 0 <= i < |ops| :: ops[i].name
  }

  predicate AllPuts(ops: seq<LocalOp>) {
    forall i | 0 <= i < |ops| :: ops[i].PutLocal?
  }

  predicate DistinctNames(ops: seq<LocalOp>) {
    forall i, j | 0 <= i < j < |ops| :: ops[i].name != ops[j].name
  }

  lemma {:induction false} LastWriteOfDistinctPut(ops: seq<LocalOp>, i: nat, initial: Value)
    requires i < |ops| && AllPuts(ops) && DistinctNames(ops)
    ensures LastWrite(ops, ops[i].name, initial) == ops[i].value
    decreases |ops|
  {
    if i < |ops| - 1 {
      var init := ops[..|ops| - 1];
      assert init[i] == ops[i];
      LastWriteOfDistinctPut(init, i, initial);
    }
  }

  lemma {:induction false} RunKeysOfPuts(m: Secrets, ops: seq<LocalOp>)
    requires AllPuts(ops)
    ensures Run(m, ops).Keys == m.Keys + Names(ops)
    decreases |ops|
  {
    if ops != [] {
      RunKeysOfPuts(Apply(m, ops[0]), ops[1..]);
      assert Names(ops) == {ops[0].name} + Names(ops[1..]) by {
        forall k | k in Names(ops) ensures k in {ops[0].name} + Names(ops[1..]) {
          var i :| 0 <= i < |ops| && ops[i].name == k;
          if i > 0 { assert ops[1..][i - 1] == ops[i]; }
        }
        forall k | k in Names(ops[1..]) ensures k in Names(ops) {
          var i :| 0 <= i < |ops[1..]| && ops[1..][i].name == k;
          assert ops[i + 1] == ops[1..][i];
        }
      }
    }
  }

  lemma {:induction false} DistinctNamesCount(ops: seq<LocalOp>)
    requires DistinctNames(ops)
    ensures |Names(ops)| == |ops|
    decreases |ops|
  {
    if ops != [] {
      var rest := ops[1..];
      DistinctNamesCount(rest);
      assert Names(ops) == Names(rest) + {ops[0].name} by {
        forall k | k in Names(ops) ensures k in Names(rest) + {ops[0].name} {
          var i :| 0 <= i < |ops| && ops[i].name == k;
          if i > 0 { assert rest[i - 1] == ops[i]; }
        }
        forall k | k in Names(rest) ensures k in Names(ops) {
          var i :| 0 <= i < |rest| && rest[i].name == k;
          assert ops[i + 1] == rest[i];
        }
      }
      forall i | 0 <= i < |rest| ensures rest[i].name != ops[0].name {
        assert rest[i] == ops[i + 1];
      }
    }
  }

  /**
   * Puts of pairwise distinct names into an empty cache, applied one after
   * another in any order, leave exactly one entry per put, each holding the
   * value that was put.
   */
  lemma DistinctPutsAllKept(ops: seq<LocalOp>)
    requires AllPuts(ops) && DistinctNames(ops)
    ensures |Run(map[], ops)| == |ops|
    ensures forall i | 0 <= i < |ops| :: Lookup(Run(map[], ops), ops[i].name) == ops[i].value
  {
    RunKeysOfPuts(map[], ops);
    DistinctNamesCount(ops);
    assert Run(map[], ops).Keys == Names(ops);
    forall i | 0 <= i < |ops|
      ensures Lookup(Run(map[], ops), ops[i].name) == ops[i].value
    {
      RunLastWriteWins(map[], ops, ops[i].name);
      LastWriteOfDistinctPut(ops, i, Nil);
    }
  }

  // ---------------------------------------------------------------------------
  // The remote backend, as an oracle

  /** How loading the ambient AWS configuration came out. */
  datatype ConfigLoad = Loaded | LoadFailed(cause: string)

  /** What the backend answered to one call: a payload string, or a failure with its cause. */
  datatype Answer = Answered(payload: string) | Failed(cause: string)

  /** A request sent to the secrets-manager backend. */
  datatype Request = GetSecretValue(secretId: string) | CreateSecret(name: string, secretString: string)

  /** The secrets-manager client: it records every request it is asked to send. */
  class SecretsClient {
    var requests: seq<Request>

    constructor ()
      ensures requests == []
    {
      requests := [];
    }

    method Send(request: Request)
      modifies this
      ensures requests == old(requests) + [request]
    {
      requests := requests + [request];
    }
  }

  // ---------------------------------------------------------------------------
  // The vault

  class AwsVault {
    var secrets: Secrets
    const client: SecretsClient

    constructor (client: SecretsClient)
      ensures secrets == map[]
      ensures this.client == client
    {
      secrets := map[];
      this.client := client;
    }

    /**
     * Fetches `name` from the backend, whose answer is `answer`. A failure of
     * any cause becomes the one generic error, with the empty string as value.
     */
    method GetSecret(name: string, answer: Answer) returns (value: Value, err: Option<Error>)
      modifies client
      ensures client.requests == old(client.requests) + [GetSecretValue(name)]
      ensures secrets == old(secrets)
      ensures answer.Answered? ==> value == Str(answer.payload) && err == None
      ensures answer.Failed? ==> value == Str("") && err == Some(GetSecretValueFailed)
    {
      client.Send(GetSecretValue(name));
      if answer.Failed? {
        return Str(""), Some(GetSecretValueFailed);
      }
      return Str(answer.payload), None;
    }

    /**
     * Creates `name` in the backend. A value that is not a string is refused
     * before any request is sent; otherwise one create request is sent and a
     * failure of any cause becomes the one generic error.
     */
    method PutSecret(name: string, value: Value, answer: Answer) returns (err: Option<Error>)
      modifies client
      ensures secrets == old(secrets)
      ensures !value.Str? ==> err == Some(NotAString) && client.requests == old(client.requests)
      ensures value.Str? ==> client.requests == old(client.requests) + [CreateSecret(name, value.s)]
      ensures value.Str? ==> err == if answer.Answered? then None else Some(CreateSecretFailed)
    {
      var sv := AsString(value);
      if sv.None? {
        return Some(NotAString);
      }
      client.Send(CreateSecret(name, sv.value));
      if answer.Failed? {
        return Some(CreateSecretFailed);
      }
      return None;
    }

    /** A stub: always succeeds, sends nothing and changes nothing. */
    method DeleteSecret(name: string) returns (err: Option<Error>)
      ensures err == None
    {
      return None;
    }

    /** Reads the local cache; a miss reads nil. */
    method GetLocalSecret(name: string) returns (value: Value)
      ensures value == Lookup(secrets, name)
    {
      value := if name in secrets then secrets[name] else Nil;
    }

    /** Stores `value` under `name` in the local cache, replacing any earlier value. */
    method PutLocalSecret(name: string, value: Value)
      modifies this
      ensures secrets == Apply(old(secrets), PutLocal(name, value))
    {
      secrets := secrets[name := value];
    }

    /** Removes `name` from the local cache, if present; always succeeds. */
    method DeleteLocalSecret(name: string) returns (err: Option<Error>)
      modifies this
      ensures secrets == Apply(old(secrets), DeleteLocal(name))
      ensures err == None
    {
      secrets := secrets - {name};
      return None;
    }
  }

  /**
   * Builds a vault once the configuration is loaded: a fresh client and an
   * empty local cache. If loading fails there is no vault, only the error.
   */
  method NewVault(config: ConfigLoad) returns (vault: AwsVault?, err: Option<Error>)
    ensures config.LoadFailed? ==> vault == null && err == Some(LoadConfigFailed)
    ensures config.Loaded? ==> err == None && vault != null && fresh(vault) && fresh(vault.client)
    ensures config.Loaded? ==> vault.secrets == map[] && vault.client.requests == []
  {
    if config.LoadFailed? {
      return null, Some(LoadConfigFailed);
    }
    var client := new SecretsClient();
    vault := new AwsVault(client);
    err := None;
  }

  /**
   * The local-secret round trip of the repository's test: put, get, delete,
   * get again, on a vault built from a loaded configuration.
   */
  method TestVaultLocalSecret() returns (retrieved: Value, afterDelete: Value)
    ensures retrieved == Str("mySecretValue")
    ensures afterDelete == Nil
  {
    var vault, err := NewVault(Loaded);
    assert err == None;
    var secretName, secretValue := "mySecret", Str("mySecretValue");
    vault.PutLocalSecret(secretName, secretValue);
    retrieved := vault.GetLocalSecret(secretName);
    var _ := vault.DeleteLocalSecret(secretName);
    afterDelete := vault.GetLocalSecret(secretName);
  }
}
