# AWS vault and level-gated logger, modelled in Dafny

This project models the two stateful components of the `common` Go library.

**The vault** (`vault.dfy`, module `Vault`) is `_AwsVault`. It holds a local
secret cache and a secrets-manager client. The class `AwsVault` has the cache as
a `map<string, Value>` field. `PutLocalSecret` and `DeleteLocalSecret` reassign
that field, and `GetLocalSecret` reads it. A secret value is Go's `interface{}`,
written here as the tagged datatype `Value = Nil | Str(string) | Other(id)`.
This makes two behaviours explicit: the string type assertion in `PutSecret`,
and the `nil` that `GetLocalSecret` returns on a miss.

The AWS SDK is not modelled. In its place:
- `SecretsClient` is an object that records every request sent to it.
- The outcome of each call to the backend is a parameter of the operation:
  `ConfigLoad` for loading the configuration and `Answer` for a remote call.

This lets the contracts say when a request is sent and when none is.

The local cache is also specified on values. `Lookup` is a read, `Apply` is one
write, and `Run` is a history of writes applied one after another. `LastWrite`
is an independent reference definition of what a name reads after a history.
The lemmas about these functions give:
- last-write-wins,
- commuting of puts to different names,
- puts to pairwise distinct names, applied one after another in any order,
  keep one correct entry each.

**The logger** (`logger.dfy`, module `Logger`) is `ConsoleLogger`:
- four ordered levels, with the level being a plain integer as in Go;
- a threshold that the constructor and `SetLogLevel` set;
- the gate in `log`, which drops every message whose level is below the threshold;
- `LogLevelToString`, as `LevelToString`;
- `Debugf`/`Infof`/`Warnf`/`Errorf`, each calling the gate with its own fixed level.

The console is modelled as the sequence of entries printed so far.

The `Vault` interface declares `GetLocalSecret` as returning
`(interface{}, bool)` and `PutLocalSecret` as returning `error`
(vault/awsvault.go:24,27). The concrete methods return a single value (`nil` on
a miss) and nothing (vault/awsvault.go:91,101). The model follows the concrete
methods. The local map has no lock (vault/awsvault.go:33-36), so the model is
sequential.

## Model

| member | source | states |
|---|---|---|
| `Vault.MessagesDistinct` | vault/awsvault.go:60-121 | the four `errors.New` texts (lines 60, 70, 79, 121), held by `Message`, are pairwise distinct, so each error is identified by its text |
| `Vault.SecretsClient.constructor` | vault/awsvault.go:124 | a client built from the loaded configuration has sent no request |
| `Vault.SecretsClient.Send` | vault/awsvault.go:58-77 | each call to the backend (the fetch at line 58, the create at line 77) appends exactly that request to the client's record |
| `Vault.AsString` | vault/awsvault.go:68-71 | the type assertion succeeds exactly when the value holds a string, and yields that string |
| `Vault.Apply` | vault/awsvault.go:101-113 | after a local put the name reads the value put; after a local delete it reads nil; every other name reads as before; the key set gains or loses exactly that name; deleting an absent name leaves the cache identical |
| `Vault.Lookup` | vault/awsvault.go:94 | indexing the cache yields the stored value for a present name, and nil exactly when the name is absent or holds a stored nil (a miss and a stored nil are indistinguishable) |
| `Vault.PutLocalOverwrites` | vault/awsvault.go:101-105 | a second put of the same name replaces the first |
| `Vault.PutLocalsCommute` | vault/awsvault.go:101-105 | puts of different names give the same cache in either order |
| `Vault.RunLastWriteWins` | vault/awsvault.go:91-113 | after any history of local puts and deletes, each name reads the value of its last write (nil after a delete), or its initial value if no write touched it |
| `Vault.DistinctPutsAllKept` | vault/awsvault.go:101-105 | puts of pairwise distinct names into an empty cache, applied one after another in any order, leave exactly one entry per put, each holding the value put |
| `Vault.AwsVault.constructor` | vault/awsvault.go:125-128 | a vault starts with an empty local cache and the given client |
| `Vault.NewVault` | vault/awsvault.go:116-129 | a failed configuration load yields no vault and the config error; otherwise a fresh vault with an empty cache and a fresh client that has sent nothing |
| `Vault.AwsVault.GetSecret` | vault/awsvault.go:53-64 | sends exactly one fetch request for the name; on success returns the fetched string; on any failure returns the empty string and the one generic error, whatever the cause; the local cache is unchanged |
| `Vault.AwsVault.PutSecret` | vault/awsvault.go:67-83 | a non-string value is refused with the type error and no request is sent; a string value sends exactly one create request with that string, and the result is success or the one generic create error; the local cache is unchanged |
| `Vault.AwsVault.DeleteSecret` | vault/awsvault.go:86-88 | always returns no error; it modifies nothing, so it sends no request and leaves the cache as it was |
| `Vault.AwsVault.GetLocalSecret` | vault/awsvault.go:91-98 | returns what the cache holds for the name, nil on a miss, and changes nothing |
| `Vault.AwsVault.PutLocalSecret` | vault/awsvault.go:101-105 | the new cache is the old one with the name mapped to the value |
| `Vault.AwsVault.DeleteLocalSecret` | vault/awsvault.go:108-113 | the new cache is the old one without the name, and no error is returned |
| `Vault.TestVaultLocalSecret` | tests/vault_test.go:10-31 | put then get of "mySecret" returns "mySecretValue"; after the delete the get returns nil |
| `Logger.LevelToString` | logger/logger.go:76-89 | Debug, Info, Warning and Error map to "DEBUG", "INFO", "WARNING" and "ERROR", and the result is "UNKNOWN" exactly for every other value |
| `Logger.LevelNamesDistinct` | logger/logger.go:76-89 | two named levels have the same name only if they are the same level |
| `Logger.LevelsStrictlyOrdered` | logger/logger.go:24-29 | Debug < Info < Warning < Error |
| `Logger.ShouldEmit` | logger/logger.go:56-58 | the early return drops a message whose level is below the threshold, so a message passes exactly when the threshold is at most its level |
| `Logger.Emitted` | logger/logger.go:56-58 | a call adds one entry exactly when its level is not below the threshold, and otherwise nothing; the entry carries the level, its name and the text |
| `Logger.DebugThresholdEmitsAll` | logger/logger.go:56-58 | at threshold Debug every named level passes the gate |
| `Logger.ErrorThresholdEmitsOnlyError` | logger/logger.go:56-58 | at threshold Error, of the named levels only Error passes |
| `Logger.ShouldEmitMonotone` | logger/logger.go:56-58 | a message that passes still passes at a higher level or at a lower threshold |
| `Logger.UnnamedLevelAboveErrorIsEmitted` | logger/logger.go:56-88 | the gate does not check that a level is named: a level above Error passes every named threshold and is printed as "UNKNOWN" |
| `Logger.ConsoleLogger.constructor` | logger/logger.go:39-44 | the new logger has the given threshold and has printed nothing |
| `Logger.ConsoleLogger.SetLogLevel` | logger/logger.go:47-49 | the threshold becomes exactly the given level; the output is unchanged |
| `Logger.ConsoleLogger.Log` | logger/logger.go:52-73 | appends the message's entry exactly when its level is not below the threshold; the threshold is unchanged |
| `Logger.ConsoleLogger.Debugf` | logger/logger.go:92-94 | gates and prints at level Debug |
| `Logger.ConsoleLogger.Infof` | logger/logger.go:97-99 | gates and prints at level Info |
| `Logger.ConsoleLogger.Warnf` | logger/logger.go:102-104 | gates and prints at level Warning |
| `Logger.ConsoleLogger.Errorf` | logger/logger.go:107-109 | gates and prints at level Error |

## Left out

- AWS SDK calls (`config.LoadDefaultConfig`, `secretsmanager.NewFromConfig`, `GetSecretValue`, `CreateSecret`): these are network and credential I/O. Their outcomes are parameters (`ConfigLoad`, `Answer`), and the client only records the requests it is asked to send.
- What the backend stores: the model does not track remote secrets. So the failure of a second create for the same name is not derived; it shows up only as a `Failed` answer.
- The ARN and the name in the create response are opaque backend data. The model's `Answered` always carries a string, so two panics are not modelled: a nil `SecretString` in a fetch response is dereferenced at vault/awsvault.go:62-63, and a nil `Name` in a create response is dereferenced at vault/awsvault.go:81 (the argument is evaluated even when Debug messages are dropped).
- Logging inside the vault (the package-level logger `sos`, `Init`, the package-level `SetLogLevel` wrapper, and the `Debugf` calls in vault methods): the model assumes `Init()` has run. Until it does, `sos` is a nil interface, and its `Debugf` call panics in `GetSecret`, in `PutSecret` after the string guard, in `GetLocalSecret`, in `PutLocalSecret` and in `DeleteLocalSecret`. Only `NewVault`, `DeleteSecret` and the non-string path of `PutSecret` run without it. Once `Init()` has run, the messages are diagnostic output with no effect on results.
- Logger formatting: `fmt.Sprintf` argument substitution, the caller introspection through `runtime.Caller`/`runtime.FuncForPC`, and `log.Println`'s timestamp prefix are formatting and reflection. An entry records the level, its name and the format string.
- The logger's mutex and the logger's `writer` field: the mutex only serves concurrency, and the field is never read.
- Concurrent use of the vault: the Go map has no lock, so there is none in the model. Concurrent local writes in Go are a data race that the Go runtime may abort. `Run` and `DistinctPutsAllKept` describe only histories of calls that run one after another.
- The `Vault` interface: `_AwsVault`'s `GetLocalSecret` and `PutLocalSecret` do not match its signatures. The concrete methods are modelled.
- Go's `int` width for `LogLevel`: levels are unbounded integers. No arithmetic is done on levels, so only the comparison in the gate matters.
