# go-config-api: a Dafny model of the config store

The service keeps named configuration records in memory and exposes them over
HTTP. Each record is a `Config`: a name plus a metadata document, which is an
arbitrary nested JSON-like mapping. This project models three parts of it:

* **The record store** (`app/data/configs.go`). A process-wide list of records
  that supports lookup by name, insert, wholesale replace, swap-with-last
  delete and merge-patch. The record list is the field `db` of the class
  `ConfigStore.Store`. Each Go function is a method of that class, and each
  method is proved equal to a pure function over the record list
  (`Get`, `Add`, `Delete`, `Put`, `Patch`, `Query`). The lemmas prove
  properties of those functions. The store invariant is that no two records
  share a name (`Unique`).
* **The merge engine** behind PATCH (`Documents.Merge`, `Documents.MergeFields`,
  `ConfigStore.MergeConfig`). It is an override merge. Where both sides are
  objects, their members are combined and shared keys are merged one level
  down. Anywhere else the overlay's value replaces the base value.
* **The query engine** behind search. A record is turned into its JSON
  document `{"name": ..., "metadata": ...}`. A dotted path is followed through
  object keys and decimal array indices (`Documents.Resolve`). The value found
  is turned into text the way gjson does it (`Documents.Stringify`). A missing
  path and `null` both become `""`. Booleans become `true`/`false`, integers
  become decimal text and strings stay as they are. A record is selected when
  that text equals the target. Results keep store order.

The HTTP handlers (`app/handlers/configs.go`) are modelled as pure functions
in module `Handlers`:

* the body validation run before POST, PUT and PATCH;
* the split of the raw search query `key=value`;
* the status code each store outcome produces.

A handler's answer is modelled as its status code plus the record list the
store holds afterwards.

Three consequences of the code that a reader might not expect:

* **Empty search value.** The query compares gjson's text for the path with
  the target (app/data/configs.go:115), and gjson turns a missing path into
  `""`. So the query `key=` (empty value) selects every record that lacks
  `key` (`ConfigStore.QueryEmptyValueSelectsMissing`).
* **More than one `=`.** The handler refuses only a raw query with no `=` at
  all (app/handlers/configs.go:118). It splits on every `=` and keeps the
  first two pieces (app/handlers/configs.go:119-120), so `a=b=c` searches key
  `a` for value `b` (`Handlers.ParseSearch`).
* **Name on merge.** The merge runs in mergo's override mode
  (app/data/configs.go:96), which skips empty source values. So an empty
  overlay name keeps the stored name (`ConfigStore.MergeConfigFields`).
  Through the store this never matters, because the overlay's name is the one
  the record was found by.

## Model

| member | source | states |
|---|---|---|
| `ConfigStore.IndexOf` | app/data/configs.go:24-31 | the result is -1 exactly when no record has the name; otherwise it is the smallest index whose name matches |
| `ConfigStore.IndexOfUnique` | app/data/configs.go:24-31 | when names are unique, the lookup finds a record's own index |
| `ConfigStore.Store.ConfigFound` | app/data/configs.go:24-31 | the scan returns (i, true) for the first record named n, or (-1, false) when none is named n; the loop invariant says no earlier record matched |
| `ConfigStore.Store.GetConfigs` | app/data/configs.go:52-54 | returns the whole record list |
| `ConfigStore.Get` | app/data/configs.go:57-62 | ConfigNotFound exactly when no record has the name; otherwise a stored record with that name |
| `ConfigStore.GetEmpty` | app/data/configs_test.go:28-35 | an empty store returns ConfigNotFound for every name |
| `ConfigStore.Store.GetConfig` | app/data/configs.go:57-62 | the method returns what `Get` specifies for the current records |
| `ConfigStore.Add` | app/data/configs.go:65-71 | succeeds exactly when the name is free; on success `c` is appended and earlier records are unchanged; otherwise ConfigAlreadyExists and no change |
| `ConfigStore.AddPreservesUnique` | app/data/configs.go:65-71 | insert keeps names unique |
| `ConfigStore.AddThenGet` | app/data/configs_test.go:10-26 | after a successful insert, looking the name up returns exactly the inserted record |
| `ConfigStore.AddTwice` | app/data/configs_test.go:53-68 | inserting the same record a second time fails with ConfigAlreadyExists |
| `ConfigStore.Store.AddConfig` | app/data/configs.go:65-71 | the new record list and the error returned are those of `Add`; the uniqueness invariant is kept |
| `ConfigStore.Delete` | app/data/configs.go:74-79 | an absent name changes nothing; otherwise the length drops by one, the last record moves into the found slot and every other slot is unchanged |
| `ConfigStore.DeleteRemovesExactlyOne` | app/data/configs.go:74-79 | the remaining records plus the removed one are the original multiset of records |
| `ConfigStore.DeletePreservesUnique` | app/data/configs.go:74-79 | delete keeps names unique |
| `ConfigStore.DeleteThenGet` | app/data/configs_test.go:70-78 | when names are unique, the name is not found after a delete |
| `ConfigStore.DeleteIdempotent` | app/data/configs.go:74-79 | when names are unique, deleting twice equals deleting once |
| `ConfigStore.Store.DeleteConfig` | app/data/configs.go:74-79 | the new record list is that of `Delete`; uniqueness is kept; there is no error result |
| `ConfigStore.Put` | app/data/configs.go:82-88 | ConfigNotFound with no change exactly when the name is absent; otherwise the found slot becomes exactly `c` and the length and all other slots are unchanged |
| `ConfigStore.PutPreservesUnique` | app/data/configs.go:82-88 | replace keeps names unique |
| `ConfigStore.PutThenGet` | app/data/configs_test.go:80-103 | after a successful replace, a lookup returns the new record; old fields are not kept |
| `ConfigStore.Store.PutConfig` | app/data/configs.go:82-88 | the new record list and the error returned are those of `Put`; uniqueness is kept |
| `ConfigStore.Patch` | app/data/configs.go:91-102 | ConfigNotFound with no change exactly when the name is absent; otherwise only the found record changes, it becomes `MergeConfig` of the stored record and the overlay, and it keeps its name |
| `ConfigStore.MergeConfigFields` | app/data/configs.go:96 | the record merge `MergeConfig`: a non-empty overlay name replaces the stored name and an empty one keeps it; a nil overlay map keeps the stored metadata; an overlay map merged onto nil metadata is stored as given; when both records hold metadata the result is exactly `MergeFields` of the two maps; whenever the overlay holds metadata, the merged keys are exactly the stored keys plus the overlay's keys; a record merged onto itself is unchanged |
| `ConfigStore.PatchExample` | app/data/configs_test.go:121-149 | patching a record holding {"monitoring":{"enabled":"true"}} with {"monitoring":{"enabled":"true","grafana":"true"}} succeeds, and a lookup then returns the record with both flags |
| `ConfigStore.PatchPreservesUnique` | app/data/configs.go:91-102 | patch keeps names unique |
| `ConfigStore.PatchMetadata` | app/data/configs.go:96 | a nil overlay map leaves the metadata alone; top-level keys the overlay lacks keep their values; where either side is not an object, the overlay's value wins |
| `ConfigStore.PatchOverlayWins` | app/data/configs.go:96 | after a patch, the metadata holds every value the overlay supplies, at every depth |
| `ConfigStore.PatchThenResolve` | app/data/configs.go:91-102 | after a patch, a metadata path the overlay sets to a non-object value resolves to that value |
| `ConfigStore.PatchKeepsPath` | app/data/configs.go:91-102 | after a patch, a path through stored objects that the overlay does not reach resolves as before |
| `ConfigStore.Store.PatchConfig` | app/data/configs.go:91-102 | the new record list and the error returned are those of `Patch`; uniqueness is kept |
| `Documents.MergeFields` | app/data/configs.go:96 | keys are the union of both sides; base-only keys keep their values; the overlay's value wins wherever the two values are not both objects; shared keys are merged |
| `Documents.MergeReplaces` | app/data/configs.go:96 | the override rule of `Merge`: where either side is not an object the overlay's value replaces the base outright, and an object overlay merged onto an empty object comes out unchanged |
| `Documents.MergeOverlayWins` | app/data/configs.go:96 | the merge result supplies every overlay value, at every depth |
| `Documents.MergeKeepsUntouched` | app/data/configs.go:96 | a base value on a path the overlay does not reach survives the merge |
| `Documents.MergeSetsLeaf` | app/data/configs.go:96 | where the overlay places a non-object value, the merge result holds that value |
| `Documents.MergeSelf` | app/data/configs.go:96 | merging a document onto itself changes nothing |
| `Documents.MergeIdempotent` | app/data/configs.go:96 | applying the same overlay twice equals applying it once |
| `Documents.MergeEmptyOverlay` | app/data/configs.go:96 | an overlay with no keys leaves the base unchanged |
| `Documents.MergeExample` | app/data/configs.go:96 | merging {"a":{"y":"3","z":"4"}} onto {"a":{"x":"1","y":"2"}} gives {"a":{"x":"1","y":"3","z":"4"}}: the untouched key is kept, the shared key takes the overlay's value, the new key is added |
| `Documents.ParseIndexDecimal` | app/data/configs.go:115 | the decimal text of every index reads back as that index; a path segment containing a non-digit is not an index |
| `Documents.ChildSelects` | app/data/configs.go:115 | one path step selects an object's member under its key and an array's element under the decimal text of an in-range index; an out-of-range index, an empty segment on an array and any step from a scalar select nothing |
| `Documents.ResolveConcat` | app/data/configs.go:115 | resolving p followed by q equals resolving p, then q from the result |
| `Documents.ResolveMembers` | app/data/configs.go:115 | `Resolve` finds a value along any path whose every segment is a member key of the object reached so far |
| `Documents.ResolveStops` | app/data/configs.go:115 | `Resolve` stays missing once a prefix of the path is missing, and finds nothing below a scalar |
| `Documents.Stringify` | app/data/configs.go:115 | a missing path and null read as ""; booleans as "true"/"false"; strings as themselves; integers as their canonical decimal text, with a sign exactly when negative; arrays and objects as their raw JSON text `raw` |
| `Documents.StringifyIntInjective` | app/data/configs.go:115 | two integers with the same text are equal |
| `Strings.NatToDecimal` | app/data/configs.go:115 | the decimal text of a natural number is digits only, has no leading zero and reads back as the number |
| `Strings.IntToDecimal` | app/data/configs.go:115 | a negative number gets a leading '-' followed by digits that read back as its magnitude; other numbers get digits only; no leading zero on either (zero is "0"), so the text is the canonical one the JSON encoder writes |
| `Strings.IntToDecimalInjective` | app/data/configs.go:115 | different integers have different texts |
| `Strings.IndexOfChar` | app/handlers/configs.go:118 | -1 exactly when the character is absent; otherwise the index of its first occurrence |
| `Strings.Split` | app/handlers/configs.go:119 | at least one piece, no piece contains the separator, joining the pieces gives the input back, and there are two or more pieces exactly when the input contains the separator |
| `Strings.SplitJoin` | app/handlers/configs.go:119 | splitting a join of separator-free pieces gives the pieces back |
| `ConfigStore.Query` | app/data/configs.go:108-120 | the result is no longer than the store, and every selected record is in the store and matches |
| `ConfigStore.QueryComplete` | app/data/configs.go:108-120 | every matching record is selected |
| `ConfigStore.QueryMembership` | app/data/configs.go:108-120 | a record is selected exactly when it is in the store and matches |
| `ConfigStore.QueryConcat` | app/data/configs.go:108-120 | selection keeps store order: querying a concatenation concatenates the results |
| `ConfigStore.QueryMissingPath` | app/data/configs_test.go:204-222 | a path no record has, queried for a non-empty value, selects nothing |
| `ConfigStore.QueryEmptyValueSelectsMissing` | app/data/configs.go:115 | a record lacking the path is selected by a query for the empty value |
| `ConfigStore.ResolveMetadata` | app/data/configs.go:111 | in the marshalled record, a path under "metadata" resolves inside the metadata map |
| `ConfigStore.ToDocFields` | app/data/configs.go:111 | the marshalled record `ToDoc` holds the name as a string under "name" and the metadata under "metadata" (null when nil), and nothing under any other top-level key |
| `ConfigStore.MatchesName` | app/data/configs.go:115 | `Matches` on the path "name" holds exactly when the target is the record's name |
| `ConfigStore.SplitMonitoringPath` | app/data/configs_test.go:186 | "metadata.monitoring.enabled" splits into its three keys |
| `ConfigStore.MonitoredMatches` | app/data/configs_test.go:167-202 | a record whose monitoring flag is the string e matches the value v exactly when v equals e |
| `ConfigStore.QueryMonitoringExample` | app/data/configs_test.go:167-242 | of records flagged "true" and "false", a query for "true" selects only the first; a query for a value no record has selects nothing |
| `ConfigStore.QueryMissingKeyExample` | app/data/configs_test.go:204-222 | a query on "metadata.monitoring.grafana", which the record lacks, selects nothing |
| `ConfigStore.Store.QueryConfig` | app/data/configs.go:108-120 | without changing the store, returns `Query` of the split key; a record is in the result exactly when it is stored and matches |
| `ConfigStore.Seed` | app/data/configs.go:123-170 | the start-up data holds three records with distinct names |
| `ConfigStore.Store.constructor` | app/data/configs.go:123-170 | a new store holds the seed records and satisfies the uniqueness invariant |
| `Handlers.ValidateConfig` | app/handlers/configs.go:142-171 | an undecodable body is refused; every refusal is 400; POST passes exactly when name and metadata are given; PUT and PATCH pass exactly when metadata is given and the name is empty or equals the path's; an accepted PUT or PATCH body carries the path's name |
| `Handlers.ParseSearch` | app/handlers/configs.go:118-120 | refused with 400 "Wrong query string" exactly when there is no '='; otherwise the key and value contain no '=', the query starts with key=value, and an '=' follows if anything does |
| `Handlers.ParseSearchRoundTrip` | app/handlers/configs.go:118-120 | key=value, where neither part contains '=', is read back as that key and value |
| `Handlers.ServeGetConfig` | app/handlers/configs.go:60-72 | 404 exactly when no record has the name; otherwise 200 |
| `Handlers.ServeAddConfig` | app/handlers/configs.go:76-84 | 400 exactly when validation refuses the body; 409 exactly when a valid body's name is taken; on 200 the record is appended, otherwise nothing changes |
| `Handlers.ServePutConfig` | app/handlers/configs.go:94-102 | 400 exactly when validation refuses; 404 exactly when a valid body's path name is absent; on any non-200 answer the records are unchanged; on 200 the records are those of `Put` of the body under the path name, only records with that name change, and a lookup returns the body under the path name |
| `Handlers.ServePatchConfig` | app/handlers/configs.go:105-113 | 400 exactly when validation refuses; 404 exactly when a valid body's path name is absent; on any non-200 answer the records are unchanged; on 200 the records are those of `Patch` of the body under the path name, only records with that name change, and the name is still found |
| `Handlers.ServeDeleteConfig` | app/handlers/configs.go:88-91 | always 200; the records afterwards are those of `Delete`: one fewer when the name was present, none fewer otherwise |
| `Handlers.DeleteThenGetNotFound` | app/handlers/configs.go:88-91 | when names are unique, a GET after a DELETE of the same name answers 404 |
| `Handlers.HandlersPreserveUnique` | app/handlers/configs.go:76-113 | every write handler keeps names unique, whatever the request |
| `Handlers.ServeQueryConfigs` | app/handlers/configs.go:117-134 | 400 exactly when the raw query has no '='; otherwise the answer is `Query` over the key's dot-separated segments and the value, in store order, so a record is returned exactly when it is stored and its value at the parsed key reads as the parsed value |

## Left out

- JSON encoding and decoding (`ToJSON`, `FromJSON`), the error response bodies and logging in `handleError`, and `Health` are I/O. A request body is modelled as already decoded (`Handlers.Body`).
- The 500 responses when marshalling fails, and the `json.Marshal` failure branch of `QueryConfig` (app/data/configs.go:112-114). The model assumes marshalling always succeeds.
- The error branch after the merge (app/data/configs.go:97-99) is not modelled. The model's merge never fails.
- `app/main.go` is not part of this model: routing, server timeouts, signal handling and shutdown. Only the routing facts the handlers depend on are used: validation runs for POST, PUT and PATCH only, and the path variable is `name`.
- Documents.Merge: this is the override rule described above. mergo itself is not visible. Its behaviour on mismatched kinds (an overlay object meeting a base scalar or array) and on zero values may differ from "the overlay wins".
- Documents.Resolve: only plain dot-separated keys and decimal array indices. gjson's wildcards, `#`, `|`, modifiers and escapes are left out.
- Documents.Stringify: the raw JSON text of arrays and objects is a parameter `raw`, because the serialiser's exact output (key order, escaping) is library code that is not visible. The other cases are exact.
- Numbers are integers only. Go decodes request numbers to float64, and float64 values of 1e21 or more print in exponent form. Neither is modelled.
- Concurrency is left out. The source has no locking around `db`.
- Records have value semantics. `AddConfig` and `PutConfig` store the caller's pointer, and `PatchConfig` mutates maps that callers may share. That aliasing is not modelled.
- Tests reassign `db` directly. The model offers only the seeded constructor, and the store functions (`Add`, `Get`, ...) take any record list, which covers those tests.
