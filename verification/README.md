# cachesrv store, modelled in Dafny

`cachesrv` is a gRPC cache server: clients `Put` named content entries,
`Get` them back by key and `Del` them.  The part with a correctness contract
is the server's table, `cacheServer.store`, a map from key to `mcache.Entry`
guarded by one mutex, and the three methods that read and write it.  Because
every method does its whole map access under that single lock, each call is
one atomic step.  The model therefore treats the table as an immutable
`map<string, Entry>` and each method as a pure function from the table
before to the table after plus the reply.  On top of that it runs sequences
of calls (the serial orders the lock produces) and proves what every call
in such a sequence observes.

Modules:

- `Wrappers` (`wrappers.dfy`): `Option`, standing for Go's `nil`-or-value.
- `Mcache` (`mcache.dfy`): stand-ins for the external `mcache` package:
  `Entry` (`Key`, `Ctype`, `Mtime`, `Content`, `Size`, `Stat`), the `Status`
  enum, the `ErrNotFound` error, and `Reply`, the `(*Entry, error)` pair a
  method returns; also `Equal`, equality of entries in every field but the
  status.  `Mtime` and `Size` are `int64`, content bytes are `uint8`.
- `EntryEquality` (`entry_equality.dfy`): the tests' `equal` helper as
  written, compared with `Mcache.Equal`, the comparison it is meant to make
  (see Findings).
- `CacheServer` (`cache_server.dfy`): the table, `Get`, `Put`, `Del`, and
  the single-call and two-call properties: round trip, absence, overwrite
  without merge, delete idempotence, other keys untouched.
- `Serial` (`serial.dfy`): sequences of calls, executed one after another,
  compared with a reference reading in which the last write of a key decides
  what it holds.

Nothing checks that a key is non-empty, so the model accepts any key,
including the empty one.  `Get` returns the stored pointer, not a copy (see
Left out).

## Model

| member | source | states |
|---|---|---|
| `CacheServer.Lookup` | main.go:24 | the two-valued map read `ce, ok := store[key]`: present exactly when the key is in the table, and then the held entry |
| `CacheServer.Get` | main.go:22-30 | the table is unchanged; the call succeeds exactly when the request's key is held, and then returns the held entry; otherwise it returns the request itself with `ErrNotFound` |
| `CacheServer.Put` | main.go:31-37 | never fails; replies with the request marked `OK` and otherwise equal to it; afterwards the table holds that reply under the key, has the old keys plus this one, and holds the same entry as before under every other key |
| `CacheServer.Del` | main.go:38-43 | never fails and echoes the request; afterwards the key is gone and every remaining key holds what it held before |
| `CacheServer.KeyOnly` | srv_test.go:80 | the tests' key-only request `&mcache.Entry{Key: ...}`: the given key, and the zero value in type, time, content and size |
| `CacheServer.InitialValid` | main.go:82 | the empty table the server starts with satisfies `Valid`: every entry held under its own key and marked `OK` |
| `CacheServer.WritesPreserveValid` | main.go:31-43 | `Put` (which stores the request under its own key, marked `OK`) and `Del` keep a valid table valid |
| `CacheServer.GetFromValid` | main.go:22-29 | on a valid table, a successful `Get` returns an entry whose key is the requested key and whose status is `OK` |
| `CacheServer.PutThenGet` | main.go:22-36 | round trip: after `Put(e)`, any `Get` by `e`'s key succeeds and returns an entry equal to `e` in key, type, time, size and content, with status `OK` |
| `CacheServer.PutThenGetKeyOnly` | srv_test.go:74-87 | the `TestPutGet` sequence: `Put(e)` then a key-only `Get` returns exactly `e` marked `OK`, with no error |
| `CacheServer.PutOverwrites` | main.go:34 | overwrite without merge: two `Put`s under one key leave the same table and reply as the second `Put` alone |
| `CacheServer.PutPutThenGet` | main.go:31-36 | after `Put(e1)` and `Put(e2)` under one key, `Get` returns `e2` marked `OK`, with no field from `e1` |
| `CacheServer.DelThenGet` | main.go:38-43 | after `Del(k)`, `Get(k)` fails with `ErrNotFound` and echoes its own request |
| `CacheServer.PutDelThenGet` | srv_test.go:89-102 | the `TestDel` sequence: `Put`, then `Del` and `Get` by key only, ends with `ErrNotFound` |
| `CacheServer.DelAbsent` | main.go:40 | deleting a key that is not held leaves the table unchanged |
| `CacheServer.DelIdempotent` | main.go:38-43 | deleting the same key twice leaves the same table as deleting it once |
| `CacheServer.OtherKeysUntouched` | main.go:31-43 | a `Put` or `Del` of one key does not change what a `Get` of any other key replies |
| `Serial.Apply` | main.go:22-43 | dispatching one call: a `Get` never changes the table; a `Put` or `Del` never fails |
| `Serial.Run` | main.go:17-43 | a serial execution gives one reply per call, in order, and only `Get` calls can fail |
| `Serial.RunAppend` | main.go:17-43 | running two call sequences back to back is the same as running their concatenation, both for the final table and for the replies |
| `Serial.RunAgreesWithLatest` | main.go:31-43 | after any serial execution, each key holds exactly what its last write left: the `OK`-marked entry of its last `Put`, nothing after a `Del`, and the initial entry when there was no write |
| `Serial.GetSeesLatest` | main.go:22-43 | no torn reads: every `Get` in a serial execution returns what the last earlier write of its key left, or `ErrNotFound` with its own request when that write was a `Del` or there was none |
| `Serial.RunPreservesValid` | main.go:17-43 | every serial execution from a valid table ends in a valid table |
| `Serial.ReachableGetIsStamped` | main.go:22-43 | every table reached from the empty start is valid, so every successful `Get` the server answers returns an entry with the requested key and status `OK` |
| `Serial.LatestWithoutPut` | main.go:22-28 | from the empty table, the reference reading of a key that no `Put` names is "absent" |
| `Serial.NeverPutIsAbsent` | main.go:22-28 | absence: starting from the empty table, a `Get` of a key that no call has `Put` fails with `ErrNotFound` and echoes its request |
| `Serial.OtherKeysIrrelevant` | main.go:31-43 | what a key finally holds is the same whether or not the calls on other keys are run |
| `Serial.LatestOnKey` | main.go:31-43 | the reference reading of a key depends only on the calls that name that key |
| `Serial.DistinctKeysCommute` | main.go:22-43 | two calls on different keys commute: either order leaves the same table, and each call gets the same reply as it would alone |
| `EntryEquality.ScanContent` | srv_test.go:66-70 | the helper's content loop from index `i`: returns true exactly when `a` from `i` on matches `b` at the same indices and `b` is at least as long; panics exactly when `b` runs out first with every earlier byte matching |
| `EntryEquality.EqualAsWritten` | srv_test.go:53-72 | the helper as written returns true exactly when key, type, time and size match and `ne`'s content is a prefix of `e`'s; it panics exactly when those fields match and `e`'s content is a proper prefix of `ne`'s |
| `EntryEquality.EqualAsWrittenAcceptsTruncated` | srv_test.go:66-71 | a received entry with empty content passes the helper against an entry whose content is `"Hi"` |
| `Mcache.Equal` | srv_test.go:53-72 | corrected comparison: true exactly when the entries agree in every field but the status |
| `EntryEquality.EqualAsWrittenExactWhenSizeHonest` | srv_test.go:53-72 | when both entries keep `size == len(content)`, the helper as written never panics and says true exactly when `Equal` does |

## Findings

| source | as written | input that shows it | evidently intended | confidence | as-written member | corrected member |
|---|---|---|---|---|---|---|
| srv_test.go:66-71 | `equal` loops over the indices of `ne.Content` only, so a received content that is a proper prefix of the sent one passes, and a longer one whose first `len(e.Content)` bytes match panics instead of failing | `ne` equal to `e` except `Content` empty, while `e.Content` is `"Hi"`: `equal` returns true | the contents compared in full, `ne.Content == e.Content` | high (not executed); harmless while both sides keep `Size == len(Content)` (`EqualAsWrittenExactWhenSizeHonest`) | `EntryEquality.EqualAsWrittenAcceptsTruncated` | `Mcache.Equal` |

The round-trip lemmas in `CacheServer` state their equality with the corrected `Equal`.

## Left out

- The `sync.Mutex` (main.go:18, 23-25, 33-35, 39-41) is not modelled. Each call is treated as one atomic step, which the single lock guarantees, and interleavings are represented by the serial orders in `Serial`. Deadlock freedom and the race-detector benchmarks (srv_test.go:104-155) are concurrency facts outside this model.
- Pointer aliasing is not modelled. `Put` mutates the caller's struct and stores that same pointer (main.go:32-34), and `Get` returns the stored pointer. Entries here are immutable values, so a caller changing its copy after the call is not represented.
- The context argument of each method is ignored by the code and is not modelled.
- `mcache.Status` values other than `Status_OK` are unknown. They are represented by one value, `Unset`, which the server never assigns; it can still reply with it, because `Get` on a miss and `Del` echo the caller's request.
- `mcache.ErrNotFound` is modelled as an abstract error value. How gRPC encodes the error, and the `nil` entry a remote client then sees, are not modelled.
- The process plumbing is not modelled, because it is network, crypto and OS I/O: `main`, the `-p`/`-d` flags, `startServer` (TLS key pair loading, listening, gRPC registration) and `waitForShutdown` (main.go:45-104). The one fact taken from it is that a server starts with an empty table (main.go:82), which `CacheServer.Initial` records and `Serial.NeverPutIsAbsent` starts from.
- CacheServer.KeyOnly: gives the request's status the value `Unset`, assuming the generated enum's zero value is not `Status_OK`; the `mcache` package is not part of this model. The contract states nothing about that field.
- Keys and content types are Go strings, which are byte strings; the model uses Dafny `string`. Only equality is ever applied to them, so no behaviour is lost.
- The test setup (srv_test.go:23-51) is not modelled: it dials the server, sleeps and reads the clock. The entry it builds is reflected only in the key-only requests (`CacheServer.KeyOnly`) and the test sequences.
