/**
  The cache server's table and its three remote operations.  Each Go method
  runs its map access under the server's single mutex, so each call is one
  atomic step; here a call is a pure function from the table before to the
  table after, together with the reply.  The request of every operation is a
  whole `Entry`, of which `Get` and `Del` read only the key.
 */
module CacheServer {
  import opened Wrappers
  import opened Mcache

  /** `cacheServer.store`: entries by key. */
  type Store = map<string, Entry>

  /** The table a server starts with: empty. */
  const Initial: Store := map[]

  /** The invariant of every table the server can reach: each entry is held
      under its own key and carries the `OK` marker `Put` gave it. */
  predicate Valid(s: Store) {
    forall k :: k in s ==> s[k].key == k && s[k].stat == OK
  }

  /** The table after a call and the reply to it. */
  datatype Step = Step(store: Store, reply: Reply)

  /** The entry held under `k`, if any. */
  function Lookup(s: Store, k: string): (r: Option<Entry>)
    ensures r.Some? <==> k in s
    ensures r.Some? ==> r.value == s[k]
  {
    if k in s then Some(s[k]) else None
  }

  /** `Get`: the entry held under the request's key; when there is none, the
      request itself comes back with `ErrNotFound`.  The table is not changed. */
  function Get(s: Store, req: Entry): (r: Step)
    ensures r.store == s
    ensures r.reply.err == None <==> req.key in s
    ensures r.reply.err == None ==> r.reply.entry == s[req.key]
    ensures r.reply.err != None ==> r.reply == Reply(req, Some(ErrNotFound))
  {
    if req.key in s then Step(s, Reply(s[req.key], None))
    else Step(s, Reply(req, Some(ErrNotFound)))
  }

  /** `Put`: the request, marked `OK`, replaces whatever was held under its
      key and is also the reply.  There is no error path and no check of the
      entry's fields. */
  function Put(s: Store, req: Entry): (r: Step)
    ensures r.reply.err == None
    ensures r.reply.entry.stat == OK && Equal(r.reply.entry, req)
    ensures r.store.Keys == s.Keys + {req.key}
    ensures r.store[req.key] == r.reply.entry
    ensures forall k :: k in s && k != req.key ==> r.store[k] == s[k]
  {
    var stamped := req.(stat := OK);
    Step(s[req.key := stamped], Reply(stamped, None))
  }

  /** `Del`: whatever is held under the request's key is dropped, present or
      not, and the request comes back as the reply without an error. */
  function Del(s: Store, req: Entry): (r: Step)
    ensures r.reply == Reply(req, None)
    ensures r.store.Keys == s.Keys - {req.key}
    ensures forall k :: k in r.store ==> r.store[k] == s[k]
  {
    Step(s - {req.key}, Reply(req, None))
  }

  /** A request carrying only a key, as the tests build for `Get` and `Del`:
      every other field keeps its zero value. */
  function KeyOnly(k: string): (e: Entry)
    ensures e.key == k && e.ctype == "" && e.mtime == 0 && e.content == [] && e.size == 0
  {
    Entry(k, "", 0, [], 0, Unset)
  }

  /** Round trip: after `Put(e)`, a `Get` by `e`'s key succeeds and returns an
      entry equal to `e` in every field but the status, which is `OK`. */
  lemma PutThenGet(s: Store, e: Entry, req: Entry)
    requires req.key == e.key
    ensures var r := Get(Put(s, e).store, req).reply;
            r.err == None && Equal(r.entry, e) && r.entry.stat == OK
  {
  }

  /** The round trip of the test `TestPutGet`: a key-only request after `Put`. */
  lemma PutThenGetKeyOnly(s: Store, e: Entry)
    ensures var r := Get(Put(s, e).store, KeyOnly(e.key)).reply;
            r == Reply(e.(stat := OK), None)
  {
    PutThenGet(s, e, KeyOnly(e.key));
  }

  /** Overwrite without merge: a second `Put` under the same key leaves the
      table exactly as if the first had never happened. */
  lemma PutOverwrites(s: Store, e1: Entry, e2: Entry)
    requires e1.key == e2.key
    ensures Put(Put(s, e1).store, e2) == Put(s, e2)
  {
  }

  /** After two `Put`s under one key, `Get` sees the second entry, stamped,
      with nothing carried over from the first. */
  lemma PutPutThenGet(s: Store, e1: Entry, e2: Entry, req: Entry)
    requires e1.key == e2.key == req.key
    ensures Get(Put(Put(s, e1).store, e2).store, req).reply == Reply(e2.(stat := OK), None)
  {
    PutOverwrites(s, e1, e2);
  }

  /** After `Del`, a `Get` by the same key fails with `ErrNotFound` and echoes
      its own request. */
  lemma DelThenGet(s: Store, d: Entry, req: Entry)
    requires d.key == req.key
    ensures Get(Del(s, d).store, req).reply == Reply(req, Some(ErrNotFound))
  {
  }

  /** The sequence of the test `TestDel`: `Put`, then `Del` and `Get` with
      key-only requests, ends in `ErrNotFound`. */
  lemma PutDelThenGet(s: Store, e: Entry)
    ensures Get(Del(Put(s, e).store, KeyOnly(e.key)).store, KeyOnly(e.key)).reply.err
            == Some(ErrNotFound)
  {
    DelThenGet(Put(s, e).store, KeyOnly(e.key), KeyOnly(e.key));
  }

  /** `Del` of an absent key changes nothing. */
  lemma DelAbsent(s: Store, req: Entry)
    requires req.key !in s
    ensures Del(s, req).store == s
  {
  }

  /** `Del` is idempotent: deleting a key a second time changes nothing. */
  lemma DelIdempotent(s: Store, d1: Entry, d2: Entry)
    requires d1.key == d2.key
    ensures Del(Del(s, d1).store, d2).store == Del(s, d1).store
  {
  }

  /** `Put` and `Del` leave every other key exactly as it was, as a later
      `Get` of that key observes. */
  lemma OtherKeysUntouched(s: Store, w: Entry, req: Entry)
    requires w.key != req.key
    ensures Get(Put(s, w).store, req).reply == Get(s, req).reply
    ensures Get(Del(s, w).store, req).reply == Get(s, req).reply
  {
  }

  /** The server starts from a valid table. */
  lemma InitialValid()
    ensures Valid(Initial)
  {
  }

  /** `Put` and `Del` keep the table valid, whatever the request. */
  lemma WritesPreserveValid(s: Store, req: Entry)
    requires Valid(s)
    ensures Valid(Put(s, req).store)
    ensures Valid(Del(s, req).store)
  {
  }

  /** On a valid table, a successful `Get` returns an entry whose key is the
      requested key and whose status is `OK`. */
  lemma GetFromValid(s: Store, req: Entry)
    requires Valid(s)
    ensures var r := Get(s, req).reply;
            r.err == None ==> r.entry.key == req.key && r.entry.stat == OK
  {
  }
}
