/**
  Serial executions of the cache server.  Every call takes the server's one
  mutex for its whole map access, so any set of concurrent calls behaves as
  some sequence of atomic steps; this module runs such a sequence and relates
  what each call observes to a reference reading of the sequence itself.
 */
module Serial {
  import opened Wrappers
  import opened Mcache
  import opened CacheServer

  /** One remote call with its request, as the RPC layer dispatches it. */
  datatype Call = GetCall(req: Entry) | PutCall(req: Entry) | DelCall(req: Entry)

  /** The table after a sequence of calls and the reply to each call, in order. */
  datatype Trace = Trace(store: Store, replies: seq<Reply>)

  /** Dispatch of one call to the server method it names. */
  function Apply(s: Store, c: Call): (r: Step)
    ensures c.GetCall? ==> r.store == s
    ensures !c.GetCall? ==> r.reply.err == None
  {
    match c
    case GetCall(e) => Get(s, e)
    case PutCall(e) => Put(s, e)
    case DelCall(e) => Del(s, e)
  }

  /** The calls executed one after another from table `s`. */
  function Run(s: Store, calls: seq<Call>): (t: Trace)
    ensures |t.replies| == |calls|
    ensures forall i :: 0 <= i < |calls| && !calls[i].GetCall? ==> t.replies[i].err == None
    decreases |calls|
  {
    if calls == [] then Trace(s, [])
    else
      var first := Apply(s, calls[0]);
      var rest := Run(first.store, calls[1..]);
      assert forall i :: 1 <= i < |calls| ==> calls[i] == calls[1..][i - 1];
      Trace(rest.store, [first.reply] + rest.replies)
  }

  /** Reference reading of a sequence of calls: the entry key `k` should hold
      afterwards is decided by the last `Put` or `Del` of `k`, and by the
      initial table when there is none. */
  function Latest(s: Store, calls: seq<Call>, k: string): Option<Entry>
    decreases |calls|
  {
    if calls == [] then Lookup(s, k)
    else
      var c := calls[|calls| - 1];
      if c.PutCall? && c.req.key == k then Some(c.req.(stat := OK))
      else if c.DelCall? && c.req.key == k then None
      else Latest(s, calls[..|calls| - 1], k)
  }

  /** Running two sequences back to back is running their concatenation. */
  lemma {:induction false} RunAppend(s: Store, a: seq<Call>, b: seq<Call>)
    ensures var mid := Run(s, a);
            Run(s, a + b) == Trace(Run(mid.store, b).store, mid.replies + Run(mid.store, b).replies)
    decreases |a|
  {
    if a == [] {
      assert a + b == b;
    } else {
      assert (a + b)[0] == a[0];
      assert (a + b)[1..] == a[1..] + b;
      RunAppend(Apply(s, a[0]).store, a[1..], b);
    }
  }

  /** The table left by a serial execution holds, under every key, exactly
      what the last write of that key put there. */
  lemma {:induction false} RunAgreesWithLatest(s: Store, calls: seq<Call>, k: string)
    ensures Lookup(Run(s, calls).store, k) == Latest(s, calls, k)
    decreases |calls|
  {
    if calls != [] {
      var n := |calls| - 1;
      var p, c := calls[..n], calls[n];
      assert calls == p + [c];
      RunAppend(s, p, [c]);
      RunAgreesWithLatest(s, p, k);
    }
  }

  /** No torn reads: every `Get` in a serial execution replies with the entry
      the last earlier write of its key left, or with `ErrNotFound` and its
      own request when that write was a `Del` or there was none. */
  lemma GetSeesLatest(s: Store, calls: seq<Call>, i: nat)
    requires i < |calls| && calls[i].GetCall?
    ensures var req := calls[i].req;
            Run(s, calls).replies[i] ==
              match Latest(s, calls[..i], req.key)
              case Some(e) => Reply(e, None)
              case None => Reply(req, Some(ErrNotFound))
  {
    assert calls == calls[..i] + calls[i..];
    RunAppend(s, calls[..i], calls[i..]);
    RunAgreesWithLatest(s, calls[..i], calls[i].req.key);
    assert calls[i..][0] == calls[i];
  }

  /** Every serial execution from a valid table leaves a valid table. */
  lemma {:induction false} RunPreservesValid(s: Store, calls: seq<Call>)
    requires Valid(s)
    ensures Valid(Run(s, calls).store)
    decreases |calls|
  {
    if calls != [] {
      WritesPreserveValid(s, calls[0].req);
      RunPreservesValid(Apply(s, calls[0]).store, calls[1..]);
    }
  }

  /** Every table the server reaches from its empty start is valid, so every
      successful `Get` it answers returns an entry with the requested key and
      the `OK` marker. */
  lemma ReachableGetIsStamped(calls: seq<Call>, req: Entry)
    ensures Valid(Run(Initial, calls).store)
    ensures var r := Get(Run(Initial, calls).store, req).reply;
            r.err == None ==> r.entry.key == req.key && r.entry.stat == OK
  {
    InitialValid();
    RunPreservesValid(Initial, calls);
    GetFromValid(Run(Initial, calls).store, req);
  }

  /** Nothing can be found under a key that was never written. */
  lemma {:induction false} LatestWithoutPut(calls: seq<Call>, k: string)
    requires forall i :: 0 <= i < |calls| && calls[i].PutCall? ==> calls[i].req.key != k
    ensures Latest(Initial, calls, k) == None
    decreases |calls|
  {
    if calls != [] {
      LatestWithoutPut(calls[..|calls| - 1], k);
    }
  }

  /** Absence: starting from the empty table the server begins with, a key
      no `Put` has named is absent at the end, so a `Get` of it fails. */
  lemma NeverPutIsAbsent(calls: seq<Call>, req: Entry)
    requires forall i :: 0 <= i < |calls| && calls[i].PutCall? ==> calls[i].req.key != req.key
    ensures Get(Run(Initial, calls).store, req).reply == Reply(req, Some(ErrNotFound))
  {
    LatestWithoutPut(calls, req.key);
    RunAgreesWithLatest(Initial, calls, req.key);
  }

  /** The calls of a sequence whose request names key `k`, in order. */
  function OnKey(calls: seq<Call>, k: string): (r: seq<Call>)
    ensures |r| <= |calls|
    ensures forall i :: 0 <= i < |r| ==> r[i].req.key == k
    decreases |calls|
  {
    if calls == [] then []
    else
      var p := OnKey(calls[..|calls| - 1], k);
      var c := calls[|calls| - 1];
      if c.req.key == k then p + [c] else p
  }

  /** Calls on other keys never affect a key: the final entry under `k` is
      the same whether or not they are run. */
  lemma {:induction false} OtherKeysIrrelevant(s: Store, calls: seq<Call>, k: string)
    ensures Lookup(Run(s, calls).store, k) == Lookup(Run(s, OnKey(calls, k)).store, k)
  {
    LatestOnKey(s, calls, k);
    RunAgreesWithLatest(s, calls, k);
    RunAgreesWithLatest(s, OnKey(calls, k), k);
  }

  /** The reference reading of key `k` looks only at the calls on `k`. */
  lemma {:induction false} LatestOnKey(s: Store, calls: seq<Call>, k: string)
    ensures Latest(s, calls, k) == Latest(s, OnKey(calls, k), k)
    decreases |calls|
  {
    if calls != [] {
      var p, c := calls[..|calls| - 1], calls[|calls| - 1];
      LatestOnKey(s, p, k);
      if c.req.key == k {
        assert (OnKey(p, k) + [c])[..|OnKey(p, k)|] == OnKey(p, k);
      }
    }
  }

  /** Calls on different keys commute: either order yields the same table
      and the same reply to each call. */
  lemma DistinctKeysCommute(s: Store, c1: Call, c2: Call)
    requires c1.req.key != c2.req.key
    ensures Apply(Apply(s, c1).store, c2).store == Apply(Apply(s, c2).store, c1).store
    ensures Apply(Apply(s, c1).store, c2).reply == Apply(s, c2).reply
    ensures Apply(Apply(s, c2).store, c1).reply == Apply(s, c1).reply
  {
  }
}
