/**
  Stand-ins for the types the cache server takes from the external `mcache`
  package: the `Entry` record exchanged with clients, its `Status` marker and
  the one domain error, `ErrNotFound`.  Only the fields the server and its
  tests use are modelled.  Two definitions here are not part of `mcache`:
  `SizeHonest`, the caller's side of the `size` field's contract, and
  `Equal`, the comparison the server's tests mean by an entry coming back
  unchanged.
 */
module Mcache {
  import opened Wrappers

  /** Go's `byte`. */
  newtype uint8 = x: int | 0 <= x < 0x100

  /** Go's `int64`, the type of `Mtime` and `Size`. */
  newtype int64 = x: int | -0x8000_0000_0000_0000 <= x < 0x8000_0000_0000_0000

  /** The status marker of an entry.  `OK` is `Status_OK`; every other value of
      the enum is represented by `Unset`, since the server never tells them apart. */
  datatype Status = Unset | OK

  /** A named content blob.  `size` is supplied by the caller and is not
      checked against `content` by anyone on the server side. */
  datatype Entry = Entry(
    key: string,
    ctype: string,
    mtime: int64,
    content: seq<uint8>,
    size: int64,
    stat: Status)

  /** The caller's side of the `size` field's contract. */
  predicate SizeHonest(e: Entry) {
    e.size as int == |e.content|
  }

  /** Equality of entries in every field but the status marker: what the
      server's tests mean by an entry coming back unchanged. */
  function Equal(ne: Entry, e: Entry): (r: bool)
    ensures r <==> ne.(stat := e.stat) == e
  {
    && ne.key == e.key
    && ne.ctype == e.ctype
    && ne.mtime == e.mtime
    && ne.size == e.size
    && ne.content == e.content
  }

  /** The single domain error of the cache. */
  datatype Error = ErrNotFound

  /** What a server method hands back: Go's `(*mcache.Entry, error)` pair,
      with `err == None` standing for a `nil` error. */
  datatype Reply = Reply(entry: Entry, err: Option<Error>)
}
