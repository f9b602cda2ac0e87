/**
  Equality of entries as the server's tests judge it: every field except the
  status marker.  `EqualAsWritten` follows the test helper `equal` line by
  line; `Equal` is the comparison that helper evidently means, and is the
  one the rest of the model uses.
 */
module EntryEquality {
  import opened Mcache

  /** How a call of the test helper ends: it returns true, returns false, or
      panics with an index out of range. */
  datatype Verdict = Same | Different | IndexPanic

  /** The helper's loop over the indices of `a` from `i` on, reading `b` at
      the same index: it stops at the first mismatch and panics when `b` runs
      out first. */
  function ScanContent(a: seq<uint8>, b: seq<uint8>, i: nat): (v: Verdict)
    requires i <= |a| && i <= |b|
    ensures v == Same <==> |a| <= |b| && a[i..] == b[i..|a|]
    ensures v == IndexPanic <==> |b| < |a| && a[i..|b|] == b[i..]
    decreases |a| - i
  {
    if i == |a| then Same
    else if i == |b| then IndexPanic
    else if a[i] != b[i] then
      assert |a| <= |b| ==> a[i..] != b[i..|a|] by {
        if |a| <= |b| { assert a[i..][0] != b[i..|a|][0]; }
      }
      assert |b| < |a| ==> a[i..|b|] != b[i..] by {
        if |b| < |a| { assert a[i..|b|][0] != b[i..][0]; }
      }
      Different
    else
      var v := ScanContent(a, b, i + 1);
      assert a[i..] == [a[i]] + a[i + 1..];
      assert |a| <= |b| ==> b[i..|a|] == [b[i]] + b[i + 1..|a|];
      assert |b| < |a| ==> a[i..|b|] == [a[i]] + a[i + 1..|b|];
      assert b[i..] == [b[i]] + b[i + 1..];
      v
  }

  /** The test helper `equal(ne, e)` as written: the scalar fields are
      compared, then `ne`'s content is compared index by index with `e`'s. */
  function EqualAsWritten(ne: Entry, e: Entry): (v: Verdict)
    ensures v == Same <==>
      && ne.key == e.key && ne.ctype == e.ctype && ne.mtime == e.mtime && ne.size == e.size
      && |ne.content| <= |e.content| && ne.content == e.content[..|ne.content|]
    ensures v == IndexPanic <==>
      && ne.key == e.key && ne.ctype == e.ctype && ne.mtime == e.mtime && ne.size == e.size
      && |e.content| < |ne.content| && e.content == ne.content[..|e.content|]
  {
    if ne.key != e.key then Different
    else if ne.ctype != e.ctype then Different
    else if ne.mtime != e.mtime then Different
    else if ne.size != e.size then Different
    else
      var v := ScanContent(ne.content, e.content, 0);
      assert ne.content[0..] == ne.content && e.content[0..] == e.content;
      v
  }

  /** The helper reports two entries equal although their contents differ:
      a received entry whose content was cut short passes. */
  lemma EqualAsWrittenAcceptsTruncated()
    ensures var e := Entry("foo.txt", "text/plain; charset=utf-8", 0, [72, 105], 2, Unset);
            var ne := e.(content := []);
            EqualAsWritten(ne, e) == Same && ne.content != e.content
  {
  }

  /** When both entries keep the `size` contract, the helper as written never
      panics and judges exactly as `Equal` does. */
  lemma EqualAsWrittenExactWhenSizeHonest(ne: Entry, e: Entry)
    requires SizeHonest(ne) && SizeHonest(e)
    ensures EqualAsWritten(ne, e) != IndexPanic
    ensures EqualAsWritten(ne, e) == Same <==> Equal(ne, e)
  {
  }
}
