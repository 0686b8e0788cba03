/** The bounded response body: a buffer grown by explicit replacement, never by the vector itself. */
module ResponseBuffer {
  type Byte = b: int | 0 <= b < 256

  const USIZE_MAX := 0xFFFF_FFFF_FFFF_FFFF

  function Concat(chunks: seq<seq<Byte>>): seq<Byte> {
    if chunks == [] then [] else chunks[0] + Concat(chunks[1..])
  }

  lemma {:induction false} ConcatSnoc(chunks: seq<seq<Byte>>, last: seq<Byte>)
    ensures Concat(chunks + [last]) == Concat(chunks) + last
  {
    if chunks == [] {
      assert Concat([last]) == last + Concat([]);
    } else {
      assert (chunks + [last])[1..] == chunks[1..] + [last];
      ConcatSnoc(chunks[1..], last);
    }
  }

  lemma {:induction false} ConcatPrefix(chunks: seq<seq<Byte>>, k: nat)
    requires k <= |chunks|
    ensures |Concat(chunks[..k])| <= |Concat(chunks)|
    decreases |chunks| - k
  {
    if k < |chunks| {
      ConcatPrefix(chunks, k + 1);
      ConcatSnoc(chunks[..k], chunks[k]);
      assert chunks[..k + 1] == chunks[..k] + [chunks[k]];
    } else {
      assert chunks[..k] == chunks;
    }
  }

  function Doubled(capacity: nat): nat {
    if capacity * 2 <= USIZE_MAX then capacity * 2 else USIZE_MAX
  }

  function GrownCapacity(capacity: nat, required: nat, limit: nat): nat {
    var wanted := if Doubled(capacity) < required then required else Doubled(capacity);
    if wanted < limit then wanted else limit
  }

  /** `data` is the current allocation, `len` how much of it is initialised, and `copied` totals the
      bytes every replacement has moved. */
  class Body {
    var data: array<Byte>
    var len: nat
    ghost var copied: nat

    ghost predicate Valid(limit: nat)
      reads this
    {
      && len <= data.Length <= limit <= USIZE_MAX
      && copied <= 2 * len && (0 < len ==> copied < 2 * len)
      && (data.Length < limit ==> copied <= data.Length)
    }

    function Contents(): seq<Byte>
      reads this, data
      requires len <= data.Length
    {
      data[..len]
    }

    constructor ()
      ensures len == 0 && copied == 0 && data.Length == 0 && fresh(data)
    {
      data := new Byte[0];
      len, copied := 0, 0;
    }

    /** Makes room for `required` bytes, replacing the allocation at most once. */
    method Grow(required: nat, limit: nat)
      requires Valid(limit) && len <= required <= limit
      modifies this`data, this`copied
      ensures data == old(data) || fresh(data)
      ensures len == old(len) && required <= data.Length <= limit
      ensures Contents() == old(Contents())
      ensures data != old(data) <==> old(data.Length) < required
      ensures data.Length == if old(data.Length) < required
                             then GrownCapacity(old(data.Length), required, limit) else old(data.Length)
      ensures copied == old(copied) + (if data != old(data) then len else 0)
      ensures copied <= 2 * required && (0 < required ==> copied < 2 * required)
      ensures data.Length < limit ==> copied <= data.Length
    {
      if required <= data.Length {
        return;
      }
      var doubled := if data.Length * 2 <= USIZE_MAX then data.Length * 2 else USIZE_MAX;
      var wanted := if doubled < required then required else doubled;
      var capacity := if wanted < limit then wanted else limit;
      var replacement := new Byte[capacity];
      forall k | 0 <= k < len {
        replacement[k] := data[k];
      }
      data := replacement;
      copied := copied + len;
    }

    /** Appends within the capacity already reserved, so the allocation stays where it is. */
    method Extend(chunk: seq<Byte>)
      requires len + |chunk| <= data.Length
      modifies this`len, data
      ensures data == old(data) && len == old(len) + |chunk|
      ensures Contents() == old(Contents()) + chunk
    {
      forall k | 0 <= k < |chunk| {
        data[len + k] := chunk[k];
      }
      len := len + |chunk|;
    }
  }

  /** Reads a whole body: it succeeds exactly when the chunks together are within the limit, and then
      holds their concatenation in one allocation within the limit, after moving fewer than twice
      its length in replacements. */
  method ReadBody(chunks: seq<seq<Byte>>, limit: nat) returns (ok: bool, body: Body)
    requires limit <= USIZE_MAX
    ensures ok <==> |Concat(chunks)| <= limit
    ensures fresh(body) && fresh(body.data) && body.Valid(limit)
    ensures ok ==> body.Contents() == Concat(chunks)
    ensures body.copied <= 2 * body.len && (0 < body.len ==> body.copied < 2 * body.len)
  {
    body := new Body();
    assert chunks[..0] == [];
    for k := 0 to |chunks|
      invariant fresh(body) && fresh(body.data) && body.Valid(limit)
      invariant body.Contents() == Concat(chunks[..k])
    {
      var newLength := body.len + |chunks[k]|;
      ConcatSnoc(chunks[..k], chunks[k]);
      assert chunks[..k + 1] == chunks[..k] + [chunks[k]];
      if newLength > USIZE_MAX || newLength > limit {
        ConcatPrefix(chunks, k + 1);
        return false, body;
      }
      body.Grow(newLength, limit);
      body.Extend(chunks[k]);
    }
    assert chunks[..|chunks|] == chunks;
    return true, body;
  }
}
