/** Fixed layouts: a buffer is filled by writing byte runs at offsets, as
    struct.pack_into and memcpy do. The theorem at the end is what the codecs use:
    runs that do not overlap are all read back, whatever the order of the writes. */
module Layout {
  import opened Bytes

  datatype Field = Field(offset: nat, bytes: seq<byte>) {
    function End(): nat { offset + |bytes| }
  }

  function Zeros(n: nat): (z: seq<byte>)
    ensures |z| == n
  {
    seq(n, _ => 0)
  }

  function Blit(buf: seq<byte>, f: Field): (r: seq<byte>)
    requires f.End() <= |buf|
    ensures |r| == |buf|
  {
    buf[..f.offset] + f.bytes + buf[f.End()..]
  }

  predicate AllFit(fields: seq<Field>, n: nat) {
    forall i :: 0 <= i < |fields| ==> fields[i].End() <= n
  }

  /** Each field starts where the one before it ends, or later. */
  predicate Ascending(fields: seq<Field>) {
    forall i :: 0 < i < |fields| ==> fields[i - 1].End() <= fields[i].offset
  }

  predicate Disjoint(fields: seq<Field>) {
    forall i, j :: 0 <= i < j < |fields| ==> fields[i].End() <= fields[j].offset || fields[j].End() <= fields[i].offset
  }

  function WriteAll(buf: seq<byte>, fields: seq<Field>): (r: seq<byte>)
    requires AllFit(fields, |buf|)
    ensures |r| == |buf|
  {
    if fields == [] then buf
    else
      var last := |fields| - 1;
      Blit(WriteAll(buf, fields[..last]), fields[last])
  }

  lemma WriteAllSnoc(buf: seq<byte>, fields: seq<Field>, f: Field)
    requires AllFit(fields, |buf|) && f.End() <= |buf|
    ensures AllFit(fields + [f], |buf|)
    ensures WriteAll(buf, fields + [f]) == Blit(WriteAll(buf, fields), f)
  {
    assert (fields + [f])[..|fields|] == fields;
  }

  lemma {:induction false} AscendingIsOrdered(fields: seq<Field>, i: nat, j: nat)
    requires Ascending(fields) && i < j < |fields|
    ensures fields[i].End() <= fields[j].offset
    decreases j
  {
    if i < j - 1 {
      AscendingIsOrdered(fields, i, j - 1);
    }
  }

  lemma AscendingIsDisjoint(fields: seq<Field>)
    requires Ascending(fields)
    ensures Disjoint(fields)
  {
    forall i, j | 0 <= i < j < |fields|
      ensures fields[i].End() <= fields[j].offset
    {
      AscendingIsOrdered(fields, i, j);
    }
  }

  /** Every field of a non-overlapping layout is recovered by reading its place. */
  lemma {:induction false} ReadBack(buf: seq<byte>, fields: seq<Field>, i: nat)
    requires AllFit(fields, |buf|) && Disjoint(fields) && i < |fields|
    ensures WriteAll(buf, fields)[fields[i].offset..fields[i].End()] == fields[i].bytes
  {
    var last := |fields| - 1;
    if i < last {
      var before := WriteAll(buf, fields[..last]);
      ReadBack(buf, fields[..last], i);
      assert fields[..last][i] == fields[i];
      assert Blit(before, fields[last])[fields[i].offset..fields[i].End()] == before[fields[i].offset..fields[i].End()];
    }
  }

  /** A byte in no field keeps its value. */
  lemma {:induction false} Untouched(buf: seq<byte>, fields: seq<Field>, k: nat)
    requires AllFit(fields, |buf|) && k < |buf|
    requires forall i :: 0 <= i < |fields| ==> k < fields[i].offset || fields[i].End() <= k
    ensures WriteAll(buf, fields)[k] == buf[k]
  {
    if fields != [] {
      Untouched(buf, fields[..|fields| - 1], k);
    }
  }

  /** memcpy / struct.pack_into: overwrite a run of an array in place. */
  method PackInto(a: array<byte>, offset: nat, bytes: seq<byte>)
    requires offset + |bytes| <= a.Length
    modifies a
    ensures a[..] == Blit(old(a[..]), Field(offset, bytes))
  {
    for i := 0 to |bytes|
      invariant a[..] == old(a[..offset]) + bytes[..i] + old(a[offset + i..])
    {
      a[offset + i] := bytes[i];
      assert a[..] == old(a[..offset]) + bytes[..i + 1] + old(a[offset + i + 1..]);
    }
    assert bytes[..|bytes|] == bytes;
  }
}
