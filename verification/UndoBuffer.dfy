/** The undo buffer of a transaction: records back to back in one byte buffer, with the offsets at
    which they start. */
module UndoBuffer {
  import opened Bytes

  class LogRecordBuffer {
    ghost var records: seq<Bytestring>
    var buffer: Bytestring
    var offsets: seq<nat>

    /** A stack of records: the buffer holds them one behind the other. */
    ghost predicate Valid()
      reads this
    {
      && buffer == Concat(records) && |offsets| == |records|
      && forall i :: 0 <= i < |offsets| ==> offsets[i] == |Concat(records[..i])|
    }

    constructor ()
      ensures Valid() && records == []
    {
      records, buffer, offsets := [], [], [];
    }

    /** Reserves room for a record, which the caller fills in. */
    method Allocate(record: Bytestring)
      requires Valid()
      modifies this
      ensures Valid() && records == old(records) + [record]
    {
      ConcatAppend(records, record);
      forall i | 0 <= i < |offsets| ensures (records + [record])[..i] == records[..i] {}
      assert (records + [record])[..|records|] == records;
      var bufLen := |buffer|;
      buffer := buffer + record;
      offsets := offsets + [bufLen];
      records := records + [record];
    }

    method Len() returns (n: nat)
      requires Valid()
      ensures n == |records|
    {
      return |offsets|;
    }

    method Get(i: nat) returns (record: Bytestring)
      requires Valid() && i < |records|
      ensures record == records[i]
    {
      ConcatAt(records, i);
      var start := offsets[i];
      var end := |buffer|;
      if i + 1 < |offsets| { end := offsets[i + 1]; }
      else { assert records[..i + 1] == records; }
      return buffer[start..end];
    }

    /** Removes the most recent record. */
    method Pop()
      requires Valid() && records != []
      modifies this
      ensures Valid() && records == old(records)[..|old(records)| - 1]
    {
      var n := |offsets| - 1;
      ConcatPrefix(records, n);
      forall i | 0 <= i < n ensures records[..n][..i] == records[..i] {}
      buffer := buffer[..offsets[n]];
      offsets := offsets[..n];
      records := records[..n];
    }

    method Reset()
      requires Valid()
      modifies this
      ensures Valid() && records == []
    {
      buffer, offsets, records := [], [], [];
    }
  }
}
