/** Map columns of a result vector: every row is a range of one child list that all
    rows share.  And validity masks, one bit to a row. */
module RaggedMaps {
  import opened Wrappers
  import opened Flattening

  // ----- validity

  /** A mask of rows that are not NULL, 64 to a word; no mask means all are. */
  type Mask = Option<seq<bv64>>

  function Lane(k: nat): (b: bv7)
    requires k < 64
    ensures b < 64 && b as nat == k
  {
    k as bv7
  }

  predicate Has(word: bv64, lane: bv7)
    requires lane < 64
  {
    word & (1 << lane) != 0
  }

  function Marked(word: bv64, lane: bv7): bv64
    requires lane < 64
  {
    word | (1 << lane)
  }

  predicate Covers(mask: Mask, row: nat) {
    mask.Some? ==> row / 64 < |mask.value|
  }

  predicate RowIsValid(mask: Mask, row: nat)
    requires Covers(mask, row)
  {
    mask.Some? ==> Has(mask.value[row / 64], Lane(row % 64))
  }

  /** The mask with one more row marked as valid. */
  function WithRow(mask: seq<bv64>, row: nat): seq<bv64>
    requires row / 64 < |mask|
  {
    mask[row / 64 := Marked(mask[row / 64], Lane(row % 64))]
  }

  lemma BitSet(a: bv7, b: bv7, w: bv64)
    requires a < 64 && b < 64
    ensures (w | (1 << a)) & (1 << b) != 0 <==> a == b || w & (1 << b) != 0
  {
  }

  lemma MarkedHas(a: bv7, b: bv7, w: bv64)
    requires a < 64 && b < 64
    ensures Has(Marked(w, a), b) <==> a == b || Has(w, b)
  {
    BitSet(a, b, w);
  }

  lemma LanesApart(row: nat, other: nat)
    ensures row / 64 == other / 64 ==> (Lane(row % 64) == Lane(other % 64) <==> row == other)
  {
    assert Lane(row % 64) == Lane(other % 64) ==> row % 64 == other % 64;
  }

  /** Marking a row changes what the mask says of that row and of no other. */
  lemma MaskExact(mask: seq<bv64>, row: nat, other: nat)
    requires row / 64 < |mask| && other / 64 < |mask|
    ensures RowIsValid(Some(WithRow(mask, row)), other) <==> other == row || RowIsValid(Some(mask), other)
  {
    hide Has, Marked, Lane;
    LanesApart(row, other);
    MarkedHas(Lane(row % 64), Lane(other % 64), mask[row / 64]);
  }

  // ----- ragged rows

  datatype Header = Header(name: string, value: string)

  datatype Range = Range(offset: nat, length: nat)

  /** Where a row begins in the child list: after all the rows before it. */
  function Offset(rows: seq<seq<Header>>, r: nat): nat
    requires r <= |rows|
  {
    |Flatten(rows[..r])|
  }

  lemma OffsetStep(rows: seq<seq<Header>>, r: nat)
    requires r < |rows|
    ensures Offset(rows, r + 1) == Offset(rows, r) + |rows[r]|
    ensures Flatten(rows[..r + 1]) == Flatten(rows[..r]) + rows[r]
  {
    assert rows[..r + 1] == rows[..r] + [rows[r]];
    FlattenAppend(rows[..r], rows[r]);
  }

  lemma {:induction false} RowInside(rows: seq<seq<Header>>, r: nat, n: nat)
    requires r < n <= |rows|
    ensures Offset(rows, r) <= Offset(rows, r + 1) <= Offset(rows, n)
    ensures Flatten(rows[..n])[Offset(rows, r)..Offset(rows, r + 1)] == rows[r]
    decreases n - r
  {
    OffsetStep(rows, r);
    OffsetStep(rows, n - 1);
    if r + 1 < n {
      RowInside(rows, r, n - 1);
    }
  }

  /** The rows' ranges tile the child list in row order: they are as long as the
      rows, every one begins where the one before ends, and every position of the
      list lies in the range of exactly one row. */
  lemma RangesPartition(rows: seq<seq<Header>>, p: nat) returns (r: nat)
    requires p < |Flatten(rows)|
    ensures r < |rows| && Offset(rows, r) <= p < Offset(rows, r + 1)
    ensures forall q :: 0 <= q < |rows| && Offset(rows, q) <= p < Offset(rows, q) + |rows[q]| ==> q == r
    ensures Offset(rows, 0) == 0 && Offset(rows, |rows|) == |Flatten(rows)|
  {
    assert rows[..|rows|] == rows;
    r := FindRow(rows, |rows|, p);
    forall q | 0 <= q < |rows| && Offset(rows, q) <= p < Offset(rows, q) + |rows[q]|
      ensures q == r
    {
      OffsetStep(rows, q);
      if q < r {
        OffsetsGrow(rows, q + 1, r);
      } else if r < q {
        OffsetsGrow(rows, r + 1, q);
      }
    }
  }

  lemma {:induction false} FindRow(rows: seq<seq<Header>>, n: nat, p: nat) returns (r: nat)
    requires n <= |rows| && p < Offset(rows, n)
    ensures r < n && Offset(rows, r) <= p < Offset(rows, r + 1)
  {
    if p < Offset(rows, n - 1) {
      r := FindRow(rows, n - 1, p);
    } else {
      r := n - 1;
    }
  }

  lemma {:induction false} OffsetsGrow(rows: seq<seq<Header>>, a: nat, b: nat)
    requires a <= b <= |rows|
    ensures Offset(rows, a) <= Offset(rows, b)
    decreases b - a
  {
    if a < b {
      OffsetStep(rows, b - 1);
      OffsetsGrow(rows, a, b - 1);
    }
  }

  function Zip(names: seq<string>, values: seq<string>): (s: seq<Header>)
    requires |names| == |values|
    ensures |s| == |names| && forall i :: 0 <= i < |s| ==> s[i] == Header(names[i], values[i])
  {
    seq(|names|, i requires 0 <= i < |names| => Header(names[i], values[i]))
  }

  /** A map column.  Keys and values are two vectors of their own, of one length;
      `size` is the part of them in use. */
  class MapVector {
    var entries: array<Range>
    var keys: array<string>
    var values: array<string>
    var size: nat

    ghost predicate Aligned()
      reads this`keys, this`values
    {
      keys != values && keys.Length == values.Length
    }

    ghost predicate Valid()
      reads this`keys, this`values, this`size
    {
      Aligned() && size <= keys.Length
    }

    constructor (capacity: nat)
      ensures Valid() && fresh(entries) && fresh(keys) && fresh(values) && entries.Length == capacity && size == 0
    {
      entries := new Range[capacity](_ => Range(0, 0));
      keys := new string[0];
      values := new string[0];
      size := 0;
    }

    /** The pairs in the child list from one position to another. */
    ghost function Pairs(from: nat, to: nat): (s: seq<Header>)
      requires Aligned() && from <= to <= keys.Length
      reads this`keys, this`values, keys, values
      ensures |s| == to - from
    {
      Zip(keys[from..to], values[from..to])
    }

    /** The first n rows have been written, one after the other. */
    ghost predicate Written(rows: seq<seq<Header>>, n: nat)
      requires Aligned()
      reads this`entries, this`keys, this`values, entries, keys, values
    {
      && n <= |rows| && n <= entries.Length && Offset(rows, n) <= keys.Length
      && (forall r :: 0 <= r < n ==> entries[r] == Range(Offset(rows, r), |rows[r]|))
      && Pairs(0, Offset(rows, n)) == Flatten(rows[..n])
    }

    /** Makes room for n pairs. */
    method Reserve(n: nat)
      requires Valid()
      modifies this`keys, this`values
      ensures Valid() && keys.Length >= n
      ensures keys == old(keys) || fresh(keys)
      ensures values == old(values) || fresh(values)
      ensures Pairs(0, size) == old(Pairs(0, size))
    {
      if keys.Length < n {
        var k, v, from, to := keys, values, new string[n](_ => ""), new string[n](_ => "");
        for i := 0 to size
          invariant keys == k && values == v && from != to
          invariant forall j :: 0 <= j < i ==> from[j] == k[j] && to[j] == v[j]
        {
          from[i], to[i] := k[i], v[i];
        }
        keys, values := from, to;
      }
    }

    /** Writes the pairs of one row from `offset` on, and says where they end. */
    method WriteMapEntry(row: nat, kvs: seq<Header>, offset: nat) returns (next: nat)
      requires Aligned() && row < entries.Length && offset + |kvs| <= keys.Length
      modifies entries, keys, values
      ensures next == offset + |kvs|
      ensures entries[..] == old(entries[..])[row := Range(offset, |kvs|)]
      ensures Pairs(offset, next) == kvs
      ensures Pairs(0, offset) == old(Pairs(0, offset))
      ensures Pairs(next, keys.Length) == old(Pairs(offset + |kvs|, keys.Length))
    {
      entries[row] := Range(offset, |kvs|);
      next := offset;
      for i := 0 to |kvs|
        invariant next == offset + i
        invariant entries[..] == old(entries[..])[row := Range(offset, |kvs|)]
        invariant forall j :: 0 <= j < i ==> keys[offset + j] == kvs[j].name && values[offset + j] == kvs[j].value
        invariant forall j :: 0 <= j < keys.Length && !(offset <= j < next) ==> keys[j] == old(keys[j]) && values[j] == old(values[j])
      {
        keys[next] := kvs[i].name;
        values[next] := kvs[i].value;
        next := next + 1;
      }
      assert forall j :: 0 <= j < |kvs| ==> Pairs(offset, next)[j] == kvs[j];
    }

    lemma WrittenStep(rows: seq<seq<Header>>, n: nat)
      requires Aligned() && n < |rows| && n < entries.Length && Offset(rows, n + 1) <= keys.Length
      requires forall r :: 0 <= r <= n ==> entries[r] == Range(Offset(rows, r), |rows[r]|)
      requires Offset(rows, n) <= keys.Length && Pairs(0, Offset(rows, n)) == Flatten(rows[..n])
      requires Offset(rows, n + 1) == Offset(rows, n) + |rows[n]| && Pairs(Offset(rows, n), Offset(rows, n + 1)) == rows[n]
      ensures Written(rows, n + 1)
    {
      OffsetStep(rows, n);
      assert Pairs(0, Offset(rows, n + 1)) == Pairs(0, Offset(rows, n)) + Pairs(Offset(rows, n), Offset(rows, n + 1));
    }

    /** Writes the next row of a column. */
    method WriteRow(rows: seq<seq<Header>>, r: nat, offset: nat) returns (next: nat)
      requires Aligned() && r < |rows| && r < entries.Length
      requires Written(rows, r) && offset == Offset(rows, r) && Offset(rows, |rows|) <= keys.Length
      modifies entries, keys, values
      ensures Written(rows, r + 1) && next == Offset(rows, r + 1)
    {
      OffsetStep(rows, r);
      OffsetsGrow(rows, r + 1, |rows|);
      hide Offset, Flatten;
      next := WriteMapEntry(r, rows[r], offset);
      forall q | 0 <= q <= r
        ensures entries[q] == Range(Offset(rows, q), |rows[q]|)
      {
        assert entries[..][q] == entries[q];
      }
      WrittenStep(rows, r);
    }

    /** Reads a row; nothing if it is NULL. */
    method ReadMapVector(validity: Mask, row: nat) returns (result: seq<Header>)
      requires Aligned() && Covers(validity, row) && row < entries.Length
      requires entries[row].offset + entries[row].length <= keys.Length
      ensures result == if RowIsValid(validity, row) then RowPairs(row) else []
    {
      hide Has, Lane;
      result := [];
      if validity.Some? && !Has(validity.value[row / 64], Lane(row % 64)) {
        return;
      }
      var offset, length := entries[row].offset, entries[row].length;
      for i := 0 to length
        invariant result == Pairs(offset, offset + i)
      {
        assert Pairs(offset, offset + i + 1) == Pairs(offset, offset + i) + [Header(keys[offset + i], values[offset + i])];
        result := result + [Header(keys[offset + i], values[offset + i])];
      }
    }

    ghost function RowPairs(row: nat): seq<Header>
      requires Aligned() && row < entries.Length && entries[row].offset + entries[row].length <= keys.Length
      reads this`entries, this`keys, this`values, entries, keys, values
    {
      Pairs(entries[row].offset, entries[row].offset + entries[row].length)
    }

    /** Ragged round trip.  Once the rows are written, reading row r gives exactly
        row r, whatever the lengths of the others. */
    lemma RowsReadBack(rows: seq<seq<Header>>, n: nat, r: nat)
      requires Aligned() && Written(rows, n) && r < n
      ensures entries[r].offset + entries[r].length <= keys.Length
      ensures RowPairs(r) == rows[r]
    {
      RowInside(rows, r, n);
      OffsetStep(rows, r);
      var from, to := Offset(rows, r), Offset(rows, r + 1);
      assert Pairs(from, to) == Pairs(0, Offset(rows, n))[from..to];
    }
  }

  /** Two columns that share no vector. */
  ghost predicate Apart(a: MapVector, b: MapVector)
    reads a, b
  {
    && a.entries != b.entries
    && a.keys != b.keys && a.keys != b.values && a.values != b.keys && a.values != b.values
  }

  method TotalSize(rows: seq<seq<Header>>) returns (total: nat)
    ensures total == |Flatten(rows)|
  {
    total := 0;
    for r := 0 to |rows|
      invariant total == Offset(rows, r)
    {
      OffsetStep(rows, r);
      total := total + |rows[r]|;
    }
    assert rows[..|rows|] == rows;
  }

  /** Writes two columns row by row, each with its own running offset. */
  method WriteRows(req: MapVector, resp: MapVector, reqRows: seq<seq<Header>>, respRows: seq<seq<Header>>)
    requires req.Aligned() && resp.Aligned() && Apart(req, resp)
    requires |reqRows| == |respRows| && |reqRows| <= req.entries.Length && |respRows| <= resp.entries.Length
    requires |Flatten(reqRows)| <= req.keys.Length && |Flatten(respRows)| <= resp.keys.Length
    modifies req.entries, req.keys, req.values, resp.entries, resp.keys, resp.values
    ensures req.Written(reqRows, |reqRows|) && resp.Written(respRows, |respRows|)
  {
    var reqOffset, respOffset := 0, 0;
    var n := |reqRows|;
    assert reqRows[..n] == reqRows && respRows[..n] == respRows;
    NothingWritten(req, reqRows);
    NothingWritten(resp, respRows);
    hide Offset, Flatten, MapVector.Written, MapVector.Pairs, Zip;
    for r := 0 to n
      invariant reqOffset == Offset(reqRows, r) && req.Written(reqRows, r)
      invariant respOffset == Offset(respRows, r) && resp.Written(respRows, r)
    {
      reqOffset := req.WriteRow(reqRows, r, reqOffset);
      respOffset := resp.WriteRow(respRows, r, respOffset);
    }
  }

  /** Writes the two map columns of a chunk.  Room is made once, for as many pairs
      as there are. */
  method WriteHeaders(req: MapVector, resp: MapVector, reqRows: seq<seq<Header>>, respRows: seq<seq<Header>>)
    requires req.Valid() && resp.Valid() && Apart(req, resp) && req != resp
    requires |reqRows| == |respRows| && |reqRows| <= req.entries.Length && |respRows| <= resp.entries.Length
    modifies req, req.entries, req.keys, req.values, resp, resp.entries, resp.keys, resp.values
    ensures req.Valid() && req.size == |Flatten(reqRows)| && req.Written(reqRows, |reqRows|)
    ensures resp.Valid() && resp.size == |Flatten(respRows)| && resp.Written(respRows, |respRows|)
  {
    hide Flatten, MapVector.Written, MapVector.Pairs, Zip;
    var totalReq := TotalSize(reqRows);
    var totalResp := TotalSize(respRows);
    req.Reserve(totalReq);
    resp.Reserve(totalResp);
    WriteRows(req, resp, reqRows, respRows);
    req.size := totalReq;
    resp.size := totalResp;
  }

  lemma NothingWritten(v: MapVector, rows: seq<seq<Header>>)
    requires v.Aligned()
    ensures v.Written(rows, 0) && Offset(rows, 0) == 0
  {
  }
}
