/** The bitrates of the spatial and temporal layers with their cached sum (class BitrateAllocation). */
module BitrateAllocation {

  const SPATIAL_LAYERS := 5
  const TEMPORAL_STREAMS := 4
  const MAX_BITRATE := 0xFFFF_FFFF

  function RowSum(row: seq<nat>): nat {
    if row == [] then 0 else RowSum(row[..|row| - 1]) + row[|row| - 1]
  }

  function Total(rows: seq<seq<nat>>): nat {
    if rows == [] then 0 else Total(rows[..|rows| - 1]) + RowSum(rows[|rows| - 1])
  }

  lemma {:induction false} RowSumUpdate(row: seq<nat>, i: nat, x: nat)
    requires i < |row|
    ensures RowSum(row[i := x]) == RowSum(row) - row[i] + x
  {
    var n := |row| - 1;
    if i == n {
      assert row[i := x][..n] == row[..n];
    } else {
      RowSumUpdate(row[..n], i, x);
      assert row[i := x][..n] == row[..n][i := x];
    }
  }

  lemma {:induction false} TotalUpdate(rows: seq<seq<nat>>, i: nat, row: seq<nat>)
    requires i < |rows|
    ensures Total(rows[i := row]) == Total(rows) - RowSum(rows[i]) + RowSum(row)
  {
    var n := |rows| - 1;
    if i == n {
      assert rows[i := row][..n] == rows[..n];
    } else {
      TotalUpdate(rows[..n], i, row);
      assert rows[i := row][..n] == rows[..n][i := row];
    }
  }

  lemma RowSumPrefix(row: seq<nat>, i: nat)
    requires i < |row|
    ensures RowSum(row[..i + 1]) == RowSum(row[..i]) + row[i]
  {
    assert row[..i + 1][..i] == row[..i];
  }

  lemma TotalPrefix(rows: seq<seq<nat>>, i: nat)
    requires i < |rows|
    ensures Total(rows[..i + 1]) == Total(rows[..i]) + RowSum(rows[i])
  {
    assert rows[..i + 1][..i] == rows[..i];
  }

  /** A prefix sums to at most the whole; when to the whole, the rest is zero. */
  lemma {:induction false} RowPrefixBound(row: seq<nat>, i: nat)
    requires i <= |row|
    ensures RowSum(row[..i]) <= RowSum(row)
    ensures RowSum(row[..i]) == RowSum(row) ==> forall j :: i <= j < |row| ==> row[j] == 0
    decreases |row| - i
  {
    if i == |row| {
      assert row[..i] == row;
    } else {
      RowSumPrefix(row, i);
      RowPrefixBound(row, i + 1);
    }
  }

  lemma {:induction false} TotalPrefixBound(rows: seq<seq<nat>>, i: nat)
    requires i <= |rows|
    ensures Total(rows[..i]) <= Total(rows)
    ensures Total(rows[..i]) == Total(rows) ==> forall j :: i <= j < |rows| ==> RowSum(rows[j]) == 0
    decreases |rows| - i
  {
    if i == |rows| {
      assert rows[..i] == rows;
    } else {
      TotalPrefix(rows, i);
      TotalPrefixBound(rows, i + 1);
    }
  }

  lemma EntryBound(rows: seq<seq<nat>>, i: nat, j: nat)
    requires i < |rows| && j < |rows[i]|
    ensures rows[i][j] <= RowSum(rows[i]) <= Total(rows)
  {
    RowSumUpdate(rows[i], j, 0);
    TotalUpdate(rows, i, []);
  }

  /** The matrix with one entry replaced. */
  function Replaced(rows: seq<seq<nat>>, i: nat, j: nat, x: nat): seq<seq<nat>>
    requires i < |rows| && j < |rows[i]|
  {
    var row: seq<nat> := rows[i];
    var row': seq<nat> := row[j := x];
    rows[i := row']
  }

  // ---- what ToString shows ----

  /** `shown` lists the rows of the matrix from the first one on, each from its first entry on; what it
      leaves out, rows or entries, is zero. */
  ghost predicate Shows(shown: seq<seq<nat>>, rows: seq<seq<nat>>) {
    && |shown| <= |rows|
    && (forall i :: 0 <= i < |shown| ==> ShowsRow(shown[i], rows[i]))
    && (forall i :: |shown| <= i < |rows| ==> ShowsRow([], rows[i]))
  }

  ghost predicate ShowsRow(shown: seq<nat>, row: seq<nat>) {
    shown <= row && forall j :: |shown| <= j < |row| ==> row[j] == 0
  }

  /** Nothing is lost: two allocations that show the same are the same. */
  lemma ShownDetermines(shown: seq<seq<nat>>, a: seq<seq<nat>>, b: seq<seq<nat>>)
    requires |a| == |b| && forall i :: 0 <= i < |a| ==> |a[i]| == |b[i]|
    requires Shows(shown, a) && Shows(shown, b)
    ensures a == b
  {
    forall i | 0 <= i < |a| ensures a[i] == b[i] {
      var row := if i < |shown| then shown[i] else [];
      assert ShowsRow(row, a[i]) && ShowsRow(row, b[i]);
    }
  }

  class BitrateAllocation {
    var sum: nat
    const bitrates: array2<nat>

    ghost function Row(i: nat): (row: seq<nat>)
      requires i < bitrates.Length0
      reads bitrates
      ensures |row| == bitrates.Length1
      ensures forall j :: 0 <= j < |row| ==> row[j] == bitrates[i, j]
    {
      seq(bitrates.Length1, j requires 0 <= j < bitrates.Length1 reads bitrates => bitrates[i, j])
    }

    ghost function Rows(): (rows: seq<seq<nat>>)
      reads bitrates
      ensures |rows| == bitrates.Length0
      ensures forall i :: 0 <= i < |rows| ==> rows[i] == Row(i)
    {
      seq(bitrates.Length0, i requires 0 <= i < bitrates.Length0 reads bitrates => Row(i))
    }

    /** The cached sum is the sum of all entries, and fits in 32 bits. */
    ghost predicate Valid()
      reads this, bitrates
    {
      && bitrates.Length0 == SPATIAL_LAYERS && bitrates.Length1 == TEMPORAL_STREAMS
      && sum == Total(Rows()) <= MAX_BITRATE
    }

    constructor ()
      ensures Valid() && fresh(bitrates) && sum == 0
      ensures forall i, j :: 0 <= i < SPATIAL_LAYERS && 0 <= j < TEMPORAL_STREAMS ==> bitrates[i, j] == 0
    {
      sum := 0;
      bitrates := new nat[SPATIAL_LAYERS, TEMPORAL_STREAMS]((_, _) => 0);
      new;
      ZeroTotal(Rows());
    }

    /** A bitrate is replaced when the new sum fits in 32 bits; otherwise nothing changes. The source
        aborts when an index is out of range; its third check always holds. */
    method SetBitrate(spatial: nat, temporal: nat, bitrate: nat) returns (ok: bool)
      requires Valid() && spatial < SPATIAL_LAYERS && temporal < TEMPORAL_STREAMS && bitrate <= MAX_BITRATE
      modifies this, bitrates
      ensures Valid()
      ensures ok <==> Total(old(Rows())) - old(bitrates[spatial, temporal]) + bitrate <= 0xFFFF_FFFF
      ensures ok ==> Rows() == Replaced(old(Rows()), spatial, temporal, bitrate)
      ensures !ok ==> sum == old(sum) && Rows() == old(Rows())
    {
      ghost var rows := Rows();
      EntryBound(rows, spatial, temporal);
      assert bitrates[spatial, temporal] <= sum;
      var newSum := sum;
      newSum := newSum - bitrates[spatial, temporal];
      newSum := newSum + bitrate;
      if newSum > MAX_BITRATE {
        return false;
      }
      ghost var row: seq<nat> := rows[spatial];
      RowSumUpdate(row, temporal, bitrate);
      TotalUpdate(rows, spatial, row[temporal := bitrate]);
      bitrates[spatial, temporal] := bitrate;
      sum := newSum;
      assert Row(spatial) == row[temporal := bitrate];
      forall i | 0 <= i < SPATIAL_LAYERS && i != spatial ensures Row(i) == rows[i] {
      }
      assert Rows() == Replaced(rows, spatial, temporal, bitrate);
      return true;
    }

    function GetBitrate(spatial: nat, temporal: nat): (bitrate: nat)
      requires Valid() && spatial < SPATIAL_LAYERS && temporal < TEMPORAL_STREAMS
      reads this, bitrates
      ensures bitrate == Rows()[spatial][temporal]
    {
      bitrates[spatial, temporal]
    }

    /** The sum of one layer fits in 32 bits as well. */
    method GetSpatialLayerSum(spatial: nat) returns (layerSum: nat)
      requires Valid() && spatial < SPATIAL_LAYERS
      ensures layerSum == RowSum(Row(spatial)) <= sum <= MAX_BITRATE
    {
      layerSum := 0;
      for i := 0 to TEMPORAL_STREAMS
        invariant layerSum == RowSum(Row(spatial)[..i])
      {
        RowSumPrefix(Row(spatial), i);
        layerSum := layerSum + bitrates[spatial, i];
      }
      assert Row(spatial)[..TEMPORAL_STREAMS] == Row(spatial);
      LayerBound(Rows(), spatial);
    }

    /** The inner loop of ToString for one layer: it stops as soon as the entries add up to the layer
        sum, and never gets beyond it. */
    method ShowLayer(spatial: nat, layerSum: nat) returns (shown: seq<nat>)
      requires Valid() && spatial < SPATIAL_LAYERS && layerSum == RowSum(Row(spatial))
      ensures ShowsRow(shown, Row(spatial))
    {
      shown := [];
      var cumulator := 0;
      var ti := 0;
      while ti < TEMPORAL_STREAMS
        invariant ti <= TEMPORAL_STREAMS
        invariant shown == Row(spatial)[..ti]
        invariant cumulator == RowSum(shown)
      {
        RowPrefixBound(Row(spatial), ti);
        assert cumulator <= layerSum;
        if cumulator == layerSum {
          break;
        }
        RowSumPrefix(Row(spatial), ti);
        shown := shown + [bitrates[spatial, ti]];
        cumulator := cumulator + bitrates[spatial, ti];
        ti := ti + 1;
      }
    }

    /** The rows and entries that ToString prints, with its checks as assertions. */
    method Show() returns (shown: seq<seq<nat>>)
      requires Valid()
      ensures Shows(shown, Rows())
      ensures sum == 0 ==> shown == []
    {
      ghost var rows := Rows();
      shown := [];
      var cumulator := 0;
      var si := 0;
      while si < SPATIAL_LAYERS
        invariant si <= SPATIAL_LAYERS && |shown| == si
        invariant cumulator == Total(rows[..si])
        invariant forall i :: 0 <= i < si ==> ShowsRow(shown[i], rows[i])
        invariant sum == 0 ==> si == 0
      {
        TotalPrefixBound(rows, si);
        assert cumulator <= sum;
        if cumulator == sum {
          break;
        }
        var layerSum := GetSpatialLayerSum(si);
        TotalPrefix(rows, si);
        cumulator := cumulator + layerSum;
        var row := ShowLayer(si, layerSum);
        shown := shown + [row];
        si := si + 1;
      }
      assert rows[..SPATIAL_LAYERS] == rows;
      assert cumulator == sum;
      RestIsZero(rows, si);
    }
  }

  /** Layers behind the total are all zero. */
  lemma RestIsZero(rows: seq<seq<nat>>, si: nat)
    requires si <= |rows| && Total(rows[..si]) == Total(rows)
    ensures forall i :: si <= i < |rows| ==> ShowsRow([], rows[i])
  {
    TotalPrefixBound(rows, si);
    forall i | si <= i < |rows| ensures ShowsRow([], rows[i]) {
      RowPrefixBound(rows[i], 0);
    }
  }

  lemma {:induction false} ZeroTotal(rows: seq<seq<nat>>)
    requires forall i :: 0 <= i < |rows| ==> forall j :: 0 <= j < |rows[i]| ==> rows[i][j] == 0
    ensures Total(rows) == 0
  {
    if rows != [] {
      ZeroTotal(rows[..|rows| - 1]);
      ZeroRow(rows[|rows| - 1]);
    }
  }

  lemma {:induction false} ZeroRow(row: seq<nat>)
    requires forall j :: 0 <= j < |row| ==> row[j] == 0
    ensures RowSum(row) == 0
  {
    if row != [] {
      ZeroRow(row[..|row| - 1]);
    }
  }

  lemma LayerBound(rows: seq<seq<nat>>, i: nat)
    requires i < |rows|
    ensures RowSum(rows[i]) <= Total(rows)
  {
    TotalUpdate(rows, i, []);
  }
}
