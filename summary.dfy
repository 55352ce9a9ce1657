/**
 * The summaries endpoint: the filtered rows, ordered by device uuid, are
 * grouped per device in a dictionary, and one entry of statistics is
 * emitted per device, in the order the devices were first met.
 */
module Summary {
  import opened Common
  import opened Readings
  import opened Stats

  /** One entry of the summary payload. */
  datatype DeviceSummary = DeviceSummary(
    deviceUuid: string,
    numberOfReadings: nat,
    maxReadingValue: int,
    medianReadingValue: int,
    meanReadingValue: int,
    quartile1Value: Option<int>,
    quartile3Value: Option<int>)

  function DeviceFilter(u: string): Filter
  {
    Filter(Some(u), None, None, None)
  }

  /** The values of the rows of device u, in row order. */
  function Group(rows: seq<Reading>, u: string): (v: seq<int>)
    ensures |v| <= |rows|
  {
    if rows == [] then []
    else
      var last := rows[|rows| - 1];
      Group(rows[..|rows| - 1], u) + (if last.deviceUuid == u then [last.value] else [])
  }

  /**
   * A device's group holds the value of every row of that device, and
   * nothing that is not the value of such a row.
   */
  lemma {:induction false} GroupMembers(rows: seq<Reading>, u: string)
    ensures forall x :: x in Group(rows, u) ==> exists k :: 0 <= k < |rows| && rows[k].deviceUuid == u && rows[k].value == x
    ensures forall k :: 0 <= k < |rows| && rows[k].deviceUuid == u ==> rows[k].value in Group(rows, u)
  {
    if rows != [] {
      var init, last := rows[..|rows| - 1], rows[|rows| - 1];
      GroupMembers(init, u);
      assert forall k :: 0 <= k < |init| ==> rows[k] == init[k];
    }
  }

  /** The distinct device uuids of rows, in the order they are first met. */
  function Devices(rows: seq<Reading>): (ds: seq<string>)
    ensures forall i, j :: 0 <= i < j < |ds| ==> ds[i] != ds[j]
    ensures forall k :: 0 <= k < |rows| ==> rows[k].deviceUuid in ds
    ensures forall u :: u in ds ==> exists k :: 0 <= k < |rows| && rows[k].deviceUuid == u
  {
    if rows == [] then []
    else
      var init := rows[..|rows| - 1];
      var u := rows[|rows| - 1].deviceUuid;
      var ds := Devices(init);
      assert forall k :: 0 <= k < |init| ==> rows[k] == init[k];
      if u in ds then ds else ds + [u]
  }

  /**
   * Devices lists uuids in the order they are first met: the devices of any
   * prefix of the table are a prefix of the devices of the whole table.
   */
  lemma {:induction false} DevicesInFirstSeenOrder(rows: seq<Reading>, k: nat)
    requires k <= |rows|
    ensures Devices(rows[..k]) <= Devices(rows)
  {
    if k < |rows| {
      var init := rows[..|rows| - 1];
      assert rows[..k] == init[..k];
      DevicesInFirstSeenOrder(init, k);
      assert Devices(init) <= Devices(rows);
    } else {
      assert rows[..k] == rows;
    }
  }

  /** The entry of device u whose values are v, as the loop body builds it. */
  function SummaryOf(u: string, v: seq<int>): (e: DeviceSummary)
    requires v != []
    ensures e.deviceUuid == u && e.numberOfReadings == |v|
    ensures e.maxReadingValue in v && forall x :: x in v ==> x <= e.maxReadingValue
    ensures Min(v).value <= e.medianReadingValue <= e.maxReadingValue
    ensures e.meanReadingValue * |v| <= Sum(v) < e.meanReadingValue * |v| + |v|
    ensures e.quartile1Value.None? <==> |v| < 2
    ensures e.quartile3Value.None? <==> |v| < 2
    ensures |v| >= 3 ==> Min(v).value <= e.quartile1Value.value <= e.quartile3Value.value <= e.maxReadingValue
  {
    var q := Quartiles(v);
    MedianWithinRange(v);
    var e := DeviceSummary(u, |v|, Max(v).value, Median(v).value, FloorMean(v), q.0, q.1);
    if |v| >= 3 then QuartilesWithinRange(v); e else e
  }

  lemma GroupStep(rows: seq<Reading>, r: Reading, u: string)
    ensures Group(rows + [r], u) == Group(rows, u) + (if r.deviceUuid == u then [r.value] else [])
  {
    assert (rows + [r])[..|rows|] == rows;
  }

  lemma {:induction false} GroupOfUnseen(rows: seq<Reading>, u: string)
    requires u !in Devices(rows)
    ensures Group(rows, u) == []
  {
    if rows != [] {
      var init := rows[..|rows| - 1];
      assert rows == init + [rows[|rows| - 1]];
      assert u !in Devices(init);
      GroupOfUnseen(init, u);
      GroupStep(init, rows[|rows| - 1], u);
    }
  }

  lemma {:induction false} GroupOfSeen(rows: seq<Reading>, u: string)
    requires u in Devices(rows)
    ensures Group(rows, u) != []
  {
    var init := rows[..|rows| - 1];
    assert rows == init + [rows[|rows| - 1]];
    GroupStep(init, rows[|rows| - 1], u);
    if rows[|rows| - 1].deviceUuid != u {
      assert u in Devices(init);
      GroupOfSeen(init, u);
    }
  }

  /**
   * The grouping loop: the values of rows collected per device into a
   * dictionary, together with the order in which the devices were first
   * met (the insertion order a Python dict keeps).
   */
  method GroupByDevice(rows: seq<Reading>) returns (devices: map<string, seq<int>>, order: seq<string>)
    ensures order == Devices(rows)
    ensures forall u :: u in devices <==> u in order
    ensures forall u :: u in devices ==> devices[u] == Group(rows, u)
  {
    devices := map[];
    order := [];
    for i := 0 to |rows|
      invariant order == Devices(rows[..i])
      invariant forall u :: u in devices <==> u in order
      invariant forall u :: u in devices ==> devices[u] == Group(rows[..i], u)
    {
      var row := rows[i];
      var devices', order' := devices, order;
      if row.deviceUuid in devices {
        devices' := devices[row.deviceUuid := devices[row.deviceUuid] + [row.value]];
      } else {
        devices' := devices[row.deviceUuid := [row.value]];
        order' := order + [row.deviceUuid];
      }
      GroupingStep(rows[..i], row, devices, order, devices', order');
      PrefixStep(rows, i);
      devices, order := devices', order';
    }
    assert rows[..|rows|] == rows;
  }

  /** One iteration of the grouping loop keeps the dictionary equal to the groups of the rows read so far. */
  lemma GroupingStep(pre: seq<Reading>, row: Reading, devices: map<string, seq<int>>, order: seq<string>,
                     devices': map<string, seq<int>>, order': seq<string>)
    requires order == Devices(pre)
    requires forall u :: u in devices <==> u in order
    requires forall u :: u in devices ==> devices[u] == Group(pre, u)
    requires row.deviceUuid in devices ==>
               devices' == devices[row.deviceUuid := devices[row.deviceUuid] + [row.value]] && order' == order
    requires row.deviceUuid !in devices ==>
               devices' == devices[row.deviceUuid := [row.value]] && order' == order + [row.deviceUuid]
    ensures order' == Devices(pre + [row])
    ensures forall u :: u in devices' <==> u in order'
    ensures forall u :: u in devices' ==> devices'[u] == Group(pre + [row], u)
  {
    assert (pre + [row])[..|pre|] == pre;
    GroupStep(pre, row, row.deviceUuid);
    if row.deviceUuid !in devices {
      GroupOfUnseen(pre, row.deviceUuid);
    }
    forall u | u in devices' && u != row.deviceUuid
      ensures devices'[u] == Group(pre + [row], u)
    {
      GroupStep(pre, row, u);
    }
  }

  /**
   * The summaries loop: one entry per device, in first-met order, with its
   * count, maximum, median, floor mean and first and third quartiles (both
   * null for a device with a single reading).
   */
  method Summarize(rows: seq<Reading>) returns (payload: seq<DeviceSummary>)
    ensures |payload| == |Devices(rows)|
    ensures forall t :: 0 <= t < |payload| ==>
              Group(rows, Devices(rows)[t]) != [] &&
              payload[t] == SummaryOf(Devices(rows)[t], Group(rows, Devices(rows)[t]))
  {
    var devices, order := GroupByDevice(rows);
    payload := [];
    for j := 0 to |order|
      invariant |payload| == j
      invariant forall t :: 0 <= t < j ==>
                  Group(rows, order[t]) != [] && payload[t] == SummaryOf(order[t], Group(rows, order[t]))
    {
      var u := order[j];
      var v := devices[u];
      GroupOfSeen(rows, u);
      var quartiles := if |v| >= 2 then Quartiles(v) else (None, None);
      payload := payload + [DeviceSummary(u, |v|, Max(v).value, Median(v).value, Sum(v) / |v|, quartiles.0, quartiles.1)];
    }
  }

  // ---------------------------------------------------------------------
  // What the summary says about the rows it was given
  // ---------------------------------------------------------------------

  /** A device's group is the value column of what the per-device read selects. */
  lemma {:induction false} GroupIsDeviceSelection(rows: seq<Reading>, u: string)
    ensures Group(rows, u) == Values(Select(rows, DeviceFilter(u)))
  {
    if rows != [] {
      var init, last := rows[..|rows| - 1], rows[|rows| - 1];
      assert rows == init + [last];
      GroupIsDeviceSelection(init, u);
      SelectAppend(init, last, DeviceFilter(u));
      ValuesConcat(Select(init, DeviceFilter(u)), if last.deviceUuid == u then [last] else []);
      assert Values([last]) == [last.value];
    }
  }

  /** The sizes of the groups of the devices ds, added up. */
  function GroupSizes(rows: seq<Reading>, ds: seq<string>): nat
  {
    if ds == [] then 0 else GroupSizes(rows, ds[..|ds| - 1]) + |Group(rows, ds[|ds| - 1])|
  }

  lemma {:induction false} GroupSizesStep(rows: seq<Reading>, r: Reading, ds: seq<string>)
    requires forall i, j :: 0 <= i < j < |ds| ==> ds[i] != ds[j]
    ensures GroupSizes(rows + [r], ds) == GroupSizes(rows, ds) + (if r.deviceUuid in ds then 1 else 0)
  {
    if ds != [] {
      var init := ds[..|ds| - 1];
      assert ds == init + [ds[|ds| - 1]];
      GroupSizesStep(rows, r, init);
      GroupStep(rows, r, ds[|ds| - 1]);
    }
  }

  /** Every row is counted in exactly one entry: the counts add up to the rows read. */
  lemma {:induction false} CountsAddUp(rows: seq<Reading>)
    ensures GroupSizes(rows, Devices(rows)) == |rows|
  {
    if rows != [] {
      var init, last := rows[..|rows| - 1], rows[|rows| - 1];
      assert rows == init + [last];
      var ds := Devices(init);
      CountsAddUp(init);
      GroupSizesStep(init, last, ds);
      if last.deviceUuid !in ds {
        assert Devices(rows) == ds + [last.deviceUuid];
        assert (ds + [last.deviceUuid])[..|ds|] == ds;
        GroupOfUnseen(init, last.deviceUuid);
        GroupStep(init, last, last.deviceUuid);
      }
    }
  }

  /** SQLite's BINARY collation on text: lexicographic order of the characters. */
  predicate LexLeq(a: string, b: string)
  {
    a == [] || (b != [] && (a[0] < b[0] || (a[0] == b[0] && LexLeq(a[1..], b[1..]))))
  }

  /** What ORDER BY device_uuid guarantees of the rows it returns. */
  predicate SortedByDevice(rows: seq<Reading>)
  {
    forall i, j :: 0 <= i < j < |rows| ==> LexLeq(rows[i].deviceUuid, rows[j].deviceUuid)
  }

  /** Rows sorted by device give entries in ascending device order, each device once. */
  lemma {:induction false} DevicesAscending(rows: seq<Reading>)
    requires SortedByDevice(rows)
    ensures forall i, j :: 0 <= i < j < |Devices(rows)| ==>
              Devices(rows)[i] != Devices(rows)[j] && LexLeq(Devices(rows)[i], Devices(rows)[j])
  {
    if rows != [] {
      var init, last := rows[..|rows| - 1], rows[|rows| - 1];
      assert SortedByDevice(init) by {
        assert forall i :: 0 <= i < |init| ==> init[i] == rows[i];
      }
      DevicesAscending(init);
      var ds := Devices(init);
      if last.deviceUuid !in ds {
        forall i | 0 <= i < |ds|
          ensures LexLeq(ds[i], last.deviceUuid)
        {
          assert ds[i] in ds;
          var k :| 0 <= k < |init| && init[k].deviceUuid == ds[i];
          assert rows[k] == init[k];
        }
      }
    }
  }

  /**
   * Reading the summary rows as a permutation of a filtered table read, the
   * group of device u holds exactly the values the same filter narrowed to u
   * selects, whatever order the engine returned the rows in.
   */
  lemma DeviceGroupIsDeviceRead(table: seq<Reading>, f: Filter, fetched: seq<Reading>, u: string)
    requires f.device.None?
    requires multiset(fetched) == multiset(Select(table, f))
    ensures multiset(Group(fetched, u)) == multiset(Values(Select(table, f.(device := Some(u)))))
  {
    GroupIsDeviceSelection(fetched, u);
    var a := Select(fetched, DeviceFilter(u));
    var b := Select(table, f.(device := Some(u)));
    assert multiset(a) == multiset(b) by {
      forall r
        ensures multiset(a)[r] == multiset(b)[r]
      {
        assert Matches(r, f.(device := Some(u))) <==> Matches(r, DeviceFilter(u)) && Matches(r, f);
      }
    }
    ValuesOrderIndependent(a, b);
  }

  /**
   * Each summary entry agrees with the per-device endpoints under the same
   * filter: the count is the number of rows the device read selects, and
   * the maximum, median and quartiles are what those endpoints answer. The
   * mean is the floor mean of the same values (see MeanAgreesWithFloorMean
   * for when it equals the mean endpoint's answer).
   */
  lemma SummaryAgreesWithDeviceEndpoints(table: seq<Reading>, f: Filter, fetched: seq<Reading>, u: string)
    requires f.device.None?
    requires multiset(fetched) == multiset(Select(table, f))
    requires u in Devices(fetched)
    ensures var v := Values(Select(table, f.(device := Some(u))));
            Group(fetched, u) != [] && v != [] &&
            var e := SummaryOf(u, Group(fetched, u));
            && e.numberOfReadings == |v|
            && Max(v) == Some(e.maxReadingValue)
            && Median(v) == Some(e.medianReadingValue)
            && e.meanReadingValue == FloorMean(v)
            && Quartiles(v) == (e.quartile1Value, e.quartile3Value)
  {
    var g := Group(fetched, u);
    var v := Values(Select(table, f.(device := Some(u))));
    GroupOfSeen(fetched, u);
    DeviceGroupIsDeviceRead(table, f, fetched, u);
    assert |g| == |multiset(g)| == |multiset(v)| == |v|;
    MaxOrderIndependent(g, v);
    MedianOrderIndependent(g, v);
    SumOrderIndependent(g, v);
    QuartilesOrderIndependent(g, v);
  }
}
