/**
 * The table the repository's tests set up at time t, and what the reads,
 * the summary and the submission path make of it.
 */
module TableScenario {
  import opened Common
  import opened Readings
  import opened Stats
  import opened Utils
  import opened Store
  import opened Summary
  import opened Scenario

  /** The six rows inserted at time t, in insertion order. */
  predicate SetUpRows(rows: seq<Reading>, t: int)
  {
    && |rows| == 6
    && rows[0] == Reading("test_device", "temperature", 22, t - 100)
    && rows[1] == Reading("test_device", "temperature", 50, t - 50)
    && rows[2] == Reading("test_device", "temperature", 100, t)
    && rows[3] == Reading("test_device", "humidity", 73, t + 50)
    && rows[4] == Reading("other_uuid", "temperature", 22, t)
    && rows[5] == Reading("other_uuid", "temperature", 30, t)
  }

  function Pick(r: Reading, f: Filter): seq<Reading>
  {
    if Matches(r, f) then [r] else []
  }

  lemma SelectPrefix(rows: seq<Reading>, k: nat, f: Filter)
    requires k < |rows|
    ensures Select(rows[..k + 1], f) == Select(rows[..k], f) + Pick(rows[k], f)
  {
    assert rows[..k + 1] == rows[..k] + [rows[k]];
    SelectAppend(rows[..k], rows[k], f);
  }

  lemma SelectOfSix(rows: seq<Reading>, f: Filter)
    requires |rows| == 6
    ensures Select(rows, f) == Pick(rows[0], f) + Pick(rows[1], f) + Pick(rows[2], f)
                             + Pick(rows[3], f) + Pick(rows[4], f) + Pick(rows[5], f)
  {
    assert rows[..0] == [];
    SelectPrefix(rows, 0, f);
    var s1 := Select(rows[..1], f);
    assert s1 == Pick(rows[0], f);
    SelectPrefix(rows, 1, f);
    var s2 := Select(rows[..2], f);
    assert s2 == s1 + Pick(rows[1], f);
    SelectPrefix(rows, 2, f);
    var s3 := Select(rows[..3], f);
    assert s3 == s2 + Pick(rows[2], f);
    SelectPrefix(rows, 3, f);
    var s4 := Select(rows[..4], f);
    assert s4 == s3 + Pick(rows[3], f);
    SelectPrefix(rows, 4, f);
    var s5 := Select(rows[..5], f);
    assert s5 == s4 + Pick(rows[4], f);
    SelectPrefix(rows, 5, f);
    assert rows[..6] == rows;
  }

  /**
   * The concatenations of the six picks the reads below produce, stated once
   * over arbitrary readings so that the reads need not rebuild them on literals.
   */
  lemma Concatenations(a: Reading, b: Reading, c: Reading, d: Reading, e: Reading, f: Reading)
    ensures [a] + [b] + [c] + [d] + [] + [] == [a, b, c, d]
    ensures [a] + [b] + [c] + [] + [] + [] == [a, b, c]
    ensures [] + [] + [] + [d] + [] + [] == [d]
    ensures [] + [b] + [c] + [] + [] + [] == [b, c]
    ensures [] + [] + [] + [] + [e] + [f] == [e, f]
  {
  }

  function TestDevice(sensorType: Option<string>): Filter
  {
    Filter(Some("test_device"), None, None, sensorType)
  }

  lemma PickFactsOfTestDevice(rows: seq<Reading>, t: int)
    requires SetUpRows(rows, t)
    ensures Pick(rows[0], TestDevice(None)) == [rows[0]] && Pick(rows[1], TestDevice(None)) == [rows[1]]
    ensures Pick(rows[2], TestDevice(None)) == [rows[2]] && Pick(rows[3], TestDevice(None)) == [rows[3]]
    ensures Pick(rows[4], TestDevice(None)) == [] && Pick(rows[5], TestDevice(None)) == []
  {
  }

  lemma PicksOfTestDevice(rows: seq<Reading>, t: int)
    requires SetUpRows(rows, t)
    ensures Select(rows, TestDevice(None)) == [rows[0], rows[1], rows[2], rows[3]]
  {
    var f := TestDevice(None);
    SelectOfSix(rows, f);
    PickFactsOfTestDevice(rows, t);
    Concatenations(rows[0], rows[1], rows[2], rows[3], rows[4], rows[5]);
  }

  /** The test device's read returns its four rows, whose values feed the aggregate endpoints. */
  lemma ReadOfTestDevice(rows: seq<Reading>, t: int)
    requires SetUpRows(rows, t)
    ensures Select(rows, TestDevice(None)) == rows[..4]
    ensures Values(Select(rows, TestDevice(None))) == [22, 50, 100, 73]
  {
    PicksOfTestDevice(rows, t);
    var vs := Values(Select(rows, TestDevice(None)));
    assert vs[0] == 22 && vs[1] == 50 && vs[2] == 100 && vs[3] == 73;
  }

  lemma PickFactsOfTemperature(rows: seq<Reading>, t: int)
    requires SetUpRows(rows, t)
    ensures Pick(rows[0], TestDevice(Some("temperature"))) == [rows[0]] && Pick(rows[1], TestDevice(Some("temperature"))) == [rows[1]]
    ensures Pick(rows[2], TestDevice(Some("temperature"))) == [rows[2]] && Pick(rows[3], TestDevice(Some("temperature"))) == []
    ensures Pick(rows[4], TestDevice(Some("temperature"))) == [] && Pick(rows[5], TestDevice(Some("temperature"))) == []
  {
  }

  lemma PicksOfTemperature(rows: seq<Reading>, t: int)
    requires SetUpRows(rows, t)
    ensures Select(rows, TestDevice(Some("temperature"))) == [rows[0], rows[1], rows[2]]
  {
    var f := TestDevice(Some("temperature"));
    SelectOfSix(rows, f);
    PickFactsOfTemperature(rows, t);
    Concatenations(rows[0], rows[1], rows[2], rows[3], rows[4], rows[5]);
  }

  lemma PickFactsOfHumidity(rows: seq<Reading>, t: int)
    requires SetUpRows(rows, t)
    ensures Pick(rows[0], TestDevice(Some("humidity"))) == [] && Pick(rows[1], TestDevice(Some("humidity"))) == []
    ensures Pick(rows[2], TestDevice(Some("humidity"))) == [] && Pick(rows[3], TestDevice(Some("humidity"))) == [rows[3]]
    ensures Pick(rows[4], TestDevice(Some("humidity"))) == [] && Pick(rows[5], TestDevice(Some("humidity"))) == []
  {
  }

  lemma PicksOfHumidity(rows: seq<Reading>, t: int)
    requires SetUpRows(rows, t)
    ensures Select(rows, TestDevice(Some("humidity"))) == [rows[3]]
  {
    var f := TestDevice(Some("humidity"));
    SelectOfSix(rows, f);
    PickFactsOfHumidity(rows, t);
    Concatenations(rows[0], rows[1], rows[2], rows[3], rows[4], rows[5]);
  }

  /** The type parameter narrows the test device's read to three temperature rows or one humidity row. */
  lemma TypedReadsOfTestDevice(rows: seq<Reading>, t: int)
    requires SetUpRows(rows, t)
    ensures Values(Select(rows, TestDevice(Some("temperature")))) == [22, 50, 100]
    ensures Values(Select(rows, TestDevice(Some("humidity")))) == [73]
  {
    PicksOfTemperature(rows, t);
    var vt := Values(Select(rows, TestDevice(Some("temperature"))));
    assert vt[0] == 22 && vt[1] == 50 && vt[2] == 100;
    PicksOfHumidity(rows, t);
    assert Values(Select(rows, TestDevice(Some("humidity"))))[0] == 73;
  }

  function Window(t: int): Filter
  {
    Filter(Some("test_device"), Some(t - 75), Some(t + 25), None)
  }

  lemma PickFactsOfWindow(rows: seq<Reading>, t: int)
    requires SetUpRows(rows, t)
    ensures Pick(rows[0], Window(t)) == [] && Pick(rows[1], Window(t)) == [rows[1]]
    ensures Pick(rows[2], Window(t)) == [rows[2]] && Pick(rows[3], Window(t)) == []
    ensures Pick(rows[4], Window(t)) == [] && Pick(rows[5], Window(t)) == []
  {
  }

  lemma PicksOfWindow(rows: seq<Reading>, t: int)
    requires SetUpRows(rows, t)
    ensures Select(rows, Window(t)) == [rows[1], rows[2]]
  {
    var f := Window(t);
    SelectOfSix(rows, f);
    PickFactsOfWindow(rows, t);
    Concatenations(rows[0], rows[1], rows[2], rows[3], rows[4], rows[5]);
  }

  /** The window [t - 75, t + 25] holds the readings stamped t - 50 and t. */
  lemma WindowReadOfTestDevice(rows: seq<Reading>, t: int)
    requires SetUpRows(rows, t)
    ensures Values(Select(rows, Window(t))) == [50, 100]
  {
    PicksOfWindow(rows, t);
    var vs := Values(Select(rows, Window(t)));
    assert vs[0] == 50 && vs[1] == 100;
  }

  function OtherDevice(sensorType: Option<string>): Filter
  {
    Filter(Some("other_uuid"), None, None, sensorType)
  }

  lemma PickFactsOfOtherTemperature(rows: seq<Reading>, t: int)
    requires SetUpRows(rows, t)
    ensures Pick(rows[0], OtherDevice(Some("temperature"))) == [] && Pick(rows[1], OtherDevice(Some("temperature"))) == []
    ensures Pick(rows[2], OtherDevice(Some("temperature"))) == [] && Pick(rows[3], OtherDevice(Some("temperature"))) == []
    ensures Pick(rows[4], OtherDevice(Some("temperature"))) == [rows[4]] && Pick(rows[5], OtherDevice(Some("temperature"))) == [rows[5]]
  {
  }

  /** The second device's temperature read returns 22 and 30. */
  lemma TemperatureReadOfOtherDevice(rows: seq<Reading>, t: int)
    requires SetUpRows(rows, t)
    ensures Values(Select(rows, OtherDevice(Some("temperature")))) == [22, 30]
  {
    var f := OtherDevice(Some("temperature"));
    SelectOfSix(rows, f);
    PickFactsOfOtherTemperature(rows, t);
    Concatenations(rows[0], rows[1], rows[2], rows[3], rows[4], rows[5]);
    assert Select(rows, f) == [rows[4], rows[5]];
    var vs := Values(Select(rows, OtherDevice(Some("temperature"))));
    assert vs[0] == 22 && vs[1] == 30;
  }

  /** The entry built from the group 22, 50, 100. */
  lemma SummaryOfThreeReadings(v: seq<int>)
    requires |v| == 3 && v[0] == 22 && v[1] == 50 && v[2] == 100
    ensures SummaryOf("test_device", v) == DeviceSummary("test_device", 3, 100, 50, 57, Some(22), Some(100))
  {
    assert Max(v) == Some(100) by {
      SortIs(v, v);
      SortEnds(v);
    }
    assert Median(v) == Some(50) by {
      MedianOfTemperatureReadings(v);
    }
    assert Quartiles(v) == (Some(22), Some(100)) by {
      QuartilesOfTemperatureReadings(v);
    }
    assert FloorMean(v) == 57 by {
      SumOfThree(v);
    }
  }

  /** The entry built from the group 22, 30. */
  lemma SummaryOfTwoReadings(w: seq<int>)
    requires |w| == 2 && w[0] == 22 && w[1] == 30
    ensures SummaryOf("other_uuid", w) == DeviceSummary("other_uuid", 2, 30, 26, 26, Some(20), Some(32))
  {
    AggregatesOfTwoReadings(w);
    SumOfTwo(w);
  }

  /** The entry built from the single reading 73: no quartiles. */
  lemma SummaryOfOneReading(h: seq<int>)
    requires |h| == 1 && h[0] == 73
    ensures SummaryOf("test_device", h) == DeviceSummary("test_device", 1, 73, 73, 73, None, None)
  {
    SortIs(h, h);
    assert Sum(h) == Sum(h[..0]) + h[0];
  }

  function TemperatureRead(): Filter
  {
    Filter(None, None, None, Some("temperature"))
  }

  lemma DevicesOfSetUp(rows: seq<Reading>, t: int, x: Reading)
    requires SetUpRows(rows, t) && x in rows
    ensures x.deviceUuid == "test_device" || x.deviceUuid == "other_uuid"
  {
  }

  lemma SelectedIsFetched(rows: seq<Reading>, f: Filter, fetched: seq<Reading>, x: Reading)
    requires multiset(fetched) == multiset(Select(rows, f))
    requires x in rows && Matches(x, f)
    ensures x in fetched
  {
    assert multiset(Select(rows, f))[x] == multiset(rows)[x] > 0;
    assert x in multiset(fetched);
  }

  lemma FetchedIsSelected(rows: seq<Reading>, f: Filter, fetched: seq<Reading>, x: Reading)
    requires multiset(fetched) == multiset(Select(rows, f))
    requires x in fetched
    ensures x in rows
  {
    assert multiset(fetched)[x] > 0;
    assert multiset(rows)[x] > 0;
  }

  /** The temperature summary over the test table has an entry for each of its two devices and none other. */
  lemma DevicesOfTemperatureRead(rows: seq<Reading>, t: int, fetched: seq<Reading>)
    requires SetUpRows(rows, t)
    requires multiset(fetched) == multiset(Select(rows, TemperatureRead()))
    ensures forall u :: u in Devices(fetched) ==> u == "test_device" || u == "other_uuid"
    ensures "test_device" in Devices(fetched) && "other_uuid" in Devices(fetched)
  {
    forall u | u in Devices(fetched)
      ensures u == "test_device" || u == "other_uuid"
    {
      var k :| 0 <= k < |fetched| && fetched[k].deviceUuid == u;
      FetchedIsSelected(rows, TemperatureRead(), fetched, fetched[k]);
      DevicesOfSetUp(rows, t, fetched[k]);
    }
    SelectedIsFetched(rows, TemperatureRead(), fetched, rows[0]);
    SelectedIsFetched(rows, TemperatureRead(), fetched, rows[4]);
    var i :| 0 <= i < |fetched| && fetched[i] == rows[0];
    var j :| 0 <= j < |fetched| && fetched[j] == rows[4];
  }

  /**
   * The temperature summary's entries for the two devices, whatever order
   * the engine returns the rows of one device in.
   */
  lemma SummaryOfTemperatureRead(rows: seq<Reading>, t: int, fetched: seq<Reading>)
    requires SetUpRows(rows, t)
    requires multiset(fetched) == multiset(Select(rows, TemperatureRead()))
    ensures "test_device" in Devices(fetched) && "other_uuid" in Devices(fetched)
    ensures Group(fetched, "test_device") != [] && Group(fetched, "other_uuid") != []
    ensures SummaryOf("test_device", Group(fetched, "test_device"))
            == DeviceSummary("test_device", 3, 100, 50, 57, Some(22), Some(100))
    ensures SummaryOf("other_uuid", Group(fetched, "other_uuid"))
            == DeviceSummary("other_uuid", 2, 30, 26, 26, Some(20), Some(32))
  {
    DevicesOfTemperatureRead(rows, t, fetched);
    TestDeviceEntry(rows, t, fetched);
    OtherDeviceEntry(rows, t, fetched);
  }

  lemma TestDeviceEntry(rows: seq<Reading>, t: int, fetched: seq<Reading>)
    requires SetUpRows(rows, t)
    requires multiset(fetched) == multiset(Select(rows, TemperatureRead()))
    requires "test_device" in Devices(fetched)
    ensures Group(fetched, "test_device") != []
    ensures SummaryOf("test_device", Group(fetched, "test_device"))
            == DeviceSummary("test_device", 3, 100, 50, 57, Some(22), Some(100))
  {
    var f := TemperatureRead();
    assert f.(device := Some("test_device")) == TestDevice(Some("temperature"));
    TypedReadsOfTestDevice(rows, t);
    SummaryAgreesWithDeviceEndpoints(rows, f, fetched, "test_device");
    SummaryOfThreeReadings(Values(Select(rows, TestDevice(Some("temperature")))));
  }

  lemma OtherDeviceEntry(rows: seq<Reading>, t: int, fetched: seq<Reading>)
    requires SetUpRows(rows, t)
    requires multiset(fetched) == multiset(Select(rows, TemperatureRead()))
    requires "other_uuid" in Devices(fetched)
    ensures Group(fetched, "other_uuid") != []
    ensures SummaryOf("other_uuid", Group(fetched, "other_uuid"))
            == DeviceSummary("other_uuid", 2, 30, 26, 26, Some(20), Some(32))
  {
    var f := TemperatureRead();
    assert f.(device := Some("other_uuid")) == OtherDevice(Some("temperature"));
    TemperatureReadOfOtherDevice(rows, t);
    SummaryAgreesWithDeviceEndpoints(rows, f, fetched, "other_uuid");
    SummaryOfTwoReadings(Values(Select(rows, OtherDevice(Some("temperature")))));
  }

  /** A temperature of 200 is refused with the value message alone. */
  lemma RefusedSubmission(ty: string, t: int)
    requires Lower(ty) == "temperature"
    ensures Submission("test_device", PostBody(Str(ty), Int(200), None), t) == Err(ValueMessage)
  {
  }

  /** A temperature of 100 without a date is stored with the time of the request. */
  lemma AcceptedSubmission(ty: string, t: int)
    requires Lower(ty) == "temperature"
    ensures Submission("test_device", PostBody(Str(ty), Int(100), None), t)
            == Ok(Reading("test_device", "temperature", 100, t))
  {
  }

  /**
   * The submissions of the tests against a store holding the test table: a
   * value of 200 is refused and adds nothing, a valid temperature reading
   * is stored, and the device's read then returns five rows.
   */
  method PostScenario(store: ReadingStore, t: int) returns (refused: Response, accepted: Response)
    requires SetUpRows(store.rows, t)
    modifies store
    ensures refused == Response(ValueMessage, 400)
    ensures accepted == Response("success", 201)
    ensures |store.Get(TestDevice(None))| == 5
  {
    ReadOfTestDevice(store.rows, t);
    var before := store.rows;
    var temperature := "temperature";
    LowerOfTemperature(temperature);
    RefusedSubmission(temperature, t);
    refused := store.PostReading("test_device", PostBody(Str(temperature), Int(200), None), t);
    assert store.rows == before;
    AcceptedSubmission(temperature, t);
    accepted := store.PostReading("test_device", PostBody(Str(temperature), Int(100), None), t);
    SelectAppend(before, Reading("test_device", "temperature", 100, t), TestDevice(None));
  }
}
