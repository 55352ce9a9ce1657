/**
 * The readings table and what a filtered read selects from it. The store
 * itself executes SQL text; here the WHERE clause the endpoints build is
 * given its meaning directly, as the predicate Matches.
 */
module Readings {
  import opened Common

  /** One row of the readings table. */
  datatype Reading = Reading(deviceUuid: string, sensorType: string, value: int, dateCreated: int)

  const SensorTypes: set<string> := {"temperature", "humidity"}

  /** What every row stored through the submission path satisfies. */
  predicate WellFormed(r: Reading)
  {
    r.sensorType in SensorTypes && 0 <= r.value <= 100
  }

  /**
   * The constraints of one read: the device of the request path (absent
   * for the summary), and the start, end and type query parameters. An
   * empty type is falsy in the source and imposes nothing.
   */
  datatype Filter = Filter(device: Option<string>, start: Option<int>, end: Option<int>, sensorType: Option<string>)

  /** The conjunction the WHERE clause states: both time bounds are inclusive. */
  predicate Matches(r: Reading, f: Filter): (b: bool)
    ensures f == Filter(None, None, None, None) ==> b
    ensures f.start.Some? && f.end.Some? && f.end.value < f.start.value ==> !b
    ensures WellFormed(r) && Truthy(f.sensorType) && f.sensorType.value !in SensorTypes ==> !b
    ensures b && f.device.Some? ==> r.deviceUuid == f.device.value
  {
    && (f.device.Some? ==> r.deviceUuid == f.device.value)
    && (f.start.Some? ==> f.start.value <= r.dateCreated)
    && (f.end.Some? ==> r.dateCreated <= f.end.value)
    && (Truthy(f.sensorType) ==> r.sensorType == f.sensorType.value)
  }

  /** The rows a filtered SELECT returns, in table order. */
  function Select(rows: seq<Reading>, f: Filter): (sel: seq<Reading>)
    ensures |sel| <= |rows|
    ensures forall r :: multiset(sel)[r] == if Matches(r, f) then multiset(rows)[r] else 0
  {
    if rows == [] then []
    else
      var init, last := rows[..|rows| - 1], rows[|rows| - 1];
      assert rows == init + [last];
      var rest := Select(init, f);
      if Matches(last, f) then rest + [last] else rest
  }

  /** The value column of the given rows, in order. */
  function Values(rows: seq<Reading>): (vs: seq<int>)
    ensures |vs| == |rows|
    ensures forall i :: 0 <= i < |rows| ==> vs[i] == rows[i].value
  {
    if rows == [] then [] else Values(rows[..|rows| - 1]) + [rows[|rows| - 1].value]
  }

  lemma ValuesConcat(a: seq<Reading>, b: seq<Reading>)
    ensures Values(a + b) == Values(a) + Values(b)
  {
    assert forall i :: 0 <= i < |a + b| ==> Values(a + b)[i] == (Values(a) + Values(b))[i];
  }

  lemma ValuesRemoveAt(b: seq<Reading>, k: nat)
    requires k < |b|
    ensures multiset(Values(b[..k] + b[k + 1..])) == multiset(Values(b)) - multiset{b[k].value}
  {
    var vs, r := Values(b), b[..k] + b[k + 1..];
    var ws := vs[..k] + vs[k + 1..];
    forall i | 0 <= i < |r|
      ensures Values(r)[i] == ws[i]
    {
      if i < k {
        assert r[i] == b[i] && ws[i] == vs[i];
      } else {
        assert r[i] == b[i + 1] && ws[i] == vs[i + 1];
      }
    }
    assert Values(r) == ws;
    RemoveAt(vs, k);
  }

  /** The value column of a permutation of rows is a permutation of the value column. */
  lemma {:induction false} ValuesOrderIndependent(a: seq<Reading>, b: seq<Reading>)
    requires multiset(a) == multiset(b)
    ensures multiset(Values(a)) == multiset(Values(b))
  {
    if a != [] {
      var n := |a| - 1;
      assert a[n] in multiset(b);
      var k :| 0 <= k < |b| && b[k] == a[n];
      var rest := b[..k] + b[k + 1..];
      assert multiset(a[..n]) == multiset(rest) by {
        RemoveAt(b, k);
        RemoveAt(a, n);
        assert a[..n] + a[n + 1..] == a[..n];
      }
      ValuesOrderIndependent(a[..n], rest);
      var v := a[n].value;
      assert v in multiset(Values(a)) && v in multiset(Values(b)) by {
        assert Values(a)[n] == v && Values(b)[k] == v;
      }
      assert multiset(Values(a)) - multiset{v} == multiset(Values(b)) - multiset{v} by {
        ValuesRemoveAt(a, n);
        ValuesRemoveAt(b, k);
        assert a[..n] + a[n + 1..] == a[..n];
      }
      RestoreOne(multiset(Values(a)), multiset(Values(b)), v);
    }
  }

  /** Appending a row extends the selection by that row exactly when it matches. */
  lemma SelectAppend(rows: seq<Reading>, r: Reading, f: Filter)
    ensures Select(rows + [r], f) == Select(rows, f) + (if Matches(r, f) then [r] else [])
  {
    assert (rows + [r])[..|rows|] == rows;
  }

  /** A reading stamped exactly at either end of a window is inside it. */
  lemma WindowInclusive(r: Reading, device: string, start: int, end: int)
    requires r.deviceUuid == device && start <= end
    requires r.dateCreated == start || r.dateCreated == end
    ensures Matches(r, Filter(Some(device), Some(start), Some(end), None))
  {
  }
}
