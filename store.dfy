/**
 * The submission path of the readings endpoint: both fields are validated,
 * a rejected submission leaves the table as it was and answers 400 with
 * the messages, an accepted one appends exactly one row and answers 201.
 */
module Store {
  import opened Common
  import opened Readings
  import opened Utils
  import opened Stats

  /** The fields of a submitted JSON body; a missing type or value is Other, a missing date is None. */
  datatype PostBody = PostBody(sensorType: JsonValue, value: JsonValue, dateCreated: Option<int>)

  /** An HTTP answer: body text and status code. */
  datatype Response = Response(body: string, status: int)

  /**
   * The outcome of a submission to the path of deviceUuid at time now: the
   * row to insert, or the newline-joined messages of the failing
   * validators, type first.
   */
  function Submission(deviceUuid: string, body: PostBody, now: int): (r: Result<Reading, string>)
    ensures r.Ok? <==> ValidateTypeField(body.sensorType).Accepted? && ValidateValueField(body.value).Accepted?
    ensures r.Ok? ==> && r.value.deviceUuid == deviceUuid
                      && r.value.sensorType == Lower(body.sensorType.s)
                      && r.value.value == ValidateValueField(body.value).payload
                      && r.value.dateCreated == (if body.dateCreated.Some? then body.dateCreated.value else now)
                      && WellFormed(r.value)
    ensures r.Err? ==> r.error == (if ValidateTypeField(body.sensorType).Accepted? then ValueMessage
                                   else if ValidateValueField(body.value).Accepted? then TypeMessage
                                   else TypeMessage + "\n" + ValueMessage)
  {
    var typeCheck := ValidateTypeField(body.sensorType);
    var valueCheck := ValidateValueField(body.value);
    var errors := (if typeCheck.Rejected? then [typeCheck.message] else [])
                + (if valueCheck.Rejected? then [valueCheck.message] else []);
    if errors != [] then Err(JoinLines(errors))
    else
      var dateCreated := if body.dateCreated.Some? then body.dateCreated.value else now;
      Ok(Reading(deviceUuid, typeCheck.payload, valueCheck.payload, dateCreated))
  }

  /** The readings table, which only ever grows. */
  class ReadingStore {
    var rows: seq<Reading>

    /** Every row satisfies the validation rules. */
    ghost predicate Valid()
      reads this
    {
      forall i :: 0 <= i < |rows| ==> WellFormed(rows[i])
    }

    constructor ()
      ensures rows == [] && Valid()
    {
      rows := [];
    }

    /**
     * POST to the readings of deviceUuid: validate both fields, then either
     * answer 400 with the messages and insert nothing, or insert exactly
     * one row and answer 201. The date defaults to now.
     */
    method PostReading(deviceUuid: string, body: PostBody, now: int) returns (resp: Response)
      modifies this
      ensures Submission(deviceUuid, body, now).Ok? ==>
                rows == old(rows) + [Submission(deviceUuid, body, now).value] && resp == Response("success", 201)
      ensures Submission(deviceUuid, body, now).Err? ==>
                rows == old(rows) && resp == Response(Submission(deviceUuid, body, now).error, 400)
      ensures old(Valid()) ==> Valid()
    {
      var typeCheck := ValidateTypeField(body.sensorType);
      var valueCheck := ValidateValueField(body.value);
      var errors: seq<string> := [];
      if typeCheck.Rejected? {
        errors := errors + [typeCheck.message];
      }
      if valueCheck.Rejected? {
        errors := errors + [valueCheck.message];
      }
      if errors != [] {
        return Response(JoinLines(errors), 400);
      }
      var dateCreated := if body.dateCreated.Some? then body.dateCreated.value else now;
      rows := rows + [Reading(deviceUuid, typeCheck.payload, valueCheck.payload, dateCreated)];
      resp := Response("success", 201);
    }

    /** GET on the readings of a device: the matching rows, in table order. */
    function Get(f: Filter): (sel: seq<Reading>)
      reads this
      ensures forall r :: multiset(sel)[r] == if Matches(r, f) then multiset(rows)[r] else 0
      ensures forall r :: r in sel <==> r in rows && Matches(r, f)
    {
      Select(rows, f)
    }
  }

  /**
   * A reading that was accepted is returned by a later read of its device
   * and type, as the last row of that read.
   */
  lemma ReadYourWrite(rows: seq<Reading>, deviceUuid: string, body: PostBody, now: int)
    requires Submission(deviceUuid, body, now).Ok?
    ensures var r := Submission(deviceUuid, body, now).value;
            var f := Filter(Some(deviceUuid), None, None, Some(r.sensorType));
            Select(rows + [r], f) == Select(rows, f) + [r]
  {
    var r := Submission(deviceUuid, body, now).value;
    SelectAppend(rows, r, Filter(Some(deviceUuid), None, None, Some(r.sensorType)));
  }

  /**
   * In a table where every row passed validation, the mean endpoint over
   * any filtered read agrees with the floor of the average, the value the
   * summary reports: the mean endpoint differs only in answering nothing
   * when the average is 0.
   */
  lemma StoredMeansAgree(store: ReadingStore, f: Filter)
    requires store.Valid() && store.Get(f) != []
    ensures var v := Values(store.Get(f));
            && (Mean(v).Some? ==> Mean(v).value == FloorMean(v))
            && (Mean(v).None? ==> FloorMean(v) == 0)
  {
    var sel := store.Get(f);
    var v := Values(sel);
    forall i | 0 <= i < |v|
      ensures 0 <= v[i]
    {
      assert sel[i] in store.rows;
    }
    MeanAgreesWithFloorMean(v);
  }
}
