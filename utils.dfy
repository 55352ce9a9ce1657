/**
 * The two field validators of a submission and the builder of the filter
 * clauses of a read query.
 */
module Utils {
  import opened Common
  import opened Readings

  /** A decoded JSON value as far as validation distinguishes it; Other covers null, floats, lists, objects and a missing key. */
  datatype JsonValue = Str(s: string) | Int(n: int) | Bool(b: bool) | Other

  /** The answer of a validator: acceptance with the cleaned value, or rejection with its message. */
  datatype Validation<T> = Accepted(payload: T) | Rejected(message: string)

  const TypeMessage := "The only allowed sensor types are 'temperature' and 'humidity'"
  const ValueMessage := "The only allowed values are integers between 0 and 100 inclusive"

  // ---------------------------------------------------------------------
  // Lower-casing (ASCII letters only)
  // ---------------------------------------------------------------------

  function LowerChar(c: char): char
  {
    if 'A' <= c <= 'Z' then (c as int + 32) as char else c
  }

  function UpperChar(c: char): char
  {
    if 'a' <= c <= 'z' then (c as int - 32) as char else c
  }

  /** str.lower() restricted to ASCII letters. */
  function Lower(s: string): (r: string)
    ensures |r| == |s|
  {
    if s == [] then [] else [LowerChar(s[0])] + Lower(s[1..])
  }

  /** Lower-casing maps each character on its own. */
  lemma {:induction false} LowerChars(s: string)
    ensures forall i :: 0 <= i < |s| ==> Lower(s)[i] == LowerChar(s[i])
  {
    if s != [] {
      LowerChars(s[1..]);
      assert forall i :: 1 <= i < |s| ==> Lower(s)[i] == Lower(s[1..])[i - 1];
    }
  }

  /** Lower-casing twice changes nothing more. */
  lemma LowerIdempotent(s: string)
    ensures Lower(Lower(s)) == Lower(s)
  {
    LowerChars(s);
    LowerChars(Lower(s));
  }

  /**
   * s spells the lower-case word w in any mix of cases: each character is
   * the letter of w or its capital.
   */
  predicate SpellsIgnoringCase(s: string, w: string)
  {
    |s| == |w| && forall i :: 0 <= i < |s| ==> s[i] == w[i] || s[i] == UpperChar(w[i])
  }

  predicate IsLowerWord(w: string)
  {
    forall i :: 0 <= i < |w| ==> 'a' <= w[i] <= 'z'
  }

  lemma {:induction false} LowerMatchesWord(s: string, w: string)
    requires IsLowerWord(w)
    ensures Lower(s) == w <==> SpellsIgnoringCase(s, w)
  {
    LowerChars(s);
    if Lower(s) == w {
      forall i | 0 <= i < |s| ensures s[i] == w[i] || s[i] == UpperChar(w[i]) {
        assert LowerChar(s[i]) == w[i];
      }
    }
    if SpellsIgnoringCase(s, w) {
      forall i | 0 <= i < |s| ensures Lower(s)[i] == w[i] {
        assert LowerChar(s[i]) == w[i];
      }
    }
  }

  // ---------------------------------------------------------------------
  // Validators
  // ---------------------------------------------------------------------

  /** validate_type_field: accepts a string whose lower-case form is a sensor type and returns that form. */
  function ValidateTypeField(v: JsonValue): (r: Validation<string>)
    ensures r.Accepted? <==> v.Str? && Lower(v.s) in SensorTypes
    ensures r.Accepted? ==> r.payload == Lower(v.s) && r.payload in SensorTypes
    ensures r.Rejected? ==> r.message == TypeMessage
  {
    if v.Str? && Lower(v.s) in SensorTypes then Accepted(Lower(v.s)) else Rejected(TypeMessage)
  }

  /**
   * Accepted strings are exactly the spellings of "temperature" and
   * "humidity" in any mix of cases.
   */
  lemma TypeFieldAcceptsCaseVariants(s: string)
    ensures ValidateTypeField(Str(s)).Accepted? <==>
              SpellsIgnoringCase(s, "temperature") || SpellsIgnoringCase(s, "humidity")
  {
    LowerMatchesWord(s, "temperature");
    LowerMatchesWord(s, "humidity");
  }

  /** Re-validating a cleaned type succeeds and returns it unchanged. */
  lemma ValidateTypeIdempotent(v: JsonValue)
    requires ValidateTypeField(v).Accepted?
    ensures ValidateTypeField(Str(ValidateTypeField(v).payload)) == ValidateTypeField(v)
  {
    LowerIdempotent(v.s);
  }

  /**
   * "Temperature" and "HUMIDITY" are accepted, and cleaned to lower case.
   * The strings are parameters pinned by requires, so that the verifier
   * does not unfold Lower on a literal without bound.
   */
  lemma TypeFieldAcceptsMixedCase(t: string, h: string)
    requires t == "Temperature" && h == "HUMIDITY"
    ensures ValidateTypeField(Str(t)) == Accepted("temperature")
    ensures ValidateTypeField(Str(h)) == Accepted("humidity")
  {
    LowerOfWord(t, "temperature");
    LowerOfWord(h, "humidity");
  }

  lemma LowerOfWord(s: string, w: string)
    requires IsLowerWord(w) && SpellsIgnoringCase(s, w)
    ensures Lower(s) == w
  {
    LowerMatchesWord(s, w);
  }

  /** "temperature" is its own lower-case form. */
  lemma LowerOfTemperature(t: string)
    requires t == "temperature"
    ensures Lower(t) == t
  {
    LowerOfWord(t, "temperature");
  }

  /** "flavor" and a number are rejected with the fixed message. */
  lemma TypeFieldRejectsOthers(f: string)
    requires f == "flavor"
    ensures ValidateTypeField(Str(f)) == Rejected(TypeMessage)
    ensures ValidateTypeField(Int(50)) == Rejected(TypeMessage)
  {
    assert Lower(f)[0] == 'f';
  }

  /**
   * validate_value_field: accepts an int in [0, 100] and returns it
   * unchanged. Python's bool is a subclass of int, so True and False pass
   * too, and they are stored as 1 and 0.
   */
  function ValidateValueField(v: JsonValue): (r: Validation<int>)
    ensures r.Accepted? <==> (v.Int? && 0 <= v.n <= 100) || v.Bool?
    ensures r.Accepted? ==> 0 <= r.payload <= 100
    ensures r.Accepted? && v.Int? ==> r.payload == v.n
    ensures v.Bool? ==> r == Accepted(if v.b then 1 else 0)
    ensures r.Rejected? ==> r.message == ValueMessage
  {
    match v
    case Int(n) => if 0 <= n <= 100 then Accepted(n) else Rejected(ValueMessage)
    case Bool(b) => Accepted(if b then 1 else 0)
    case _ => Rejected(ValueMessage)
  }

  lemma ValueFieldExamples()
    ensures ValidateValueField(Int(0)) == Accepted(0)
    ensures ValidateValueField(Int(100)) == Accepted(100)
    ensures ValidateValueField(Int(200)) == Rejected(ValueMessage)
    ensures ValidateValueField(Int(-10)) == Rejected(ValueMessage)
    ensures ValidateValueField(Str("50")) == Rejected(ValueMessage)
  {
  }

  // ---------------------------------------------------------------------
  // Filter clauses of a read query
  // ---------------------------------------------------------------------

  /** The start, end and type request parameters as received: absent, empty or text. */
  datatype QueryParams = QueryParams(start: Option<string>, end: Option<string>, sensorType: Option<string>)

  function StartClause(start: string): string
  {
    "AND date_created >= " + start + " "
  }

  function EndClause(end: string): string
  {
    "AND date_created <= " + end + " "
  }

  function TypeClause(sensorType: string): string
  {
    "AND type = \"" + sensorType + "\" "
  }

  /**
   * The filter clauses of a read query: one per parameter that is present
   * and non-empty, in the order start, end, type.
   */
  function Clauses(q: QueryParams): (c: string)
    ensures Truthy(q.start) ==> StartClause(q.start.value) <= c
    ensures Truthy(q.sensorType) ==>
      var t := TypeClause(q.sensorType.value);
      |t| <= |c| && c[|c| - |t|..] == t
    ensures !Truthy(q.start) && !Truthy(q.end) && !Truthy(q.sensorType) ==> c == ""
  {
    (if Truthy(q.start) then StartClause(q.start.value) else "")
    + (if Truthy(q.end) then EndClause(q.end.value) else "")
    + (if Truthy(q.sensorType) then TypeClause(q.sensorType.value) else "")
  }

  /** A read query gets no clause at all exactly when no parameter is truthy. */
  lemma NoClausesIff(q: QueryParams)
    ensures Clauses(q) == "" <==> !Truthy(q.start) && !Truthy(q.end) && !Truthy(q.sensorType)
  {
    var s := if Truthy(q.start) then StartClause(q.start.value) else "";
    var e := if Truthy(q.end) then EndClause(q.end.value) else "";
    var t := if Truthy(q.sensorType) then TypeClause(q.sensorType.value) else "";
    assert |Clauses(q)| == |s| + |e| + |t|;
  }

  /** Appending optional pieces one by one appends their concatenation. */
  lemma AppendOptional(base: string, a: string, b: string, c: string, ta: bool, tb: bool, tc: bool)
    ensures var s1 := if ta then base + a else base;
            var s2 := if tb then s1 + b else s1;
            (if tc then s2 + c else s2)
            == base + ((if ta then a else "") + (if tb then b else "") + (if tc then c else ""))
  {
  }

  /**
   * build_sql_from_get: appends the filter clauses to the selection, which
   * stays the prefix of the query.
   */
  method BuildSqlFromGet(q: QueryParams, selection: string) returns (sql: string)
    ensures sql == selection + Clauses(q)
  {
    sql := selection;
    if Truthy(q.start) {
      sql := sql + StartClause(q.start.value);
    }
    if Truthy(q.end) {
      sql := sql + EndClause(q.end.value);
    }
    if Truthy(q.sensorType) {
      sql := sql + TypeClause(q.sensorType.value);
    }
    AppendOptional(selection,
      if Truthy(q.start) then StartClause(q.start.value) else "",
      if Truthy(q.end) then EndClause(q.end.value) else "",
      if Truthy(q.sensorType) then TypeClause(q.sensorType.value) else "",
      Truthy(q.start), Truthy(q.end), Truthy(q.sensorType));
  }

  function DigitChar(d: nat): char
    requires d < 10
  {
    "0123456789"[d]
  }

  /** Decimal text of a natural number. */
  function NatToString(n: nat): (s: string)
    ensures |s| >= 1
    decreases n
  {
    if n < 10 then [DigitChar(n)] else NatToString(n / 10) + [DigitChar(n % 10)]
  }

  /** Decimal text of an epoch timestamp, as a client writes it into the query string. */
  function IntToString(i: int): (s: string)
    ensures |s| >= 1
  {
    if i < 0 then "-" + NatToString(-i) else NatToString(i)
  }

  /** The query parameters a client sends for the time and type constraints of f. */
  function QueryParamsOf(f: Filter): QueryParams
  {
    QueryParams(
      if f.start.Some? then Some(IntToString(f.start.value)) else None,
      if f.end.Some? then Some(IntToString(f.end.value)) else None,
      f.sensorType)
  }

  /**
   * Every constraint Matches imposes has exactly one clause in the built
   * query and no clause appears without one: a start clause (>=) exactly
   * when there is a lower bound, an end clause (<=) exactly when there is
   * an upper bound, and a type clause exactly when the type is non-empty.
   */
  lemma ClausesMatchFilter(f: Filter)
    ensures Truthy(QueryParamsOf(f).start) <==> f.start.Some?
    ensures f.start.Some? ==> QueryParamsOf(f).start.value == IntToString(f.start.value)
    ensures Truthy(QueryParamsOf(f).end) <==> f.end.Some?
    ensures f.end.Some? ==> QueryParamsOf(f).end.value == IntToString(f.end.value)
    ensures Truthy(QueryParamsOf(f).sensorType) <==> Truthy(f.sensorType)
    ensures f.start.Some? ==> StartClause(IntToString(f.start.value)) <= Clauses(QueryParamsOf(f))
    ensures f.end.Some? ==>
              var lead := if f.start.Some? then StartClause(IntToString(f.start.value)) else "";
              lead + EndClause(IntToString(f.end.value)) <= Clauses(QueryParamsOf(f))
    ensures Truthy(f.sensorType) ==>
              var c, t := Clauses(QueryParamsOf(f)), TypeClause(f.sensorType.value);
              |t| <= |c| && c[|c| - |t|..] == t
    ensures f.start.None? && f.end.None? && !Truthy(f.sensorType) ==> Clauses(QueryParamsOf(f)) == ""
  {
    var q := QueryParamsOf(f);
    if f.end.Some? {
      var lead := if f.start.Some? then StartClause(IntToString(f.start.value)) else "";
      var e := EndClause(IntToString(f.end.value));
      var tail := if Truthy(q.sensorType) then TypeClause(q.sensorType.value) else "";
      assert Clauses(q) == (lead + e) + tail;
    }
  }
}
