/**
 * `get_data`: the two sky coordinates are validated before anything is sent;
 * only a valid pair reaches the SED service, whose JSON answer is then
 * validated against the earlier schema revision. The service itself is a
 * parameter: a function from the query to the decoded JSON document.
 */
module Requests {
  import opened Wrappers
  import opened Json
  import opened Schema

  /** Right ascension in degrees, `ge=0.0, lt=360.0`. */
  predicate ValidRa(v: Value)
  {
    v.Num? && AtLeast(v.n, 0.0) && Below(v.n, 360.0)
  }

  /** Declination in degrees, `ge=-90.0, le=90.0`. */
  predicate ValidDec(v: Value)
  {
    v.Num? && AtLeast(v.n, -90.0) && AtMost(v.n, 90.0)
  }

  datatype Coordinate = Ra | Dec

  /** The coordinates the request is built from. */
  datatype Query = Query(ra: real, dec: real)

  /**
   * Either the call is refused before any request, naming the invalid
   * coordinates, or the service is asked and its answer validated (None when
   * the answer does not fit the schema).
   */
  datatype Outcome = Rejected(invalid: seq<Coordinate>) | Answered(query: Query, response: Option<Response>)

  function GetData(ra: Value, dec: Value, server: Query -> Value): (r: Outcome)
    ensures r.Answered? <==> ValidRa(ra) && ValidDec(dec)
    ensures r.Rejected? ==>
      && r.invalid != []
      && (Ra in r.invalid <==> !ValidRa(ra))
      && (Dec in r.invalid <==> !ValidDec(dec))
    ensures r.Answered? ==>
      && ra == Num(Finite(r.query.ra)) && dec == Num(Finite(r.query.dec))
      && 0.0 <= r.query.ra < 360.0 && -90.0 <= r.query.dec <= 90.0
      && r.response == ValidateResponse(server(r.query), Legacy)
  {
    if ValidRa(ra) && ValidDec(dec) then
      HalfOpenIntervalIsFinite(ra.n, 0.0, 360.0);
      ClosedIntervalIsFinite(dec.n, -90.0, 90.0);
      var query := Query(ra.n.value, dec.n.value);
      Answered(query, ValidateResponse(server(query), Legacy))
    else
      Rejected((if ValidRa(ra) then [] else [Ra]) + (if ValidDec(dec) then [] else [Dec]))
  }

  // ---------------------------------------------------------------- boundary examples

  /** Both poles and the whole declination range in between are accepted. */
  lemma DecBoundaries()
    ensures ValidDec(Num(Finite(-90.0))) && ValidDec(Num(Finite(90.0))) && ValidDec(Num(Finite(-29.0)))
    ensures !ValidDec(Num(Finite(-90.001))) && !ValidDec(Num(Finite(90.001)))
  {
  }

  /** Right ascension starts at 0 inclusive and stops short of 360. */
  lemma RaBoundaries()
    ensures ValidRa(Num(Finite(0.0))) && ValidRa(Num(Finite(359.999)))
    ensures !ValidRa(Num(Finite(360.0))) && !ValidRa(Num(Finite(361.0))) && !ValidRa(Num(Finite(-1.0)))
  {
  }

  /** NaN and the infinities are refused for either coordinate, and so are strings and null. */
  lemma SpecialValuesRejected(server: Query -> Value)
    ensures GetData(Num(NaN), Num(Finite(0.0)), server) == Rejected([Ra])
    ensures GetData(Num(PosInf), Num(Finite(0.0)), server) == Rejected([Ra])
    ensures GetData(Num(Finite(0.0)), Num(NegInf), server) == Rejected([Dec])
    ensures GetData(Str("invalid"), Num(Finite(0.0)), server) == Rejected([Ra])
    ensures GetData(Num(Finite(0.0)), Str("invalid"), server) == Rejected([Dec])
    ensures GetData(Null, Null, server) == Rejected([Ra, Dec])
  {
    assert ValidDec(Num(Finite(0.0))) && ValidRa(Num(Finite(0.0)));
  }

  /** The minimal answer of the service: status "OK", an `Nh` and no catalogs. */
  const MINIMAL_ANSWER: Value := Obj(map[
    "ResponseInfo" := Obj(map["statusCode" := Str("OK"), "message" := Null]),
    "Properties" := Obj(map["Nh" := Num(Finite(1e20))]),
    "Catalogs" := Arr([])])

  /** Asking for the Crab's coordinates with that answer gives a successful, empty response. */
  lemma MinimalAnswerParses()
    ensures var r := GetData(Num(Finite(83.6329)), Num(Finite(22.0144)), _ => MINIMAL_ANSWER);
      && r == Answered(Query(83.6329, 22.0144),
                       Some(Response(ResponseInfo("OK", None), Properties(Finite(1e20)), [])))
      && IsSuccessful(r.response.value)
  {
    var fields := MINIMAL_ANSWER.fields;
    assert fields["ResponseInfo"].fields["statusCode"] == Str("OK");
    assert fields["ResponseInfo"].fields["message"] == Null;
    assert fields["Properties"].fields["Nh"] == Num(Finite(1e20));
    assert fields["Catalogs"] == Arr([]);
  }
}
