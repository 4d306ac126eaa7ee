/**
 * `GET /api/stations?regionId=N`: checks the query parameter, then answers
 * with the station breakdown of the region. The breakdown query is passed
 * in as a function from region id to its outcome, so that which ids it is
 * asked for is visible.
 */
module StationsRoute {
  import opened Wrappers
  import opened JsText
  import opened ElectionData

  /** The `Cache-Control` header the 200 and 400 responses carry. */
  const CacheControl: string := "public, s-maxage=60, stale-while-revalidate=30"

  const RegionIdRequired: string := "Region ID is required"
  const InvalidRegionId: string := "Invalid region ID"
  const FetchFailed: string := "Failed to fetch station results"

  /** A JSON body: an `{error}` object or the station breakdown. */
  datatype Body = ErrorBody(error: string) | StationsBody(results: seq<StationResult>)

  /** The status, the JSON body and the `Cache-Control` header, if any. */
  datatype Response = Response(status: int, body: Body, cacheControl: Option<string>)

  /**
   * The checks before the query: an absent or empty parameter is "required";
   * one whose `parseInt` is NaN or not positive is "invalid"; otherwise the
   * parsed id goes on.
   */
  function ValidateRegionId(regionIdParam: Option<string>): (r: Result<int, string>)
    ensures r.Ok? <==> regionIdParam.Some? && ParseInt(regionIdParam.value).Some? && ParseInt(regionIdParam.value).value > 0
    ensures r.Ok? ==> r.value == ParseInt(regionIdParam.value).value
    ensures r.Err? ==> (r.error == RegionIdRequired <==> regionIdParam.None? || regionIdParam.value == "")
    ensures r.Err? ==> r.error == RegionIdRequired || r.error == InvalidRegionId
  {
    if regionIdParam.None? || regionIdParam.value == "" then Err(RegionIdRequired)
    else
      match ParseInt(regionIdParam.value)
      case None => Err(InvalidRegionId)
      case Some(regionId) => if regionId <= 0 then Err(InvalidRegionId) else Ok(regionId)
  }

  /** The handler. Only the breakdown query can throw; its failure becomes a 500. */
  function Get<E>(regionIdParam: Option<string>, getStationResultsByRegion: int -> Result<seq<StationResult>, E>): (resp: Response)
    ensures resp.status == 200 || resp.status == 400 || resp.status == 500
    ensures resp.status == 400 <==> ValidateRegionId(regionIdParam).Err?
    ensures resp.status == 400 ==> resp.body == ErrorBody(ValidateRegionId(regionIdParam).error)
    ensures resp.cacheControl == if resp.status == 500 then None else Some(CacheControl)
  {
    match ValidateRegionId(regionIdParam)
    case Err(message) => Response(400, ErrorBody(message), Some(CacheControl))
    case Ok(regionId) =>
      match getStationResultsByRegion(regionId)
      case Ok(stationResults) => Response(200, StationsBody(stationResults), Some(CacheControl))
      case Err(_) => Response(500, ErrorBody(FetchFailed), None)
  }

  /** An absent or empty parameter is answered with "Region ID is required". */
  lemma MissingRegionId<E>(f: int -> Result<seq<StationResult>, E>)
    ensures Get(None, f) == Response(400, ErrorBody(RegionIdRequired), Some(CacheControl))
    ensures Get(Some(""), f) == Response(400, ErrorBody(RegionIdRequired), Some(CacheControl))
  {
  }

  /** A 400 never depends on the query: whatever it would return, the response is the same. */
  lemma NoQueryOnBadRequest<E>(regionIdParam: Option<string>, f: int -> Result<seq<StationResult>, E>, g: int -> Result<seq<StationResult>, E>)
    requires Get(regionIdParam, f).status == 400
    ensures Get(regionIdParam, f) == Get(regionIdParam, g)
  {
  }

  /**
   * Past validation, the query is asked for exactly the parsed id: success is
   * a 200 with its results and the header, failure a 500 without it.
   */
  lemma QueryOnlyForParsedId<E>(regionIdParam: Option<string>, f: int -> Result<seq<StationResult>, E>)
    requires Get(regionIdParam, f).status != 400
    ensures regionIdParam.Some? && ParseInt(regionIdParam.value).Some?
    ensures var regionId := ParseInt(regionIdParam.value).value;
      regionId > 0
      && (f(regionId).Ok? ==> Get(regionIdParam, f) == Response(200, StationsBody(f(regionId).value), Some(CacheControl)))
      && (f(regionId).Err? ==> Get(regionIdParam, f) == Response(500, ErrorBody(FetchFailed), None))
  {
  }

  /** A positive decimal prefix is the region id, whatever non-digit text follows ("12abc" is 12). */
  lemma DecimalPrefixAccepted(n: nat, rest: string)
    requires n > 0
    requires rest == [] || !IsDigit(rest[0])
    ensures ValidateRegionId(Some(NatToDecimal(n) + rest)) == Ok(n)
  {
    ParseIntOfDecimal(n, rest);
  }

  /** A minus sign before the digits is always invalid, "-0" included. */
  lemma NegativeRejected(n: nat, rest: string)
    requires rest == [] || !IsDigit(rest[0])
    ensures ValidateRegionId(Some("-" + NatToDecimal(n) + rest)) == Err(InvalidRegionId)
  {
    ParseIntOfNegativeDecimal(n, rest);
  }

  /** Zero is invalid. */
  lemma ZeroRejected(rest: string)
    requires rest == [] || !IsDigit(rest[0])
    ensures ValidateRegionId(Some("0" + rest)) == Err(InvalidRegionId)
  {
    ParseIntOfDecimal(0, rest);
  }

  /** Text that does not start with a number is invalid, not "required". */
  lemma NonNumericRejected(s: string)
    requires s != []
    requires !IsJsWhitespace(s[0]) && !IsDigit(s[0]) && s[0] != '-' && s[0] != '+'
    ensures ValidateRegionId(Some(s)) == Err(InvalidRegionId)
  {
    assert TrimStart(s) == s;
  }

  /** "abc" is invalid. */
  lemma AbcRejected()
    ensures ValidateRegionId(Some("abc")) == Err(InvalidRegionId)
  {
    NonNumericRejected("abc");
  }

  /** "abc" reaches the handler's second check and is answered with "Invalid region ID". */
  lemma AbcAnswered<E>(f: int -> Result<seq<StationResult>, E>)
    ensures Get(Some("abc"), f) == Response(400, ErrorBody(InvalidRegionId), Some(CacheControl))
  {
    AbcRejected();
  }

  /** "-5" is invalid. */
  lemma MinusFiveRejected()
    ensures ValidateRegionId(Some("-5")) == Err(InvalidRegionId)
  {
    assert NatToDecimal(5) == "5";
    NegativeRejected(5, "");
    assert "-" + "5" + "" == "-5";
  }

  /** "12abc" is accepted as region 12. */
  lemma TwelveAbcAccepted()
    ensures ValidateRegionId(Some("12abc")) == Ok(12)
  {
    var s := "12abc";
    SmallDigitsValue('1', '2');
    assert s[..2] == ['1', '2'] && !IsDigit(s[2]);
    ParseIntOfDigitPrefix(s, 2);
  }

  /** Leading white space is skipped: any run of it before a positive decimal still gives that id. */
  lemma PaddedDecimalAccepted(ws: string, n: nat, rest: string)
    requires n > 0
    requires forall i :: 0 <= i < |ws| ==> IsJsWhitespace(ws[i])
    requires rest == [] || !IsDigit(rest[0])
    ensures ValidateRegionId(Some(ws + NatToDecimal(n) + rest)) == Ok(n)
  {
    var s := NatToDecimal(n) + rest;
    assert ws + NatToDecimal(n) + rest == ws + s;
    ParseIntOfDecimal(n, rest);
    TrimStartPadded(ws, s);
    assert ParseInt(ws + s) == Some(n);
  }
}
