/** services/ipApiService.ts: fetchIPInfo builds the request URL, turns every
    failure (an HTTP error, a thrown error, a bogon or an error payload) into a
    `fail` record for the requested IP, splits a leading "AS..." token off the
    `org` field, and maps the rest of the response into a GeoData record.
    The HTTP call is a function from URL to outcome; the locale-aware country
    name lookup of utils/country.ts is a function parameter. */
module IpApiService {
  import opened Types
  import opened JsString

  const ApiEndpoint := "https://ipinfo.io/"
  const InvalidIpMessage := "유효하지 않거나 예약된 IP 주소입니다."
  const UnknownErrorMessage := "알 수 없는 오류가 발생했습니다."
  const NotOkMessagePrefix := "IP 정보 조회 API 네트워크 응답이 올바르지 않습니다: "

  /** The `error` object of an ipinfo payload. */
  datatype ErrorPayload = ErrorPayload(message: Option<string>)

  /** The fields of the decoded JSON body that fetchIPInfo reads. */
  datatype GeoBody = GeoBody(
    ip: string,
    bogon: bool,
    error: Option<ErrorPayload>,
    country: Option<string>,
    region: Option<string>,
    city: Option<string>,
    org: Option<string>)

  /** How the request ended: a rejected promise (fetch or JSON decoding) whose
      value is an Error with a message, or not an Error at all (None); a
      response whose status is not OK; or an OK response with its body. */
  datatype HttpOutcome =
    | Thrown(errorMessage: Option<string>)
    | NotOk(status: nat, statusText: string)
    | Ok(body: GeoBody)

  /** The URL: `<endpoint><ip>/json`, or `<endpoint>json` for the caller's own IP. */
  function RequestUrl(ip: string): (url: string)
    ensures StartsWith(url, ApiEndpoint)
    ensures ip != "" ==> url == ApiEndpoint + ip + "/json"
    ensures ip == "" ==> url == ApiEndpoint + "json"
  {
    if ip != "" then ApiEndpoint + ip + "/json" else ApiEndpoint + "json"
  }

  /** Different IPs are sent to different URLs. */
  lemma RequestUrlInjective(a: string, b: string)
    requires RequestUrl(a) == RequestUrl(b)
    ensures a == b
  {
    var n := |ApiEndpoint|;
    if a != "" && b != "" {
      var ua, ub := RequestUrl(a), RequestUrl(b);
      assert |a| == |b|;
      assert a == ua[n..n + |a|];
      assert b == ub[n..n + |b|];
    }
  }

  /** Whether the outcome ends in the catch block. */
  predicate Fails(outcome: HttpOutcome) {
    !outcome.Ok? || outcome.body.bogon || outcome.body.error.Some?
  }

  /** The message of the error the catch block receives. */
  function FailureMessage(outcome: HttpOutcome): string
    requires Fails(outcome)
  {
    match outcome
    case Thrown(e) => if e.Some? then e.value else UnknownErrorMessage
    case NotOk(status, statusText) => NotOkMessagePrefix + DecimalString(status) + " " + statusText
    case Ok(body) =>
      var payloadMessage := if body.error.Some? then body.error.value.message else None;
      OrElse(payloadMessage, InvalidIpMessage)
  }

  /** Which message each failure carries: a thrown Error's own message (or a
      generic one for a non-Error), the status line of a non-OK response, and
      for a bogon or error payload the payload's message when it is non-empty,
      else the invalid-IP message. */
  lemma FailureMessageCases(outcome: HttpOutcome)
    requires Fails(outcome)
    ensures var m := FailureMessage(outcome);
      && (outcome.Thrown? && outcome.errorMessage.Some? ==> m == outcome.errorMessage.value)
      && (outcome.Thrown? && outcome.errorMessage.None? ==> m == UnknownErrorMessage)
      && (outcome.NotOk? ==> m == NotOkMessagePrefix + DecimalString(outcome.status) + " " + outcome.statusText)
      && (outcome.Ok? && outcome.body.error.Some? && Truthy(outcome.body.error.value.message)
          ==> m == outcome.body.error.value.message.value)
      && (outcome.Ok? && !(outcome.body.error.Some? && Truthy(outcome.body.error.value.message))
          ==> m == InvalidIpMessage)
  {
  }

  /** getCountryNameByCode: no name without a code, otherwise the lookup's answer. */
  function CountryName(code: Option<string>, displayName: string -> string): (name: Option<string>)
    ensures name.Some? <==> Truthy(code)
    ensures name.Some? ==> name.value == displayName(code.value)
  {
    if Truthy(code) then Some(displayName(code.value)) else None
  }

  /** The first space-separated token of an org string. */
  function FirstToken(s: string): string {
    Split(s, ' ')[0]
  }

  /** What the org parsing promises about (as, org) for the raw `org` field. */
  ghost predicate OrgSplit(dataOrg: Option<string>, asn: string, org: string) {
    if !Truthy(dataOrg) then asn == "" && org == ""
    else
      var s := dataOrg.value;
      if StartsWith(FirstToken(s), "AS") then
        && asn == FirstToken(s) && ' ' !in asn
        && (' ' in s ==> asn + " " + org == s)
        && (' ' !in s ==> asn == s && org == "")
      else
        asn == "" && org == s
  }

  /** The org parsing: `org.split(' ')`, `shift()` of an "AS" token, `join(' ')`
      of the rest; ISP is the same as the organisation. */
  method ParseOrg(dataOrg: Option<string>) returns (asn: string, org: string, isp: string)
    ensures OrgSplit(dataOrg, asn, org)
    ensures isp == org
  {
    asn, org, isp := "", "", "";
    if Truthy(dataOrg) {
      var orgParts := Split(dataOrg.value, ' ');
      if StartsWith(orgParts[0], "AS") {
        asn := orgParts[0];
        ghost var all := orgParts;
        orgParts := orgParts[1..];
        org := Join(orgParts, " ");
        JoinSplit(dataOrg.value, ' ');
        if |all| >= 2 {
          JoinCons(all, " ");
          assert all[1..] == orgParts;
        }
      } else {
        org := dataOrg.value;
      }
      isp := org;
    }
  }

  function FailRecord(ip: string, message: string): (geo: GeoData)
    ensures geo.status == Fail && geo.query == ip && geo.message == Some(message)
  {
    GeoData(ip, Fail, Some(message), None, None, None, None, None, None, None)
  }

  /** The record a successful lookup returns for `body`: the body's IP,
      country code, region and city, the looked-up country name, and the org
      split, with ISP the same as the organisation. */
  ghost predicate SuccessRecord(geo: GeoData, body: GeoBody, displayName: string -> string) {
    && geo.status == Success
    && geo.query == body.ip
    && geo.message == None
    && geo.country == CountryName(body.country, displayName)
    && geo.countryCode == body.country
    && geo.regionName == body.region
    && geo.city == body.city
    && geo.org.Some? && geo.asn.Some?
    && OrgSplit(body.org, geo.asn.value, geo.org.value)
    && geo.isp == geo.org
  }

  /** fetchIPInfo(ip). Never throws: every failure is a `fail` record for the
      requested IP; a success copies the body's fields and the org split. */
  method FetchIPInfo(ip: string, fetch: string -> HttpOutcome, displayName: string -> string)
    returns (geo: GeoData)
    ensures geo.status == Fail <==> Fails(fetch(RequestUrl(ip)))
    ensures geo.status == Fail ==> geo == FailRecord(ip, FailureMessage(fetch(RequestUrl(ip))))
    ensures geo.status == Success ==> SuccessRecord(geo, fetch(RequestUrl(ip)).body, displayName)
  {
    var url := RequestUrl(ip);
    var outcome := fetch(url);
    if Fails(outcome) {
      geo := FailRecord(ip, FailureMessage(outcome));
      return;
    }
    var data := outcome.body;
    var asn, org, isp := ParseOrg(data.org);
    geo := GeoData(
      query := data.ip,
      status := Success,
      message := None,
      country := CountryName(data.country, displayName),
      countryCode := data.country,
      regionName := data.region,
      city := data.city,
      isp := Some(isp),
      org := Some(org),
      asn := Some(asn));
  }
}
