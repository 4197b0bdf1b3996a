/** components/Dashboard.tsx: the two connection-security indicators and the
    country and city lines of the location card. */
module Dashboard {
  import opened Types
  import opened JsString
  import SecurityScore
  import IpApiService

  const UnknownText := "알 수 없음"

  /** `${s}` in a template literal: an absent value prints as "undefined". */
  function Interpolate(s: Option<string>): string {
    if s.Some? then s.value else "undefined"
  }

  /** isSecureHttp: the HTTP version starts with "h3" or is "http/2". */
  predicate IsSecureHttp(trace: Option<TraceData>) {
    && trace.Some? && trace.value.httpVersion.Some?
    && (StartsWith(trace.value.httpVersion.value, "h3") || trace.value.httpVersion.value == "http/2")
  }

  /** isSecureTls: the TLS version is exactly "TLSv1.3". */
  predicate IsSecureTls(trace: Option<TraceData>) {
    trace.Some? && trace.value.tlsVersion == Some("TLSv1.3")
  }

  /** The connection-security card is rendered only for a result with trace data. */
  predicate ShowsConnectionCard(result: AnalysisResult) {
    result.traceData.Some?
  }

  /** The country line: "name (code)" when a name is known. */
  function CountryText(geo: GeoData): string {
    if Truthy(geo.country) then geo.country.value + " (" + Interpolate(geo.countryCode) + ")" else UnknownText
  }

  /** The city line: "city, region" when a city is known. */
  function CityText(geo: GeoData): string {
    if Truthy(geo.city) then geo.city.value + ", " + Interpolate(geo.regionName) else UnknownText
  }

  /** Each location line is the unknown marker exactly when its value is
      missing or empty: a known value always leaves its own text in front. */
  lemma UnknownExactlyWhenMissing(geo: GeoData)
    ensures CountryText(geo) == UnknownText <==> !Truthy(geo.country)
    ensures CityText(geo) == UnknownText <==> !Truthy(geo.city)
    ensures Truthy(geo.country) ==> StartsWith(CountryText(geo), geo.country.value + " (")
    ensures Truthy(geo.city) ==> StartsWith(CityText(geo), geo.city.value + ", ")
  {
    if Truthy(geo.country) {
      var text := CountryText(geo);
      var n := |geo.country.value|;
      assert text[n + 1] == '(';
      assert '(' !in UnknownText;
    }
    if Truthy(geo.city) {
      var text := CityText(geo);
      var n := |geo.city.value|;
      assert text[n] == ',';
      assert ',' !in UnknownText;
    }
  }

  /** The city line in full: the city, a comma and a space, then the region,
      which a template literal prints as "undefined" when it is absent. */
  lemma CityTextSpelledOut(geo: GeoData)
    ensures Truthy(geo.city) && geo.regionName.Some? ==> CityText(geo) == geo.city.value + ", " + geo.regionName.value
    ensures Truthy(geo.city) && geo.regionName.None? ==> CityText(geo) == geo.city.value + ", undefined"
    ensures !Truthy(geo.city) ==> CityText(geo) == UnknownText
  {
  }

  /** Without trace data neither indicator is on and the card is not shown. */
  lemma NoTraceNoIndicators(result: AnalysisResult)
    requires result.traceData.None?
    ensures !IsSecureHttp(result.traceData) && !IsSecureTls(result.traceData)
    ensures !ShowsConnectionCard(result)
  {
  }

  /** TLS is shown secure exactly when it earns the full TLS credit; TLSv1.2
      earns partial credit but is not shown secure. */
  lemma SecureTlsIsFullCredit(t: TraceData)
    ensures IsSecureTls(Some(t)) <==> SecurityScore.TlsPoints(t.tlsVersion) == 35
    ensures t.tlsVersion == Some("TLSv1.2") ==> !IsSecureTls(Some(t)) && SecurityScore.TlsPoints(t.tlsVersion) == 15
  {
  }

  /** Every HTTP version that earns credit is shown secure, but not conversely:
      a draft "h3-29" is shown secure and earns nothing. */
  lemma HttpCreditImpliesSecure(t: TraceData)
    ensures SecurityScore.HttpPoints(t.httpVersion) > 0 ==> IsSecureHttp(Some(t))
    ensures t.httpVersion == Some("h3-29") ==> IsSecureHttp(Some(t)) && SecurityScore.HttpPoints(t.httpVersion) == 0
  {
  }

  /** For a record whose country was looked up from its code, the country line
      is the unknown marker exactly when no code came back or the lookup gave
      an empty name; otherwise it ends with the code itself, never "undefined". */
  lemma CountryTextOfLookedUpRecord(geo: GeoData, displayName: string -> string)
    requires geo.country == IpApiService.CountryName(geo.countryCode, displayName)
    ensures CountryText(geo) == UnknownText <==> !Truthy(geo.countryCode) || displayName(geo.countryCode.value) == ""
    ensures Truthy(geo.country) ==> CountryText(geo) == displayName(geo.countryCode.value) + " (" + geo.countryCode.value + ")"
  {
    if Truthy(geo.country) {
      var text := CountryText(geo);
      assert |text| > |UnknownText| || text[|text| - 1] != UnknownText[|UnknownText| - 1];
    }
  }
}
