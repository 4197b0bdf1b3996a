/** The records of types.ts: what the trace endpoint and the geolocation
    service report, one analysis, and one entry of the history log.
    TypeScript's optional fields (`field?: string`) are `Option<string>`. */
module Types {

  datatype Option<+T> = None | Some(value: T)

  /** Truthiness of an optional string in JavaScript (`if (s)`, `s || x`). */
  predicate Truthy(s: Option<string>) {
    s.Some? && s.value != ""
  }

  /** `s || fallback` on an optional string. */
  function OrElse(s: Option<string>, fallback: string): (r: string)
    ensures Truthy(s) ==> r == s.value
    ensures !Truthy(s) ==> r == fallback
  {
    if Truthy(s) then s.value else fallback
  }

  /** CloudflareTraceData: connection attributes of the caller's own link. */
  datatype TraceData = TraceData(
    ip: Option<string>,
    countryCode: Option<string>,
    dataCenter: Option<string>,
    httpVersion: Option<string>,
    tlsVersion: Option<string>,
    userAgent: Option<string>,
    warp: Option<string>,
    visitScheme: Option<string>,
    sni: Option<string>)

  const NoTrace := TraceData(None, None, None, None, None, None, None, None, None)

  datatype GeoStatus = Success | Fail

  /** IPGeoData: the normalised geolocation record; `asn` is the source's `as`. */
  datatype GeoData = GeoData(
    query: string,
    status: GeoStatus,
    message: Option<string>,
    country: Option<string>,
    countryCode: Option<string>,
    regionName: Option<string>,
    city: Option<string>,
    isp: Option<string>,
    org: Option<string>,
    asn: Option<string>)

  /** AnalysisResult: trace data is present only for an analysis of the caller's own IP. */
  datatype AnalysisResult = AnalysisResult(geoData: GeoData, traceData: Option<TraceData>)

  /** LogEntry: `id` is the creation time in milliseconds, `timestamp` its display text. */
  datatype LogEntry = LogEntry(id: int, timestamp: string, result: AnalysisResult, securityScore: Option<int>)
}
