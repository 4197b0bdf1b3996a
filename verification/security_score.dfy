/** utils/securityScore.ts: a heuristic 0-100 label computed from the TLS
    version, the HTTP version and the WARP flag of a trace. Every test is an
    exact string comparison. */
module SecurityScore {
  import opened Types

  /** TLS credit: 35 for exactly "TLSv1.3", 15 for exactly "TLSv1.2", else nothing. */
  function TlsPoints(tls: Option<string>): (p: int)
    ensures p == 35 <==> tls == Some("TLSv1.3")
    ensures p == 15 <==> tls == Some("TLSv1.2")
    ensures p == 0 <==> tls != Some("TLSv1.3") && tls != Some("TLSv1.2")
  {
    if tls == Some("TLSv1.3") then 35
    else if tls == Some("TLSv1.2") then 15
    else 0
  }

  /** HTTP credit: 35 for exactly "h3", 25 for exactly "http/2", else nothing. */
  function HttpPoints(http: Option<string>): (p: int)
    ensures p == 35 <==> http == Some("h3")
    ensures p == 25 <==> http == Some("http/2")
    ensures p == 0 <==> http != Some("h3") && http != Some("http/2")
  {
    if http == Some("h3") then 35
    else if http == Some("http/2") then 25
    else 0
  }

  /** WARP credit: 30 exactly when the flag is "on". */
  function WarpPoints(warp: Option<string>): (p: int)
    ensures p == 30 <==> warp == Some("on")
    ensures p == 0 <==> warp != Some("on")
  {
    if warp == Some("on") then 30 else 0
  }

  function Clamp(lo: int, hi: int, x: int): int
    requires lo <= hi
  {
    if x < lo then lo else if x > hi then hi else x
  }

  /** calculateSecurityScore: the clamped sum of the three credits. The clamp
      never bites: the result is the raw sum, which already lies in 0..100. */
  function CalculateSecurityScore(data: TraceData): (r: int)
    ensures 0 <= r <= 100
    ensures r == TlsPoints(data.tlsVersion) + HttpPoints(data.httpVersion) + WarpPoints(data.warp)
  {
    var score := TlsPoints(data.tlsVersion) + HttpPoints(data.httpVersion) + WarpPoints(data.warp);
    Clamp(0, 100, score)
  }

  /** The three documented sample points. */
  lemma SampleScores()
    ensures CalculateSecurityScore(NoTrace.(tlsVersion := Some("TLSv1.3"), httpVersion := Some("h3"), warp := Some("on"))) == 100
    ensures CalculateSecurityScore(NoTrace) == 0
    ensures CalculateSecurityScore(NoTrace.(tlsVersion := Some("TLSv1.2"), httpVersion := Some("http/2"), warp := Some("off"))) == 40
  {
  }

  /** Only the exact token "h3" earns HTTP credit: a draft label such as "h3-29" earns none. */
  lemma H3DraftEarnsNothing(data: TraceData)
    requires data.httpVersion == Some("h3-29")
    ensures CalculateSecurityScore(data) == TlsPoints(data.tlsVersion) + WarpPoints(data.warp)
  {
  }

  /** Upgrading TLSv1.2 to TLSv1.3, http/2 to h3, or turning WARP on never lowers the score. */
  lemma ScoreMonotone(data: TraceData, better: TraceData)
    requires better.tlsVersion == data.tlsVersion
          || (data.tlsVersion == Some("TLSv1.2") && better.tlsVersion == Some("TLSv1.3"))
    requires better.httpVersion == data.httpVersion
          || (data.httpVersion == Some("http/2") && better.httpVersion == Some("h3"))
    requires better.warp == data.warp || better.warp == Some("on")
    ensures CalculateSecurityScore(data) <= CalculateSecurityScore(better)
  {
  }
}
