/** App.tsx: the analysis pipeline (trace, then geolocation, then result,
    score and history entry), the Gemini API-key status machine and the tab
    gating that depends on both. The trace response, the HTTP layer of the
    geolocation lookup, the key validation call, the environment key and the
    clock are parameters; steps run one after another. */
module App {
  import opened Types
  import SecurityScore
  import TraceService
  import IpApiService
  import LogService

  datatype ApiKeyStatus = Missing | Valid | Invalid | Checking | FromEnv

  /** How fetchTraceData ended: it threw (network error or a non-OK status), or
      the edge endpoint answered with this text. */
  datatype TraceOutcome = TraceFailed | TraceText(body: string)

  const SelfLabel := "내 IP"
  const UnknownReason := "알 수 없는 오류"

  /** isGeminiReady. */
  predicate IsGeminiReady(status: ApiKeyStatus) {
    status == Valid || status == FromEnv
  }

  /** isPrivacyTabDisabled: no trace data, or no usable key. */
  predicate IsPrivacyTabDisabled(result: Option<AnalysisResult>, status: ApiKeyStatus) {
    result.None? || result.value.traceData.None? || !IsGeminiReady(status)
  }

  /** isPostcardTabDisabled: no successful lookup, no country, or no usable key. */
  predicate IsPostcardTabDisabled(result: Option<AnalysisResult>, status: ApiKeyStatus) {
    || result.None? || result.value.geoData.status != Success
    || !Truthy(result.value.geoData.country) || !IsGeminiReady(status)
  }

  /** Both AI tabs are open only with a ready key; without a result both are
      closed. With a ready key and a result, the privacy tab is open exactly
      when there is trace data, and the postcard tab exactly when the lookup
      succeeded and named a country. */
  lemma TabsNeedReadyKey(result: Option<AnalysisResult>, status: ApiKeyStatus)
    ensures !IsGeminiReady(status) ==> IsPrivacyTabDisabled(result, status) && IsPostcardTabDisabled(result, status)
    ensures result.None? ==> IsPrivacyTabDisabled(result, status) && IsPostcardTabDisabled(result, status)
    ensures IsGeminiReady(status) && result.Some? && result.value.traceData.Some? ==> !IsPrivacyTabDisabled(result, status)
    ensures IsGeminiReady(status) && result.Some? && result.value.traceData.None? ==> IsPrivacyTabDisabled(result, status)
    ensures (IsGeminiReady(status) && result.Some?
             && (result.value.geoData.status != Success || !Truthy(result.value.geoData.country))) ==> IsPostcardTabDisabled(result, status)
    ensures (IsGeminiReady(status) && result.Some? && result.value.geoData.status == Success
             && Truthy(result.value.geoData.country)) ==> !IsPostcardTabDisabled(result, status)
  {
  }

  /** validateApiKey: an empty key is refused without a call; otherwise the
      service's answer, given here as `accepts`. */
  function ValidateApiKey(key: string, accepts: string -> bool): (ok: bool)
    ensures ok ==> key != ""
    ensures key != "" ==> ok == accepts(key)
  {
    key != "" && accepts(key)
  }

  /** The IP the geolocation lookup is asked about: the explicit IP, else the
      trace's `ip` when the trace was read and has one, else "" (the caller). */
  function GeoTarget(ip: Option<string>, trace: TraceOutcome): string {
    if Truthy(ip) then ip.value
    else if trace.TraceFailed? then ""
    else OrElse(TraceService.LastValue(TraceService.TraceLines(trace.body), "ip"), "")
  }

  /** The IP named in the error message. */
  function DisplayIp(ip: Option<string>, target: string): string {
    if target != "" then target else OrElse(ip, SelfLabel)
  }

  function FailureText(displayIp: string, reason: string): string {
    "IP 정보(" + displayIp + ") 조회 실패: " + reason
  }

  /** The score stored with a result: present exactly when trace data is. */
  function EntryScore(result: AnalysisResult): (score: Option<int>)
    ensures score.Some? <==> result.traceData.Some?
    ensures score.Some? ==> 0 <= score.value <= 100
    ensures score.Some? ==> score.value == SecurityScore.CalculateSecurityScore(result.traceData.value)
  {
    if result.traceData.Some? then Some(SecurityScore.CalculateSecurityScore(result.traceData.value)) else None
  }

  predicate AllSucceeded(logs: seq<LogEntry>) {
    forall e :: e in logs ==> e.result.geoData.status == Success
  }

  /** Saving a successful entry keeps a history of successful lookups so. */
  lemma SaveKeepsSuccesses(slot: LogService.Slot, log: LogEntry, now: int)
    requires AllSucceeded(LogService.ReadLogs(slot)) && log.result.geoData.status == Success
    ensures AllSucceeded(LogService.ReadLogs(LogService.AfterSave(slot, log, now)))
  {
  }

  /** The trace shown with a result: the parsed one with its `ip` overwritten
      by the IP the lookup answered for; every other key keeps its field. */
  function WithLookedUpIp(t: TraceData, query: string): (r: TraceData)
    ensures r.ip == Some(query)
    ensures forall key :: key != "ip" ==> TraceService.Field(r, key) == TraceService.Field(t, key)
  {
    t.(ip := Some(query))
  }

  /** The first step of handleAnalysis: with no explicit IP the trace is read
      (a failure is swallowed) and its `ip`, when present, becomes the lookup target. */
  method ReadTrace(ip: Option<string>, trace: TraceOutcome) returns (traceData: Option<TraceData>, targetIpForGeo: string)
    ensures targetIpForGeo == GeoTarget(ip, trace)
    ensures traceData.Some? <==> !Truthy(ip) && trace.TraceText?
    ensures traceData.Some? ==> forall key :: key in TraceService.TraceKeys ==>
      TraceService.Field(traceData.value, key) == TraceService.LastValue(TraceService.TraceLines(trace.body), key)
  {
    traceData := None;
    targetIpForGeo := if Truthy(ip) then ip.value else "";
    if !Truthy(ip) {
      match trace {
        case TraceFailed =>
        case TraceText(body) =>
          var parsed := TraceService.ParseTrace(body);
          traceData := Some(parsed);
          if Truthy(parsed.ip) {
            targetIpForGeo := parsed.ip.value;
          }
      }
    }
  }

  /** The lookups of handleAnalysis, before any state is set: the trace is
      read, the geolocation is fetched for the resulting target, and on
      success the trace's `ip` becomes the IP the lookup answered for. */
  method Lookup(ip: Option<string>, trace: TraceOutcome,
                fetch: string -> IpApiService.HttpOutcome, displayName: string -> string)
    returns (geoData: GeoData, traceData: Option<TraceData>, targetIpForGeo: string)
    ensures targetIpForGeo == GeoTarget(ip, trace)
    ensures var outcome := fetch(IpApiService.RequestUrl(targetIpForGeo));
      && (geoData.status == Fail <==> IpApiService.Fails(outcome))
      && (geoData.status == Fail ==> geoData == IpApiService.FailRecord(targetIpForGeo, IpApiService.FailureMessage(outcome)))
      && (geoData.status == Success ==> IpApiService.SuccessRecord(geoData, outcome.body, displayName))
    ensures traceData.Some? <==> !Truthy(ip) && trace.TraceText?
    ensures traceData.Some? && geoData.status == Success ==> traceData.value.ip == Some(geoData.query)
    ensures traceData.Some? ==> TraceService.OtherFieldsFrom(traceData.value, trace.body)
  {
    traceData, targetIpForGeo := ReadTrace(ip, trace);
    geoData := IpApiService.FetchIPInfo(targetIpForGeo, fetch, displayName);
    if geoData.status == Success && traceData.Some? {
      traceData := Some(WithLookedUpIp(traceData.value, geoData.query));
    }
  }

  class AppState {
    var analysisResult: Option<AnalysisResult>
    var isLoading: bool
    var error: Option<string>
    var apiKey: Option<string>
    var apiKeyStatus: ApiKeyStatus
    /** The `geminiApiKey` local-storage slot. */
    var storedKey: Option<string>
    /** The analysis history. */
    const history: LogService.LogStore

    /** A ready status always comes with a key, and a shown result is a successful lookup. */
    predicate Consistent()
      reads this
    {
      && (IsGeminiReady(apiKeyStatus) ==> Truthy(apiKey))
      && (analysisResult.Some? ==> analysisResult.value.geoData.status == Success)
    }

    constructor (history: LogService.LogStore, storedKey: Option<string>)
      ensures this.history == history && this.storedKey == storedKey
      ensures analysisResult == None && !isLoading && error == None
      ensures apiKey == None && apiKeyStatus == Checking
      ensures Consistent()
    {
      this.history := history;
      this.storedKey := storedKey;
      analysisResult := None;
      isLoading := false;
      error := None;
      apiKey := None;
      apiKeyStatus := Checking;
    }

    /** checkApiKey, run once at start: an environment key wins without a
        check; a stored key is validated, and dropped from storage if refused;
        with neither the status is missing. */
    method CheckApiKey(envKey: Option<string>, accepts: string -> bool)
      requires Consistent()
      modifies this`apiKey, this`apiKeyStatus, this`storedKey
      ensures Consistent()
      ensures Truthy(envKey) ==>
        apiKey == envKey && apiKeyStatus == FromEnv && storedKey == old(storedKey)
      ensures !Truthy(envKey) && Truthy(old(storedKey)) && accepts(old(storedKey).value) ==>
        apiKey == old(storedKey) && apiKeyStatus == Valid && storedKey == old(storedKey)
      ensures !Truthy(envKey) && Truthy(old(storedKey)) && !accepts(old(storedKey).value) ==>
        apiKey == None && apiKeyStatus == Invalid && storedKey == None
      ensures !Truthy(envKey) && !Truthy(old(storedKey)) ==>
        apiKey == old(apiKey) && apiKeyStatus == Missing && storedKey == old(storedKey)
    {
      if Truthy(envKey) {
        apiKey := envKey;
        apiKeyStatus := FromEnv;
        return;
      }
      var key := storedKey;
      if Truthy(key) {
        apiKeyStatus := Checking;
        var isValid := ValidateApiKey(key.value, accepts);
        if isValid {
          apiKey := key;
          apiKeyStatus := Valid;
        } else {
          apiKey := None;
          apiKeyStatus := Invalid;
          storedKey := None;
        }
      } else {
        apiKeyStatus := Missing;
      }
    }

    /** handleSaveKey: the key is stored and used only if it validates. */
    method HandleSaveKey(key: string, accepts: string -> bool)
      requires Consistent()
      modifies this`apiKey, this`apiKeyStatus, this`storedKey
      ensures Consistent()
      ensures ValidateApiKey(key, accepts) ==>
        storedKey == Some(key) && apiKey == Some(key) && apiKeyStatus == Valid
      ensures !ValidateApiKey(key, accepts) ==>
        storedKey == old(storedKey) && apiKey == None && apiKeyStatus == Invalid
    {
      apiKeyStatus := Checking;
      var isValid := ValidateApiKey(key, accepts);
      if isValid {
        storedKey := Some(key);
        apiKey := Some(key);
        apiKeyStatus := Valid;
      } else {
        apiKey := None;
        apiKeyStatus := Invalid;
      }
    }

    /** handleClearKey. */
    method HandleClearKey()
      requires Consistent()
      modifies this`apiKey, this`apiKeyStatus, this`storedKey
      ensures Consistent()
      ensures storedKey == None && apiKey == None && apiKeyStatus == Missing
    {
      storedKey := None;
      apiKey := None;
      apiKeyStatus := Missing;
    }

    /** The start of handleAnalysis: loading on, the previous error and result cleared. */
    method BeginAnalysis()
      requires Consistent()
      modifies this`isLoading, this`error, this`analysisResult
      ensures isLoading && error == None && analysisResult == None
      ensures Consistent()
    {
      isLoading := true;
      error := None;
      analysisResult := None;
    }

    /** The catch and finally blocks of handleAnalysis: the message names the
        IP and the reason, and loading is off. */
    method ShowFailure(displayIp: string, reason: Option<string>)
      modifies this`error, this`isLoading
      ensures error == Some(FailureText(displayIp, OrElse(reason, UnknownReason)))
      ensures !isLoading
    {
      error := Some(FailureText(displayIp, OrElse(reason, UnknownReason)));
      isLoading := false;
    }

    /** The successful end of handleAnalysis: the result is shown and goes
        through saveLog, with a score exactly when there is trace data; loading is off. */
    method ShowResult(result: AnalysisResult, id: int, timestamp: string, now: int)
      requires Consistent() && result.geoData.status == Success
      modifies this`analysisResult, this`isLoading, history
      ensures Consistent()
      ensures analysisResult == Some(result) && !isLoading
      ensures history.slot == LogService.AfterSave(old(history.slot), LogEntry(id, timestamp, result, EntryScore(result)), now)
      ensures AllSucceeded(old(history.Contents())) ==> AllSucceeded(history.Contents())
    {
      analysisResult := Some(result);
      var securityScore := EntryScore(result);
      var entry := LogEntry(id, timestamp, result, securityScore);
      if AllSucceeded(history.Contents()) {
        SaveKeepsSuccesses(history.slot, entry, now);
      }
      history.SaveLog(entry, now);
      isLoading := false;
    }

    /** handleAnalysis(ip). A failed lookup sets the error and leaves no result
        and no history entry; otherwise the result is shown, its trace carries
        the looked-up IP, and the entry goes through saveLog with a score
        exactly when there is trace data. Loading is off on every path. */
    method HandleAnalysis(ip: Option<string>, trace: TraceOutcome,
                          fetch: string -> IpApiService.HttpOutcome, displayName: string -> string,
                          id: int, timestamp: string, now: int)
      requires Consistent()
      modifies this`analysisResult, this`isLoading, this`error, history
      ensures Consistent()
      ensures !isLoading
      ensures var outcome := fetch(IpApiService.RequestUrl(GeoTarget(ip, trace)));
        if IpApiService.Fails(outcome) then
          && analysisResult == None
          && error == Some(FailureText(DisplayIp(ip, GeoTarget(ip, trace)), OrElse(Some(IpApiService.FailureMessage(outcome)), UnknownReason)))
          && history.slot == old(history.slot)
        else
          && error == None && analysisResult.Some?
          && var result := analysisResult.value;
          && result.geoData.status == Success
          && IpApiService.SuccessRecord(result.geoData, outcome.body, displayName)
          && (result.traceData.Some? <==> !Truthy(ip) && trace.TraceText?)
          && (result.traceData.Some? ==> result.traceData.value.ip == Some(result.geoData.query))
          && (result.traceData.Some? ==> TraceService.OtherFieldsFrom(result.traceData.value, trace.body))
          && history.slot == LogService.AfterSave(old(history.slot), LogEntry(id, timestamp, result, EntryScore(result)), now)
      ensures Truthy(ip) ==> IsPrivacyTabDisabled(analysisResult, apiKeyStatus)
      ensures AllSucceeded(old(history.Contents())) ==> AllSucceeded(history.Contents())
    {
      BeginAnalysis();
      var geoData, traceData, targetIpForGeo := Lookup(ip, trace, fetch, displayName);
      if geoData.status == Fail {
        var displayIp := if targetIpForGeo != "" then targetIpForGeo else OrElse(ip, SelfLabel);
        assert displayIp == DisplayIp(ip, GeoTarget(ip, trace));
        ShowFailure(displayIp, geoData.message);
        return;
      }
      ShowResult(AnalysisResult(geoData, traceData), id, timestamp, now);
    }
  }
}
