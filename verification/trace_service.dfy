/** services/traceService.ts, the part of fetchTraceData after the HTTP
    call: the response text is trimmed, cut into lines at '\n', each line is
    split with `split('=', 2)`, and a dictionary is filled line by line, a
    later line overwriting an earlier one with the same key. Nine known keys
    are then copied into a TraceData record. */
module TraceService {
  import opened Types
  import opened JsString

  /** The lines the parser walks over: `text.trim().split('\n')`. */
  function TraceLines(body: string): (lines: seq<string>)
    ensures |lines| >= 1
  {
    Split(Trim(body), '\n')
  }

  /** The lines hold no line break, and joined back with '\n' they are the trimmed body. */
  lemma TraceLinesRejoin(body: string)
    ensures forall i :: 0 <= i < |TraceLines(body)| ==> '\n' !in TraceLines(body)[i]
    ensures Join(TraceLines(body), "\n") == Trim(body)
  {
    JoinSplit(Trim(body), '\n');
    SplitFacts(Trim(body), '\n');
  }

  /** How a key and a value sit in a line: the key is the text before the
      first '=', the value the text between the first and the second '='
      (or the end of the line); whatever follows a second '=' is lost. */
  predicate KeyValueOf(line: string, key: string, value: string) {
    && '=' !in key && '=' !in value
    && |key| + 1 + |value| <= |line|
    && line[..|key|] == key
    && line[|key|] == '='
    && line[|key| + 1..|key| + 1 + |value|] == value
    && (|key| + 1 + |value| == |line| || line[|key| + 1 + |value|] == '=')
  }

  /** What one line contributes: `line.split('=', 2)` when it has two parts. */
  function Entry(line: string): Option<(string, string)> {
    var parts := SplitLimit(line, '=', 2);
    if |parts| == 2 then Some((parts[0], parts[1])) else None
  }

  /** A line contributes exactly when it holds an '=', and then its key is
      the text before the first '=' and its value the text up to the next. */
  lemma EntryShape(line: string)
    ensures Entry(line).None? <==> '=' !in line
    ensures Entry(line).Some? ==> KeyValueOf(line, Entry(line).value.0, Entry(line).value.1)
  {
    if '=' in line {
      FirstTwoPieces(line);
    }
  }

  lemma FirstTwoPieces(line: string)
    requires '=' in line
    ensures |Split(line, '=')| >= 2
    ensures KeyValueOf(line, Split(line, '=')[0], Split(line, '=')[1])
  {
    var i := IndexOf(line, '=');
    var tail := line[i + 1..];
    SplitUnfold(line, '=');
    var value := Split(tail, '=')[0];
    KeyThenValue(line, i, value);
  }

  /** The key ends at the first '=' and the value runs from there to the next '=' or the end. */
  lemma KeyThenValue(line: string, i: nat, value: string)
    requires i < |line| && line[i] == '=' && '=' !in line[..i] && '=' !in value
    requires StartsWith(line[i + 1..], value)
    requires |value| == |line| - i - 1 || line[i + 1..][|value|] == '='
    ensures KeyValueOf(line, line[..i], value)
  {
    assert line[i + 1..i + 1 + |value|] == line[i + 1..][..|value|];
  }

  predicate HasKey(line: string, key: string) {
    Entry(line).Some? && Entry(line).value.0 == key
  }

  /** The value the dictionary ends up holding for `key` after `lines`:
      that of the last line carrying the key. */
  function LastValue(lines: seq<string>, key: string): Option<string> {
    if lines == [] then None
    else if HasKey(lines[|lines| - 1], key) then Some(Entry(lines[|lines| - 1]).value.1)
    else LastValue(lines[..|lines| - 1], key)
  }

  /** Line `i` carries the key and no later line does. */
  predicate IsLastWithKey(lines: seq<string>, key: string, i: nat)
    requires i < |lines|
  {
    HasKey(lines[i], key) && forall j :: i < j < |lines| ==> !HasKey(lines[j], key)
  }

  /** LastValue is absent exactly when no line carries the key, and otherwise
      is the value of the last line that does: later lines win. */
  lemma {:induction false} LastValueIsLastLine(lines: seq<string>, key: string)
    ensures LastValue(lines, key).None? <==> forall i :: 0 <= i < |lines| ==> !HasKey(lines[i], key)
    ensures forall i :: 0 <= i < |lines| && IsLastWithKey(lines, key, i)
                        ==> LastValue(lines, key) == Some(Entry(lines[i]).value.1)
  {
    if lines != [] {
      var n := |lines| - 1;
      var init := lines[..n];
      LastValueIsLastLine(init, key);
      assert forall i :: 0 <= i < n ==> init[i] == lines[i];
      if !HasKey(lines[n], key) {
        forall i | 0 <= i < n && IsLastWithKey(lines, key, i)
          ensures IsLastWithKey(init, key, i)
        {
        }
      }
    }
  }

  function Get(data: map<string, string>, key: string): (v: Option<string>)
    ensures v.Some? <==> key in data
    ensures v.Some? ==> v.value == data[key]
  {
    if key in data then Some(data[key]) else None
  }

  /** The `forEach` over the lines, filling the dictionary. */
  method ParseFields(lines: seq<string>) returns (data: map<string, string>)
    ensures forall key :: Get(data, key) == LastValue(lines, key)
  {
    data := map[];
    var n := 0;
    while n < |lines|
      invariant 0 <= n <= |lines|
      invariant forall key :: Get(data, key) == LastValue(lines[..n], key)
    {
      var line := lines[n];
      var parts := SplitLimit(line, '=', 2);
      if |parts| == 2 {
        var key, value := parts[0], parts[1];
        data := data[key := value];
      }
      assert lines[..n + 1][..n] == lines[..n];
      n := n + 1;
    }
    assert lines[..n] == lines;
  }

  /** The keys the record is built from, in the order of its fields. */
  const TraceKeys: seq<string> := ["ip", "loc", "colo", "http", "tls", "uag", "warp", "visit_scheme", "sni"]

  /** The record field a trace key is copied into. */
  function Field(t: TraceData, key: string): Option<string> {
    if key == "ip" then t.ip
    else if key == "loc" then t.countryCode
    else if key == "colo" then t.dataCenter
    else if key == "http" then t.httpVersion
    else if key == "tls" then t.tlsVersion
    else if key == "uag" then t.userAgent
    else if key == "warp" then t.warp
    else if key == "visit_scheme" then t.visitScheme
    else if key == "sni" then t.sni
    else None
  }

  /** Every known key other than `ip` holds the last value that `body` gives it. */
  predicate OtherFieldsFrom(t: TraceData, body: string) {
    forall key :: key in TraceKeys && key != "ip" ==> Field(t, key) == LastValue(TraceLines(body), key)
  }

  /** The returned object literal: each known key copied into its field. */
  function ToTrace(data: map<string, string>): TraceData {
    TraceData(
      ip := Get(data, "ip"),
      countryCode := Get(data, "loc"),
      dataCenter := Get(data, "colo"),
      httpVersion := Get(data, "http"),
      tlsVersion := Get(data, "tls"),
      userAgent := Get(data, "uag"),
      warp := Get(data, "warp"),
      visitScheme := Get(data, "visit_scheme"),
      sni := Get(data, "sni"))
  }

  lemma ToTraceField(data: map<string, string>, key: string)
    requires key in TraceKeys
    ensures Field(ToTrace(data), key) == Get(data, key)
  {
  }

  /** A blank body leaves a single empty line, which carries no key. */
  lemma BlankBodyHasNoKeys(body: string, key: string)
    requires AllWhitespace(body)
    ensures LastValue(TraceLines(body), key) == None
  {
    assert Trim(body) == "";
    assert TraceLines(body) == [""];
    assert !HasKey("", key);
    assert [""][..0] == [];
  }

  /** With every key absent from the dictionary, every field is absent. */
  lemma BlankTraceIsEmpty(body: string, data: map<string, string>)
    requires AllWhitespace(body)
    requires forall key :: Get(data, key) == LastValue(TraceLines(body), key)
    ensures ToTrace(data) == NoTrace
  {
    forall key ensures Get(data, key) == None {
      BlankBodyHasNoKeys(body, key);
    }
  }

  /** Each known field of the record is the dictionary's entry for its key. */
  lemma ToTraceFields(lines: seq<string>, data: map<string, string>)
    requires forall key :: Get(data, key) == LastValue(lines, key)
    ensures forall key :: key in TraceKeys ==> Field(ToTrace(data), key) == LastValue(lines, key)
    ensures ToTrace(data).ip == LastValue(lines, "ip")
  {
    forall key | key in TraceKeys ensures Field(ToTrace(data), key) == LastValue(lines, key) {
      ToTraceField(data, key);
    }
  }

  /** fetchTraceData after a successful response with text `body`. Total: every
      body gives a record; each field is the last value given to its key, other
      keys are ignored, and a blank body gives a record with every field absent. */
  method ParseTrace(body: string) returns (r: TraceData)
    ensures forall key :: key in TraceKeys ==> Field(r, key) == LastValue(TraceLines(body), key)
    ensures r.ip == LastValue(TraceLines(body), "ip")
    ensures AllWhitespace(body) ==> r == NoTrace
  {
    var lines := TraceLines(body);
    var data := ParseFields(lines);
    r := ToTrace(data);
    ToTraceFields(lines, data);
    if AllWhitespace(body) {
      BlankTraceIsEmpty(body, data);
    }
  }
}
