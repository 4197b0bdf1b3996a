/** components/AnalysisInputForm.tsx: the IPv4 check of the input box and the
    two ways the form starts an analysis. */
module AnalysisInputForm {
  import opened Types
  import opened JsString

  const EnterIpMessage := "분석할 IP 주소를 입력해주세요."
  const FormatMessage := "유효한 IPv4 주소 형식이 아닙니다."

  /** One octet of the pattern: `25[0-5]|2[0-4][0-9]|[01]?[0-9][0-9]?`. The
      last alternative matches one digit, two digits, or [01] and two digits. */
  predicate OctetPattern(o: string) {
    || (|o| == 3 && o[0] == '2' && o[1] == '5' && '0' <= o[2] <= '5')
    || (|o| == 3 && o[0] == '2' && '0' <= o[1] <= '4' && IsDigit(o[2]))
    || (|o| == 1 && IsDigit(o[0]))
    || (|o| == 2 && IsDigit(o[0]) && IsDigit(o[1]))
    || (|o| == 3 && (o[0] == '0' || o[0] == '1') && IsDigit(o[1]) && IsDigit(o[2]))
  }

  /** The strings the anchored pattern `^(?:O\.){3}O$` matches. */
  ghost predicate MatchesIpPattern(s: string) {
    exists octets: seq<string> ::
      && |octets| == 4
      && (forall i :: 0 <= i < 4 ==> OctetPattern(octets[i]))
      && Join(octets, ".") == s
  }

  /** An octet as a reader means it: one to three ASCII digits worth at most 255. */
  predicate IsByteText(o: string) {
    1 <= |o| <= 3 && AllDigits(o) && DecimalValue(o) <= 255
  }

  /** isValidIp: the anchored regular expression, evaluated by splitting at the dots. */
  function IsValidIp(s: string): bool {
    var parts := Split(s, '.');
    |parts| == 4 && forall i :: 0 <= i < 4 ==> OctetPattern(parts[i])
  }

  /** The split-based check accepts exactly the strings the pattern matches. */
  lemma IsValidIpMatchesPattern(s: string)
    ensures IsValidIp(s) <==> MatchesIpPattern(s)
  {
    if IsValidIp(s) {
      JoinSplit(s, '.');
      var octets := Split(s, '.');
      assert Join(octets, ".") == s;
    }
    if MatchesIpPattern(s) {
      var octets :| |octets| == 4 && (forall i :: 0 <= i < 4 ==> OctetPattern(octets[i])) && Join(octets, ".") == s;
      forall i | 0 <= i < 4 ensures '.' !in octets[i] {
        assert OctetPattern(octets[i]);
      }
      SplitJoin(octets, '.');
    }
  }

  lemma DecimalValue3(o: string)
    requires |o| == 3 && AllDigits(o)
    ensures DecimalValue(o) == 100 * DigitValue(o[0]) + 10 * DigitValue(o[1]) + DigitValue(o[2])
  {
    DecimalValue2(o[..2]);
  }

  lemma DecimalValue2(o: string)
    requires |o| == 2 && AllDigits(o)
    ensures DecimalValue(o) == 10 * DigitValue(o[0]) + DigitValue(o[1])
  {
    assert o[..1][..0] == [];
    assert DecimalValue(o[..1]) == DigitValue(o[0]);
  }

  /** The octet alternatives accept exactly the texts of 0..255 with at most three digits. */
  lemma OctetPatternIsByte(o: string)
    ensures OctetPattern(o) <==> IsByteText(o)
  {
    if |o| == 3 && AllDigits(o) {
      DecimalValue3(o);
    } else if |o| == 2 && AllDigits(o) {
      DecimalValue2(o);
    } else if |o| == 1 && AllDigits(o) {
      assert o[..0] == [];
      assert DecimalValue(o) == DigitValue(o[0]);
    }
  }

  /** For a string given as its dot-free pieces, isValidIp looks at exactly those pieces. */
  lemma IsValidIpOfPieces(parts: seq<string>)
    requires |parts| >= 1 && forall i :: 0 <= i < |parts| ==> '.' !in parts[i]
    ensures IsValidIp(Join(parts, ".")) <==> |parts| == 4 && forall i :: 0 <= i < 4 ==> OctetPattern(parts[i])
  {
    SplitJoin(parts, '.');
  }

  /** A string made of four dot-free pieces that each match an octet is accepted. */
  lemma AcceptedPieces(s: string, parts: seq<string>)
    requires |parts| == 4 && forall i :: 0 <= i < 4 ==> '.' !in parts[i] && OctetPattern(parts[i])
    requires Join(parts, ".") == s
    ensures IsValidIp(s)
  {
    IsValidIpOfPieces(parts);
  }

  /** A string made of dot-free pieces is rejected when there are not four of
      them, or when piece `k` does not match an octet. */
  lemma RejectedPieces(s: string, parts: seq<string>, k: nat)
    requires |parts| >= 1 && forall i :: 0 <= i < |parts| ==> '.' !in parts[i]
    requires Join(parts, ".") == s
    requires |parts| != 4 || (k < 4 && !OctetPattern(parts[k]))
    ensures !IsValidIp(s)
  {
    IsValidIpOfPieces(parts);
  }

  /** Leading zeros are accepted. */
  lemma LeadingZerosAccepted()
    ensures IsValidIp("01.001.0.00")
  {
    AcceptedPieces("01.001.0.00", ["01", "001", "0", "00"]);
  }

  /** An octet above 255 is rejected. */
  lemma OctetAbove255Rejected()
    ensures !IsValidIp("256.1.1.1")
  {
    RejectedPieces("256.1.1.1", ["256", "1", "1", "1"], 0);
  }

  /** The pattern is anchored: surrounding white space is rejected. */
  lemma LeadingSpaceRejected()
    ensures !IsValidIp(" 1.2.3.4")
  {
    RejectedPieces(" 1.2.3.4", [" 1", "2", "3", "4"], 0);
  }

  /** An empty octet is rejected. */
  lemma EmptyOctetRejected()
    ensures !IsValidIp("1..2.3")
  {
    RejectedPieces("1..2.3", ["1", "", "2", "3"], 1);
  }

  /** A trailing dot is rejected. */
  lemma TrailingDotRejected()
    ensures !IsValidIp("1.2.3.")
  {
    RejectedPieces("1.2.3.", ["1", "2", "3", ""], 3);
  }

  /** Three octets are rejected. */
  lemma ThreeOctetsRejected()
    ensures !IsValidIp("1.2.3")
  {
    RejectedPieces("1.2.3", ["1", "2", "3"], 0);
  }

  /** Five octets are rejected. */
  lemma FiveOctetsRejected()
    ensures !IsValidIp("1.2.3.4.5")
  {
    RejectedPieces("1.2.3.4.5", ["1", "2", "3", "4", "5"], 0);
  }

  /** What the form did with `onAnalyze`: not called, or called with its argument. */
  datatype Callback = NotCalled | Called(arg: Option<string>)

  class InputForm {
    var ip: string
    var error: Option<string>

    constructor ()
      ensures ip == "" && error == None
    {
      ip := "";
      error := None;
    }

    /** The input box's onChange. */
    method SetIp(value: string)
      modifies this`ip
      ensures ip == value
    {
      ip := value;
    }

    /** handleSubmit: an empty box and a malformed address each set their
        message and start nothing; a well-formed address clears the message
        and is analysed as typed. */
    method HandleSubmit() returns (call: Callback)
      modifies this`error
      ensures ip == "" ==> error == Some(EnterIpMessage) && call == NotCalled
      ensures ip != "" && !IsValidIp(ip) ==> error == Some(FormatMessage) && call == NotCalled
      ensures IsValidIp(ip) ==> error == None && call == Called(Some(ip))
    {
      if ip == "" {
        error := Some(EnterIpMessage);
        return NotCalled;
      }
      if !IsValidIp(ip) {
        error := Some(FormatMessage);
        return NotCalled;
      }
      error := None;
      call := Called(Some(ip));
    }

    /** handleMyIpAnalyze: clears the box and the message and asks for a self-analysis. */
    method HandleMyIpAnalyze() returns (call: Callback)
      modifies this
      ensures ip == "" && error == None && call == Called(None)
    {
      ip := "";
      error := None;
      call := Called(None);
    }
  }
}
