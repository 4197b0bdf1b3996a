/** The JavaScript string built-ins the core relies on: `startsWith`,
    `split` on a one-character separator, `join`, `trim`, and the decimal
    text of a number. Each is given a characterising contract so that the
    services can be reasoned about without unfolding the definitions. */
module JsString {

  predicate StartsWith(s: string, prefix: string) {
    |prefix| <= |s| && s[..|prefix|] == prefix
  }

  /** Position of the first occurrence of `c` in `s`. */
  function IndexOf(s: string, c: char): (i: nat)
    requires c in s
    ensures i < |s| && s[i] == c && c !in s[..i]
  {
    if s[0] == c then 0
    else
      var j := IndexOf(s[1..], c);
      assert s[..j + 1] == [s[0]] + s[1..][..j];
      j + 1
  }

  /** `s.split(sep)`: the pieces between occurrences of `sep`, in order. */
  function Split(s: string, sep: char): (parts: seq<string>)
    ensures |parts| >= 1
    decreases |s|
  {
    if sep in s then
      var i := IndexOf(s, sep);
      [s[..i]] + Split(s[i + 1..], sep)
    else
      [s]
  }

  /** There is more than one piece exactly when the separator occurs, no
      piece holds it, and the first piece is the text before its first occurrence. */
  lemma {:induction false} SplitFacts(s: string, sep: char)
    ensures |Split(s, sep)| == 1 <==> sep !in s
    ensures forall i :: 0 <= i < |Split(s, sep)| ==> sep !in Split(s, sep)[i]
    ensures StartsWith(s, Split(s, sep)[0])
    ensures |Split(s, sep)[0]| == |s| || s[|Split(s, sep)[0]|] == sep
    decreases |s|
  {
    if sep in s {
      var i := IndexOf(s, sep);
      SplitFacts(s[i + 1..], sep);
      SplitUnfold(s, sep);
    }
  }

  /** The first `n` elements, or all of them when there are fewer (`slice(0, n)`). */
  function Take<T>(s: seq<T>, n: nat): (r: seq<T>)
    ensures |r| == if |s| < n then |s| else n
    ensures r == s[..|r|]
  {
    if |s| < n then s else s[..n]
  }

  /** `s.split(sep, limit)`: the split, cut to at most `limit` pieces. */
  function SplitLimit(s: string, sep: char, limit: nat): (parts: seq<string>)
    ensures |parts| == if |Split(s, sep)| < limit then |Split(s, sep)| else limit
    ensures parts == Split(s, sep)[..|parts|]
  {
    Take(Split(s, sep), limit)
  }

  /** `parts.join(sep)`. */
  function Join(parts: seq<string>, sep: string): string {
    if |parts| == 0 then ""
    else if |parts| == 1 then parts[0]
    else parts[0] + sep + Join(parts[1..], sep)
  }

  /** Joining the pieces of a split with the same separator gives the string back. */
  lemma {:induction false} JoinSplit(s: string, sep: char)
    ensures Join(Split(s, sep), [sep]) == s
    decreases |s|
  {
    if sep in s {
      var i := IndexOf(s, sep);
      var tail := s[i + 1..];
      var rest := Split(tail, sep);
      calc {
        Join(Split(s, sep), [sep]);
        { SplitUnfold(s, sep); }
        Join([s[..i]] + rest, [sep]);
        { JoinPrepend(s[..i], rest, [sep]); }
        s[..i] + [sep] + Join(rest, [sep]);
        { JoinSplit(tail, sep); }
        s[..i] + [sep] + tail;
        { assert s == s[..i] + [sep] + tail; }
        s;
      }
    }
  }

  /** One step of Split: the piece before the first separator, then the split of the rest. */
  lemma SplitUnfold(s: string, sep: char)
    requires sep in s
    ensures Split(s, sep) == [s[..IndexOf(s, sep)]] + Split(s[IndexOf(s, sep) + 1..], sep)
  {
  }

  lemma JoinPrepend(a: string, rest: seq<string>, sep: string)
    requires |rest| >= 1
    ensures Join([a] + rest, sep) == a + sep + Join(rest, sep)
  {
    assert ([a] + rest)[1..] == rest;
  }

  /** Splitting a string whose first piece is `a` peels `a` off. */
  lemma SplitAfterPiece(a: string, sep: char, rest: string)
    requires sep !in a
    ensures Split(a + [sep] + rest, sep) == [a] + Split(rest, sep)
  {
    var s := a + [sep] + rest;
    assert s[|a|] == sep;
    var i := IndexOf(s, sep);
    assert s[..i] == a;
    assert s[i + 1..] == rest;
  }

  /** Splitting a join of separator-free pieces gives the pieces back. */
  lemma {:induction false} SplitJoin(parts: seq<string>, sep: char)
    requires |parts| >= 1
    requires forall i :: 0 <= i < |parts| ==> sep !in parts[i]
    ensures Split(Join(parts, [sep]), sep) == parts
  {
    if |parts| > 1 {
      var rest := parts[1..];
      SplitJoin(rest, sep);
      JoinCons(parts, [sep]);
      SplitAfterPiece(parts[0], sep, Join(rest, [sep]));
      assert [parts[0]] + rest == parts;
    }
  }

  /** Joining a head with the join of the tail. */
  lemma JoinCons(parts: seq<string>, sep: string)
    requires |parts| >= 2
    ensures Join(parts, sep) == parts[0] + sep + Join(parts[1..], sep)
  {
  }

  /** The WhiteSpace and LineTerminator code points `String.prototype.trim` removes. */
  const JsWhitespace: set<char> := {
    '\t', '\n', '\U{000B}', '\U{000C}', '\r', ' ', '\U{00A0}', '\U{1680}',
    '\U{2000}', '\U{2001}', '\U{2002}', '\U{2003}', '\U{2004}', '\U{2005}',
    '\U{2006}', '\U{2007}', '\U{2008}', '\U{2009}', '\U{200A}',
    '\U{2028}', '\U{2029}', '\U{202F}', '\U{205F}', '\U{3000}', '\U{FEFF}'
  }

  predicate IsJsWhitespace(c: char) {
    c in JsWhitespace
  }

  predicate AllWhitespace(s: string) {
    forall k :: 0 <= k < |s| ==> IsJsWhitespace(s[k])
  }

  /** Drops the leading white space: the result is the longest suffix not starting with it. */
  function TrimStart(s: string): (r: string)
    ensures |r| <= |s| && r == s[|s| - |r|..]
    ensures forall k :: 0 <= k < |s| - |r| ==> IsJsWhitespace(s[k])
    ensures r == [] || !IsJsWhitespace(r[0])
  {
    if s == [] || !IsJsWhitespace(s[0]) then s
    else
      var t := TrimStart(s[1..]);
      LeadingWhitespaceShifts(s, |s| - 1 - |t|);
      assert s[1..][|s| - 1 - |t|..] == s[|s| - |t|..];
      t
  }

  lemma LeadingWhitespaceShifts(s: string, n: nat)
    requires n < |s| && IsJsWhitespace(s[0])
    requires forall k :: 0 <= k < n ==> IsJsWhitespace(s[1..][k])
    ensures forall k :: 0 <= k < n + 1 ==> IsJsWhitespace(s[k])
  {
    forall k | 1 <= k < n + 1 ensures IsJsWhitespace(s[k]) {
      assert s[k] == s[1..][k - 1];
    }
  }

  /** Drops the trailing white space: the result is the longest prefix not ending with it. */
  function TrimEnd(s: string): (r: string)
    ensures |r| <= |s| && r == s[..|r|]
    ensures forall k :: |r| <= k < |s| ==> IsJsWhitespace(s[k])
    ensures r == [] || !IsJsWhitespace(r[|r| - 1])
  {
    if s == [] || !IsJsWhitespace(s[|s| - 1]) then s
    else
      var t := TrimEnd(s[..|s| - 1]);
      TrailingWhitespaceShifts(s, s[..|s| - 1], |t|);
      assert s[..|s| - 1][..|t|] == s[..|t|];
      t
  }

  lemma TrailingWhitespaceShifts(s: string, init: string, m: nat)
    requires m < |s| && IsJsWhitespace(s[|s| - 1]) && init == s[..|s| - 1]
    requires forall k :: m <= k < |init| ==> IsJsWhitespace(init[k])
    ensures forall k :: m <= k < |s| ==> IsJsWhitespace(s[k])
  {
    forall k | m <= k < |init| ensures IsJsWhitespace(s[k]) {
      assert s[k] == init[k];
    }
  }

  /** `s.trim()`: the text between the leading and the trailing white space. */
  function Trim(s: string): (r: string)
    ensures |r| <= |s|
    ensures r == [] || (!IsJsWhitespace(r[0]) && !IsJsWhitespace(r[|r| - 1]))
    ensures AllWhitespace(s) <==> r == []
  {
    var t := TrimStart(s);
    var r := TrimEnd(t);
    assert r != [] ==> r[0] == t[0];
    TrimEmptyOnlyIfBlank(s);
    r
  }

  /** The trimmed text is a stretch of `s` with only white space before and after it. */
  lemma TrimKeepsMiddle(s: string)
    ensures exists k :: 0 <= k <= |s| - |Trim(s)| && Trim(s) == s[k..k + |Trim(s)|]
                        && AllWhitespace(s[..k]) && AllWhitespace(s[k + |Trim(s)|..])
  {
    var t := TrimStart(s);
    var r := TrimEnd(t);
    assert Trim(s) == r;
    MiddleOfSuffix(s, t, r);
    var k := |s| - |t|;
    assert r == s[k..k + |r|] && AllWhitespace(s[..k]) && AllWhitespace(s[k + |r|..]);
  }

  /** A prefix `r` of a suffix `t` of `s`, with white space cut off on both sides. */
  lemma MiddleOfSuffix(s: string, t: string, r: string)
    requires |t| <= |s| && t == s[|s| - |t|..] && |r| <= |t| && r == t[..|r|]
    requires forall j :: 0 <= j < |s| - |t| ==> IsJsWhitespace(s[j])
    requires forall j :: |r| <= j < |t| ==> IsJsWhitespace(t[j])
    ensures r == s[|s| - |t|..|s| - |t| + |r|]
    ensures AllWhitespace(s[..|s| - |t|])
    ensures AllWhitespace(s[|s| - |t| + |r|..])
  {
    var k := |s| - |t|;
    assert s[k..k + |r|] == t[..|r|];
    var head := s[..k];
    forall j | 0 <= j < |head| ensures IsJsWhitespace(head[j]) {
      assert head[j] == s[j];
    }
    var tail := t[|r|..];
    forall j | 0 <= j < |tail| ensures IsJsWhitespace(tail[j]) {
      assert tail[j] == t[|r| + j];
    }
    assert s[k + |r|..] == tail;
  }

  lemma TrimEmptyOnlyIfBlank(s: string)
    ensures AllWhitespace(s) <==> TrimEnd(TrimStart(s)) == []
  {
    if !AllWhitespace(s) {
      var k :| 0 <= k < |s| && !IsJsWhitespace(s[k]);
      NonBlankKeepsText(s, k);
    }
  }

  lemma NonBlankKeepsText(s: string, k: nat)
    requires k < |s| && !IsJsWhitespace(s[k])
    ensures TrimEnd(TrimStart(s)) != []
  {
    var t := TrimStart(s);
    var d := |s| - |t|;
    assert t[k - d] == s[k];
  }

  predicate IsDigit(c: char) {
    '0' <= c <= '9'
  }

  predicate AllDigits(s: string) {
    forall k :: 0 <= k < |s| ==> IsDigit(s[k])
  }

  function DigitValue(c: char): int {
    c as int - '0' as int
  }

  /** The number a string of decimal digits denotes (leading zeros allowed). */
  function DecimalValue(s: string): nat
    requires AllDigits(s)
  {
    if s == [] then 0
    else DecimalValue(s[..|s| - 1]) * 10 + DigitValue(s[|s| - 1]) as nat
  }

  /** `String(n)` for a natural number: its decimal digits without leading zeros. */
  function DecimalString(n: nat): (r: string)
    ensures |r| >= 1 && AllDigits(r)
    ensures |r| > 1 ==> r[0] != '0'
    decreases n
  {
    if n < 10 then [('0' as int + n) as char]
    else DecimalString(n / 10) + [('0' as int + n % 10) as char]
  }

  /** Reading back the text of a number gives the number. */
  lemma {:induction false} DecimalRoundTrip(n: nat)
    ensures DecimalValue(DecimalString(n)) == n
    decreases n
  {
    var r := DecimalString(n);
    if n >= 10 {
      DecimalRoundTrip(n / 10);
      assert r[..|r| - 1] == DecimalString(n / 10);
    }
  }
}
