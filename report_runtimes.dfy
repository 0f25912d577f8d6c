/**
 * The runtime report of `bin/report_runtimes.py`: completion lines of an HLS
 * tool log are matched against thirteen expected steps, the runtime of each
 * step is pulled out of the line, the per-design maps are aggregated, and the
 * report and CSV rows are produced in ascending design-name order.
 *
 * Runtimes are exact reals.  A log file is given as its lines, or `None` when
 * reading it failed.
 */
module ReportRuntimes {
  import opened Wrappers

  type Steps = map<string, real>

  /** The thirteen steps, in the order the script lists them. */
  const ExpectedSteps: seq<string> := [
    "analyze", "compile", "libraries", "assembly", "loops",
    "memories", "cluster", "architect", "allocate", "schedule",
    "dpfsm", "instance", "extract"
  ]

  /** The case-sensitive marker of a completion line. */
  const Marker: string := "Info: Completed transformation"

  // ---------------------------------------------------------------------
  // Characters and substrings
  // ---------------------------------------------------------------------

  predicate IsDigit(c: char) { '0' <= c <= '9' }

  /** The class `[\d.]` of the runtime token. */
  predicate IsNumChar(c: char) { IsDigit(c) || c == '.' }

  /** The characters `\s` matches in a `str` pattern. */
  predicate IsSpace(c: char) {
    c == ' ' || ('\t' <= c <= '\r') || ((28 as char) <= c <= (31 as char))
    || c == (0x85 as char) || c == (0xA0 as char) || c == (0x1680 as char)
    || ((0x2000 as char) <= c <= (0x200A as char)) || c == (0x2028 as char)
    || c == (0x2029 as char) || c == (0x202F as char) || c == (0x205F as char)
    || c == (0x3000 as char)
  }

  function LowerChar(c: char): char {
    if 'A' <= c <= 'Z' then (c as int + 32) as char else c
  }

  /** `str.lower()` on the ASCII letters. */
  function Lower(s: string): (r: string)
    ensures |r| == |s| && forall k :: 0 <= k < |s| ==> r[k] == LowerChar(s[k])
  {
    seq(|s|, k requires 0 <= k < |s| => LowerChar(s[k]))
  }

  predicate IsPrefix(pat: string, s: string) {
    |pat| <= |s| && s[..|pat|] == pat
  }

  /** Python's `pat in s`. */
  predicate Contains(s: string, pat: string)
    decreases |s|
  {
    IsPrefix(pat, s) || (|s| > 0 && Contains(s[1..], pat))
  }

  /** A string containing `pat` at position |a| contains it. */
  lemma {:induction false} ContainsMiddle(a: string, pat: string, b: string)
    ensures Contains(a + pat + b, pat)
  {
    if |a| == 0 {
      assert (a + pat + b)[..|pat|] == pat;
    } else {
      assert (a + pat + b)[1..] == a[1..] + pat + b;
      ContainsMiddle(a[1..], pat, b);
    }
  }

  /** The length of the run of characters satisfying p that starts at i. */
  function Span(s: string, i: nat, p: char -> bool): (n: nat)
    requires i <= |s|
    ensures i + n <= |s|
    decreases |s| - i
  {
    if i < |s| && p(s[i]) then 1 + Span(s, i + 1, p) else 0
  }

  /** A run is maximal: every character in it satisfies p and the next one does not. */
  lemma {:induction false} SpanSpec(s: string, i: nat, p: char -> bool)
    requires i <= |s|
    ensures forall k :: i <= k < i + Span(s, i, p) ==> p(s[k])
    ensures i + Span(s, i, p) < |s| ==> !p(s[i + Span(s, i, p)])
    decreases |s| - i
  {
    if i < |s| && p(s[i]) {
      SpanSpec(s, i + 1, p);
    }
  }

  /** A maximal run from i to j has length j - i. */
  lemma {:induction false} SpanExact(s: string, i: nat, j: nat, p: char -> bool)
    requires i <= j <= |s|
    requires forall k :: i <= k < j ==> p(s[k])
    requires j == |s| || !p(s[j])
    ensures Span(s, i, p) == j - i
    decreases j - i
  {
    if i < j {
      SpanExact(s, i + 1, j, p);
    }
  }

  // ---------------------------------------------------------------------
  // parse_runtime_from_line
  // ---------------------------------------------------------------------

  /**
   * The match of `elapsed time\s+([\d.]+)\s+seconds?` (ignoring case) that
   * starts at p, as the captured token.  `\s` and `[\d.]` share no
   * character, so every run is matched in full.
   */
  predicate ElapsedAt(line: string, p: nat) {
    p + 12 <= |line| && Lower(line[p..p + 12]) == "elapsed time"
  }

  function MatchAt(line: string, p: nat): Option<string> {
    if !ElapsedAt(line, p) then None
    else
      var q1 := p + 12;
      var q2 := q1 + Span(line, q1, IsSpace);
      var q3 := q2 + Span(line, q2, IsNumChar);
      var q4 := q3 + Span(line, q3, IsSpace);
      if q2 == q1 || q3 == q2 || q4 == q3 || q4 + 6 > |line| || Lower(line[q4..q4 + 6]) != "second" then None
      else Some(line[q2..q3])
  }

  /** `re.search`: the leftmost position at or after p where the pattern matches. */
  function Search(line: string, p: nat): (r: Option<nat>)
    ensures r.Some? ==> p <= r.value <= |line| && MatchAt(line, r.value).Some?
    ensures r.Some? ==> forall q :: p <= q < r.value ==> MatchAt(line, q).None?
    ensures r.None? ==> forall q :: p <= q ==> MatchAt(line, q).None?
    decreases |line| + 1 - p
  {
    if p > |line| then None
    else if MatchAt(line, p).Some? then Some(p)
    else Search(line, p + 1)
  }

  function CountDots(s: string): nat {
    if |s| == 0 then 0 else (if s[0] == '.' then 1 else 0) + CountDots(s[1..])
  }

  /** The index of the first '.' of s, or |s| when there is none. */
  function FirstDot(s: string): (d: nat)
    ensures d <= |s|
  {
    if |s| == 0 || s[0] == '.' then 0 else 1 + FirstDot(s[1..])
  }

  function DigitValue(c: char): nat {
    if IsDigit(c) then c as int - '0' as int else 0
  }

  /** The value of a string of decimal digits. */
  function DigitsValue(s: string): nat {
    if |s| == 0 then 0 else 10 * DigitsValue(s[..|s| - 1]) + DigitValue(s[|s| - 1])
  }

  function Pow10(n: nat): (r: nat)
    ensures r >= 1
  {
    if n == 0 then 1 else 10 * Pow10(n - 1)
  }

  /** The value of the number written I.F with digit strings I and F. */
  function DecimalValue(ip: string, fp: string): real {
    DigitsValue(ip) as real + DigitsValue(fp) as real / Pow10(|fp|) as real
  }

  /** Python's `float()` on a token of digits and dots, or None where it raises. */
  function ParseDecimal(tok: string): Option<real> {
    var d := FirstDot(tok);
    if d == |tok| then
      if |tok| == 0 then None else Some(DigitsValue(tok) as real)
    else
      var ip, fp := tok[..d], tok[d + 1..];
      if FirstDot(fp) < |fp| || |ip| + |fp| == 0 then None
      else Some(DecimalValue(ip, fp))
  }

  /**
   * `parse_runtime_from_line`: a runtime is read only from a match of the
   * pattern, and a line the pattern matches nowhere gives None.
   */
  /** The pattern matches at p and at no position before it. */
  predicate FirstMatchAt(line: string, p: nat) {
    p <= |line| && MatchAt(line, p).Some? && forall q: nat :: q < p ==> MatchAt(line, q).None?
  }

  function ParseRuntimeFromLine(line: string): (r: Option<real>)
    ensures r.Some? ==> exists p: nat :: p <= |line| && MatchAt(line, p).Some? && ParseDecimal(MatchAt(line, p).value) == r
    ensures (forall p: nat :: p <= |line| ==> MatchAt(line, p).None?) ==> r.None?
    ensures forall p: nat :: FirstMatchAt(line, p) ==> r == ParseDecimal(MatchAt(line, p).value)
  {
    match Search(line, 0)
    case None => None
    case Some(p) => ParseDecimal(MatchAt(line, p).value)
  }

  lemma {:induction false} FirstDotCount(s: string)
    ensures FirstDot(s) == |s| <==> CountDots(s) == 0
    ensures FirstDot(s) < |s| ==> s[FirstDot(s)] == '.' && CountDots(s) == 1 + CountDots(s[FirstDot(s) + 1..])
  {
    if |s| > 0 && s[0] != '.' {
      FirstDotCount(s[1..]);
      if FirstDot(s) < |s| {
        assert s[FirstDot(s) + 1..] == s[1..][FirstDot(s[1..]) + 1..];
      }
    }
  }

  /**
   * A token is a valid number exactly when it has at most one dot and at
   * least one digit: "1.2.3" and "." yield None instead of an error.
   */
  lemma ParseDecimalValid(tok: string)
    ensures ParseDecimal(tok).Some? <==> CountDots(tok) <= 1 && CountDots(tok) < |tok|
  {
    var d := FirstDot(tok);
    FirstDotCount(tok);
    if d < |tok| {
      FirstDotCount(tok[d + 1..]);
      CountDotsAtMost(tok[d + 1..]);
    }
  }

  lemma {:induction false} CountDotsAtMost(s: string)
    ensures CountDots(s) <= |s|
  {
    if |s| > 0 { CountDotsAtMost(s[1..]); }
  }

  /** Appending a digit multiplies the value by ten and adds the digit. */
  lemma {:induction false} DigitsValueAppend(a: string, c: char)
    ensures DigitsValue(a + [c]) == 10 * DigitsValue(a) + DigitValue(c)
  {
    assert (a + [c])[..|a|] == a;
  }

  /** The decimal digits of n, most significant first ("0" for 0). */
  function NatToDecimal(n: nat): (s: string)
    ensures |s| > 0 && forall k :: 0 <= k < |s| ==> IsDigit(s[k])
  {
    var last := ['0' + ((n % 10) as char)];
    if n < 10 then last else NatToDecimal(n / 10) + last
  }

  /** Reading back the digits of n gives n. */
  lemma {:induction false} NatToDecimalValue(n: nat)
    ensures DigitsValue(NatToDecimal(n)) == n
  {
    var c := '0' + ((n % 10) as char);
    if n >= 10 {
      NatToDecimalValue(n / 10);
      DigitsValueAppend(NatToDecimal(n / 10), c);
    } else {
      DigitsValueAppend([], c);
      assert [] + [c] == [c];
    }
  }

  /** A digit string has no dot. */
  lemma {:induction false} NoDots(s: string)
    requires forall k :: 0 <= k < |s| ==> IsDigit(s[k])
    ensures FirstDot(s) == |s| && CountDots(s) == 0
  {
    if |s| > 0 { NoDots(s[1..]); }
  }

  /** "I.F" with digit strings I and F reads as I + F / 10^|F|. */
  lemma ParseDecimalPoint(ip: string, fp: string)
    requires forall k :: 0 <= k < |ip| ==> IsDigit(ip[k])
    requires forall k :: 0 <= k < |fp| ==> IsDigit(fp[k])
    requires |ip| + |fp| > 0
    ensures ParseDecimal(ip + "." + fp) == Some(DecimalValue(ip, fp))
  {
    var tok := ip + "." + fp;
    NoDots(ip);
    NoDots(fp);
    FirstDotOfJoin(ip, fp);
    assert tok[..|ip|] == ip && tok[|ip| + 1..] == fp;
  }

  lemma {:induction false} FirstDotOfJoin(ip: string, fp: string)
    requires FirstDot(ip) == |ip|
    ensures FirstDot(ip + "." + fp) == |ip|
  {
    if |ip| > 0 {
      assert (ip + "." + fp)[1..] == ip[1..] + "." + fp;
      FirstDotOfJoin(ip[1..], fp);
    }
  }

  /** A whole number written in decimal reads back as itself. */
  lemma ParseDecimalNat(n: nat)
    ensures ParseDecimal(NatToDecimal(n)) == Some(n as real)
  {
    NoDots(NatToDecimal(n));
    NatToDecimalValue(n);
  }

  /**
   * The runtime of a line "...elapsed time TOK seconds..." is TOK read as a
   * number, provided the pattern does not already match earlier in the line.
   */
  lemma RuntimeOfLine(pre: string, tok: string, post: string)
    requires |tok| > 0 && forall k :: 0 <= k < |tok| ==> IsNumChar(tok[k])
    requires forall q :: 0 <= q < |pre| ==> MatchAt(pre + "elapsed time " + tok + " seconds" + post, q).None?
    ensures ParseRuntimeFromLine(pre + "elapsed time " + tok + " seconds" + post) == ParseDecimal(tok)
  {
    var line := pre + "elapsed time " + tok + " seconds" + post;
    MatchOfLine(pre, tok, post);
    assert Search(line, 0) == Some(|pre|);
  }

  lemma MatchOfLine(pre: string, tok: string, post: string)
    requires |tok| > 0 && forall k :: 0 <= k < |tok| ==> IsNumChar(tok[k])
    ensures MatchAt(pre + "elapsed time " + tok + " seconds" + post, |pre|) == Some(tok)
  {
    var line := pre + "elapsed time " + tok + " seconds" + post;
    LineShape(pre, tok, post);
    MatchOfShape(line, |pre|, tok);
  }

  /** Where the parts of a runtime line sit. */
  lemma LineShape(pre: string, tok: string, post: string)
    ensures var line := pre + "elapsed time " + tok + " seconds" + post;
      var p := |pre|;
      && line[p..p + 12] == "elapsed time" && line[p + 12] == ' '
      && line[p + 13..p + 13 + |tok|] == tok
      && line[p + 13 + |tok|] == ' ' && line[p + 14 + |tok|..p + 20 + |tok|] == "second"
  {
  }

  /** The match at p of a line shaped "elapsed time TOK second...". */
  lemma MatchOfShape(line: string, p: nat, tok: string)
    requires |tok| > 0 && forall k :: 0 <= k < |tok| ==> IsNumChar(tok[k])
    requires p + 20 + |tok| <= |line|
    requires line[p..p + 12] == "elapsed time" && line[p + 12] == ' '
    requires line[p + 13..p + 13 + |tok|] == tok
    requires line[p + 13 + |tok|] == ' ' && line[p + 14 + |tok|..p + 20 + |tok|] == "second"
    ensures MatchAt(line, p) == Some(tok)
  {
    var q1, q2, q3 := p + 12, p + 13, p + 13 + |tok|;
    ElapsedShape(line, p);
    assert line[q2] == tok[0];
    SpanExact(line, q1, q2, IsSpace);
    SpanOfToken(line, q2, tok);
    SecondShape(line, q3 + 1);
    SpanExact(line, q3, q3 + 1, IsSpace);
  }

  lemma ElapsedShape(line: string, p: nat)
    requires p + 12 <= |line| && line[p..p + 12] == "elapsed time"
    ensures ElapsedAt(line, p)
  {
    assert Lower("elapsed time") == "elapsed time";
  }

  lemma SecondShape(line: string, q: nat)
    requires q + 6 <= |line| && line[q..q + 6] == "second"
    ensures line[q] == 's' && Lower(line[q..q + 6]) == "second"
  {
    assert Lower("second") == "second";
  }

  /** A run of number characters followed by a space spans exactly the run. */
  lemma SpanOfToken(line: string, q: nat, tok: string)
    requires forall k :: 0 <= k < |tok| ==> IsNumChar(tok[k])
    requires q + |tok| < |line| && line[q..q + |tok|] == tok && line[q + |tok|] == ' '
    ensures Span(line, q, IsNumChar) == |tok|
  {
    forall k | q <= k < q + |tok| ensures IsNumChar(line[k]) {
      assert line[k] == tok[k - q];
    }
    SpanExact(line, q, q + |tok|, IsNumChar);
  }

  /**
   * The match in its general form: "elapsed time" in any case, runs of
   * whitespace of any length, and "second" in any case, with or without
   * the "s" (whatever follows is `post`).
   */
  lemma MatchOfParts(pre: string, kw: string, ws1: string, tok: string, ws2: string, sec: string, post: string)
    requires Lower(kw) == "elapsed time" && Lower(sec) == "second"
    requires |ws1| > 0 && forall k :: 0 <= k < |ws1| ==> IsSpace(ws1[k])
    requires |ws2| > 0 && forall k :: 0 <= k < |ws2| ==> IsSpace(ws2[k])
    requires |tok| > 0 && forall k :: 0 <= k < |tok| ==> IsNumChar(tok[k])
    ensures MatchAt(pre + kw + ws1 + tok + ws2 + sec + post, |pre|) == Some(tok)
  {
    var l1 := pre + kw;
    var l2 := l1 + ws1;
    var l3 := l2 + tok;
    var l4 := l3 + ws2;
    var l5 := l4 + sec;
    var line := l5 + post;
    Appended(pre, kw, line);
    Appended(l1, ws1, line);
    Appended(l2, tok, line);
    Appended(l3, ws2, line);
    Appended(l4, sec, line);
    MatchOfRuns(line, |pre|, kw, ws1, tok, ws2, sec);
  }

  /** A run of characters satisfying p, found at q, satisfies p in place. */
  lemma RunAt(line: string, q: nat, w: string, p: char -> bool)
    requires q + |w| <= |line| && line[q..q + |w|] == w
    requires forall k :: 0 <= k < |w| ==> p(w[k])
    ensures forall k :: q <= k < q + |w| ==> p(line[k])
  {
    forall k | q <= k < q + |w| ensures p(line[k]) {
      assert line[k] == w[k - q];
    }
  }

  /** b appended to a sits at |a| in every extension of a + b. */
  lemma Appended(a: string, b: string, s: string)
    requires a + b <= s
    ensures s[|a|..|a| + |b|] == b
  {
    assert s[|a|..|a| + |b|] == (a + b)[|a|..];
  }

  /** The match at p of a line made of the given runs from p on. */
  lemma MatchOfRuns(line: string, p: nat, kw: string, ws1: string, tok: string, ws2: string, sec: string)
    requires Lower(kw) == "elapsed time" && Lower(sec) == "second"
    requires |ws1| > 0 && forall k :: 0 <= k < |ws1| ==> IsSpace(ws1[k])
    requires |ws2| > 0 && forall k :: 0 <= k < |ws2| ==> IsSpace(ws2[k])
    requires |tok| > 0 && forall k :: 0 <= k < |tok| ==> IsNumChar(tok[k])
    requires p + 18 + |ws1| + |tok| + |ws2| <= |line|
    requires line[p..p + 12] == kw
    requires line[p + 12..p + 12 + |ws1|] == ws1
    requires line[p + 12 + |ws1|..p + 12 + |ws1| + |tok|] == tok
    requires line[p + 12 + |ws1| + |tok|..p + 12 + |ws1| + |tok| + |ws2|] == ws2
    requires line[p + 12 + |ws1| + |tok| + |ws2|..p + 18 + |ws1| + |tok| + |ws2|] == sec
    ensures MatchAt(line, p) == Some(tok)
  {
    var q1 := p + 12;
    var q2 := q1 + |ws1|;
    var q3 := q2 + |tok|;
    var q4 := q3 + |ws2|;
    RunAt(line, q1, ws1, IsSpace);
    RunAt(line, q2, tok, IsNumChar);
    RunAt(line, q3, ws2, IsSpace);
    assert line[q2] == tok[0];
    assert line[q3] == ws2[0];
    assert LowerChar(line[q4]) == Lower(sec)[0] == 's';
    SpanExact(line, q1, q2, IsSpace);
    SpanExact(line, q2, q3, IsNumChar);
    SpanExact(line, q3, q4, IsSpace);
  }

  /**
   * A line whose first match has that general form yields its token read
   * as a number.
   */
  lemma RuntimeOfParts(pre: string, kw: string, ws1: string, tok: string, ws2: string, sec: string, post: string)
    requires Lower(kw) == "elapsed time" && Lower(sec) == "second"
    requires |ws1| > 0 && forall k :: 0 <= k < |ws1| ==> IsSpace(ws1[k])
    requires |ws2| > 0 && forall k :: 0 <= k < |ws2| ==> IsSpace(ws2[k])
    requires |tok| > 0 && forall k :: 0 <= k < |tok| ==> IsNumChar(tok[k])
    requires forall q :: 0 <= q < |pre| ==> MatchAt(pre + kw + ws1 + tok + ws2 + sec + post, q).None?
    ensures ParseRuntimeFromLine(pre + kw + ws1 + tok + ws2 + sec + post) == ParseDecimal(tok)
  {
    MatchOfParts(pre, kw, ws1, tok, ws2, sec, post);
  }

  /** A line holding "elapsed time I.F seconds", with I and F digit strings, yields I.F. */
  lemma DecimalRuntime(ip: string, fp: string)
    requires forall k :: 0 <= k < |ip| ==> IsDigit(ip[k])
    requires forall k :: 0 <= k < |fp| ==> IsDigit(fp[k])
    requires |ip| + |fp| > 0
    ensures ParseRuntimeFromLine("" + "elapsed time " + (ip + "." + fp) + " seconds" + "") == Some(DecimalValue(ip, fp))
  {
    var tok := ip + "." + fp;
    forall k | 0 <= k < |tok| ensures IsNumChar(tok[k]) {
      if k < |ip| { assert tok[k] == ip[k]; }
      else if k > |ip| { assert tok[k] == fp[k - |ip| - 1]; }
    }
    RuntimeOfLine("", tok, "");
    ParseDecimalPoint(ip, fp);
  }

  /** The script's own example: "elapsed time 15.95 seconds" gives 15.95. */
  lemma RuntimeExample()
    ensures ParseRuntimeFromLine("elapsed time 15.95 seconds") == Some(15.95)
  {
    ExampleLine();
    ExampleDigits();
    DecimalRuntime("15", "95");
    DigitsExample();
  }

  lemma ExampleLine()
    ensures "elapsed time 15.95 seconds" == "" + "elapsed time " + ("15" + "." + "95") + " seconds" + ""
  {
  }

  lemma ExampleDigits()
    ensures forall k :: 0 <= k < |"15"| ==> IsDigit("15"[k])
    ensures forall k :: 0 <= k < |"95"| ==> IsDigit("95"[k])
  {
  }

  lemma DigitsExample()
    ensures DecimalValue("15", "95") == 15.95
  {
    assert DigitsValue("15") == 15 by { assert "15"[..1] == "1"; }
    assert DigitsValue("95") == 95 by { assert "95"[..1] == "9"; }
    assert Pow10(2) == 100;
  }

  /** Tokens that `float()` rejects give no runtime. */
  lemma MalformedTokens()
    ensures ParseDecimal("1.2.3") == None && ParseDecimal(".") == None
  {
    assert "1.2.3"[1..] == ".2.3";
    assert "1.2.3"[2..] == "2.3";
    assert "2.3"[1..] == ".3";
    assert "."[1..] == "";
  }

  /** A line without "elapsed time" (in any case) has no runtime. */
  lemma NoRuntimeWithoutPattern(line: string)
    requires forall p: nat :: !ElapsedAt(line, p)
    ensures ParseRuntimeFromLine(line) == None
  {
  }

  // ---------------------------------------------------------------------
  // parse_hls_runtimes
  // ---------------------------------------------------------------------

  /** The first step, in list order, that occurs in the lowered line. */
  function FirstStep(low: string, steps: seq<string>): (r: Option<nat>)
    ensures r.Some? ==> r.value < |steps| && Contains(low, steps[r.value])
    ensures r.Some? ==> forall k :: 0 <= k < r.value ==> !Contains(low, steps[k])
    ensures r.None? ==> forall k :: 0 <= k < |steps| ==> !Contains(low, steps[k])
  {
    if |steps| == 0 then None
    else if Contains(low, steps[0]) then Some(0)
    else match FirstStep(low, steps[1..])
      case None => None
      case Some(k) => Some(k + 1)
  }

  /**
   * What one log line contributes: the step and its runtime, when the line
   * carries the marker, names an expected step and has a runtime.
   */
  function LineEntry(line: string): (r: Option<(string, real)>)
    ensures r.Some? ==> Contains(line, Marker) && r.value.0 in ExpectedSteps && Contains(Lower(line), r.value.0)
    ensures r.Some? ==> ParseRuntimeFromLine(line) == Some(r.value.1)
    ensures ParseRuntimeFromLine(line).None? ==> r.None?
  {
    if !Contains(line, Marker) then None
    else match FirstStep(Lower(line), ExpectedSteps)
      case None => None
      case Some(k) =>
        match ParseRuntimeFromLine(line)
        case None => None
        case Some(v) => Some((ExpectedSteps[k], v))
  }

  /** The step map after the given lines: each entry overwrites the last. */
  function StepRuntimes(lines: seq<string>): (r: Steps)
    ensures forall s :: s in r ==> s in ExpectedSteps
    decreases |lines|
  {
    if |lines| == 0 then map[]
    else
      var m := StepRuntimes(lines[..|lines| - 1]);
      match LineEntry(lines[|lines| - 1])
      case None => m
      case Some(e) => m[e.0 := e.1]
  }

  /**
   * The body of the line loop of `parse_hls_runtimes`: the step list is
   * searched in order and the search stops at the first step found, whether
   * or not the line has a runtime.
   */
  method ScanLine(line: string) returns (entry: Option<(string, real)>)
    ensures entry == LineEntry(line)
  {
    entry := None;
    if Contains(line, Marker) {
      var low := Lower(line);
      var j := 0;
      while j < |ExpectedSteps|
        invariant 0 <= j <= |ExpectedSteps|
        invariant forall k :: 0 <= k < j ==> !Contains(low, ExpectedSteps[k])
      {
        if Contains(low, ExpectedSteps[j]) {
          var runtime := ParseRuntimeFromLine(line);
          if runtime.Some? {
            entry := Some((ExpectedSteps[j], runtime.value));
          }
          EntryFirstStep(line, j);
          return;
        }
        j := j + 1;
      }
    }
  }

  /** `parse_hls_runtimes`, on the lines of the file or None when it could not be read. */
  method ParseHlsRuntimes(log: Option<seq<string>>) returns (steps: Steps)
    ensures log.None? ==> steps == map[]
    ensures log.Some? ==> steps == StepRuntimes(log.value)
  {
    steps := map[];
    if log.None? {
      return;
    }
    var lines := log.value;
    var i := 0;
    while i < |lines|
      invariant 0 <= i <= |lines|
      invariant steps == StepRuntimes(lines[..i])
    {
      assert lines[..i + 1][..i] == lines[..i];
      var entry := ScanLine(lines[i]);
      if entry.Some? {
        steps := steps[entry.value.0 := entry.value.1];
      }
      i := i + 1;
    }
    assert lines[..|lines|] == lines;
  }

  /** Only expected steps ever become keys. */
  lemma {:induction false} StepKeys(lines: seq<string>)
    ensures forall s :: s in StepRuntimes(lines) ==> s in ExpectedSteps
    decreases |lines|
  {
    if |lines| > 0 {
      StepKeys(lines[..|lines| - 1]);
    }
  }

  /** Only completion lines contribute an entry. */
  lemma EntryNeedsMarker(line: string)
    requires !Contains(line, Marker)
    ensures LineEntry(line) == None
  {
  }

  /**
   * Only the first expected step found in the line is considered: when the
   * line has no runtime, it contributes nothing even if a later step also
   * occurs in it.
   */
  lemma EntryFirstStep(line: string, k: nat)
    requires Contains(line, Marker) && k < |ExpectedSteps| && Contains(Lower(line), ExpectedSteps[k])
    requires forall j :: 0 <= j < k ==> !Contains(Lower(line), ExpectedSteps[j])
    ensures ParseRuntimeFromLine(line).None? ==> LineEntry(line) == None
    ensures ParseRuntimeFromLine(line).Some? ==> LineEntry(line) == Some((ExpectedSteps[k], ParseRuntimeFromLine(line).value))
  {
    var f := FirstStep(Lower(line), ExpectedSteps);
    assert f == Some(k) by {
      if f.None? {
      } else if f.value < k {
      } else if f.value > k {
      }
    }
  }

  /** Last write wins: the runtime kept for a step is that of its last entry. */
  lemma {:induction false} LastWriteWins(lines: seq<string>, i: nat, s: string, v: real)
    requires i < |lines| && LineEntry(lines[i]) == Some((s, v))
    requires forall j :: i < j < |lines| && LineEntry(lines[j]).Some? ==> LineEntry(lines[j]).value.0 != s
    ensures s in StepRuntimes(lines) && StepRuntimes(lines)[s] == v
    decreases |lines|
  {
    var init := lines[..|lines| - 1];
    if i < |lines| - 1 {
      forall j | i < j < |init| && LineEntry(init[j]).Some? ensures LineEntry(init[j]).value.0 != s {
        assert init[j] == lines[j];
      }
      assert init[i] == lines[i];
      LastWriteWins(init, i, s, v);
      StepRuntimesSnoc(lines);
    } else {
      StepRuntimesSnoc(lines);
    }
  }

  /** The map after one more line: that line's entry, if any, over the map before. */
  lemma StepRuntimesSnoc(lines: seq<string>)
    requires |lines| > 0
    ensures var m := StepRuntimes(lines[..|lines| - 1]);
      var e := LineEntry(lines[|lines| - 1]);
      StepRuntimes(lines) == if e.Some? then m[e.value.0 := e.value.1] else m
  {
  }

  /** A step some line contributed an entry for is present. */
  lemma {:induction false} StepPresentIf(lines: seq<string>, j: nat)
    requires j < |lines| && LineEntry(lines[j]).Some?
    ensures LineEntry(lines[j]).value.0 in StepRuntimes(lines)
    decreases |lines|
  {
    if j < |lines| - 1 {
      var init := lines[..|lines| - 1];
      assert init[j] == lines[j];
      StepPresentIf(init, j);
    }
  }

  /** A present step was contributed by some line. */
  lemma {:induction false} StepPresentOnlyIf(lines: seq<string>, s: string)
    requires s in StepRuntimes(lines)
    ensures exists j :: 0 <= j < |lines| && LineEntry(lines[j]) == Some((s, StepRuntimes(lines)[s]))
    decreases |lines|
  {
    var init := lines[..|lines| - 1];
    var last := |lines| - 1;
    var e := LineEntry(lines[last]);
    var m := StepRuntimes(init);
    assert StepRuntimes(lines) == if e.Some? then m[e.value.0 := e.value.1] else m;
    if e.Some? && e.value.0 == s {
      assert e == Some((s, StepRuntimes(lines)[s]));
      assert LineEntry(lines[last]) == Some((s, StepRuntimes(lines)[s]));
    } else {
      assert s in m && StepRuntimes(lines)[s] == m[s];
      StepPresentOnlyIf(init, s);
      var j :| 0 <= j < |init| && LineEntry(init[j]) == Some((s, m[s]));
      assert lines[j] == init[j];
      assert LineEntry(lines[j]) == Some((s, StepRuntimes(lines)[s]));
    }
  }

  predicate IsSubsequence(a: seq<string>, b: seq<string>)
    decreases |b|
  {
    |a| == 0 || (|b| > 0 && (if a[0] == b[0] then IsSubsequence(a[1..], b[1..]) else IsSubsequence(a, b[1..])))
  }

  /** The steps of the list that the map lacks, in list order. */
  function MissingFrom(steps: seq<string>, m: Steps): (r: seq<string>)
    ensures forall s :: s in r <==> s in steps && s !in m
    ensures IsSubsequence(r, steps)
  {
    if |steps| == 0 then []
    else if steps[0] in m then
      SubsequenceSkip(MissingFrom(steps[1..], m), steps);
      MissingFrom(steps[1..], m)
    else
      var rest := MissingFrom(steps[1..], m);
      assert ([steps[0]] + rest)[1..] == rest;
      [steps[0]] + rest
  }

  lemma {:induction false} SubsequenceSkip(a: seq<string>, b: seq<string>)
    requires |b| > 0 && IsSubsequence(a, b[1..])
    ensures IsSubsequence(a, b)
    decreases |b|, 0
  {
    if |a| > 0 && a[0] == b[0] {
      SubsequenceTail(a, b[1..]);
    }
  }

  lemma {:induction false} SubsequenceTail(a: seq<string>, b: seq<string>)
    requires |a| > 0 && IsSubsequence(a, b)
    ensures IsSubsequence(a[1..], b)
    decreases |b|, 1
  {
    assert |b| > 0;
    if a[0] != b[0] {
      SubsequenceTail(a, b[1..]);
      SubsequenceSkip(a[1..], b);
    } else if |a| > 1 {
      SubsequenceSkip(a[1..], b);
    }
  }

  /** The missing steps the script warns about. */
  function MissingSteps(m: Steps): (r: seq<string>)
    ensures forall s :: s in r <==> s in ExpectedSteps && s !in m
    ensures IsSubsequence(r, ExpectedSteps)
  {
    MissingFrom(ExpectedSteps, m)
  }

  // ---------------------------------------------------------------------
  // main: aggregation per design
  // ---------------------------------------------------------------------

  /** The design map as a list in insertion order, as a Python dict keeps it. */
  type Designs = seq<(string, Steps)>

  predicate NamesDistinct(ds: Designs) {
    forall i, j :: 0 <= i < j < |ds| ==> ds[i].0 != ds[j].0
  }

  /** `design_runtimes[name] = steps`: replaces in place or appends. */
  function Put(ds: Designs, name: string, steps: Steps): (r: Designs)
    requires NamesDistinct(ds)
    ensures NamesDistinct(r)
    ensures forall i :: 0 <= i < |ds| && ds[i].0 == name ==> r == ds[i := (name, steps)]
    ensures (forall i :: 0 <= i < |ds| ==> ds[i].0 != name) ==> r == ds + [(name, steps)]
    ensures forall e :: e in r ==> e == (name, steps) || e in ds
  {
    if |ds| == 0 then [(name, steps)]
    else if ds[0].0 == name then [(name, steps)] + ds[1..]
    else
      var rest := Put(ds[1..], name, steps);
      assert ds == [ds[0]] + ds[1..];
      assert forall e :: e in rest ==> e.0 != ds[0].0 by {
        forall e | e in rest && e != (name, steps) ensures e.0 != ds[0].0 {
          var j :| 0 <= j < |ds[1..]| && ds[1..][j] == e;
          assert ds[j + 1] == e;
        }
      }
      [ds[0]] + rest
  }

  /** The aggregate after the given (design, log) pairs: empty results are skipped. */
  function Collected(logs: seq<(string, Option<seq<string>>)>): (r: Designs)
    ensures NamesDistinct(r)
    decreases |logs|
  {
    if |logs| == 0 then []
    else
      var ds := Collected(logs[..|logs| - 1]);
      var last := logs[|logs| - 1];
      var steps := if last.1.None? then map[] else StepRuntimes(last.1.value);
      if |steps| == 0 then ds else Put(ds, last.0, steps)
  }

  /** The loop of `main` that fills `design_runtimes`. */
  method CollectDesigns(logs: seq<(string, Option<seq<string>>)>) returns (designs: Designs)
    ensures designs == Collected(logs)
  {
    designs := [];
    var i := 0;
    while i < |logs|
      invariant 0 <= i <= |logs|
      invariant designs == Collected(logs[..i])
    {
      assert logs[..i + 1][..i] == logs[..i];
      var steps := ParseHlsRuntimes(logs[i].1);
      if |steps| > 0 {
        designs := Put(designs, logs[i].0, steps);
      }
      i := i + 1;
    }
    assert logs[..|logs|] == logs;
  }

  /**
   * The aggregate never holds an empty result, holds each design once, and
   * holds only expected steps.
   */
  lemma {:induction false} CollectedWellFormed(logs: seq<(string, Option<seq<string>>)>)
    ensures forall e :: e in Collected(logs) ==> |e.1| > 0 && forall s :: s in e.1 ==> s in ExpectedSteps
    decreases |logs|
  {
    if |logs| > 0 {
      var init := logs[..|logs| - 1];
      CollectedWellFormed(init);
      var last := logs[|logs| - 1];
      if last.1.Some? {
        StepKeys(last.1.value);
      }
      forall e | e in Collected(logs) ensures |e.1| > 0 && forall s :: s in e.1 ==> s in ExpectedSteps {
        if e !in Collected(init) {
          assert e.1 == (if last.1.None? then map[] else StepRuntimes(last.1.value));
        }
      }
    }
  }

  // ---------------------------------------------------------------------
  // generate_report and export_to_csv
  // ---------------------------------------------------------------------

  /** Python's ordering of `str` values: lexicographic by code point. */
  predicate StrLess(a: string, b: string)
    decreases |a|
  {
    |b| > 0 && (|a| == 0 || a[0] < b[0] || (a[0] == b[0] && StrLess(a[1..], b[1..])))
  }

  lemma {:induction false} StrLessIrreflexive(a: string)
    ensures !StrLess(a, a)
  {
    if |a| > 0 { StrLessIrreflexive(a[1..]); }
  }

  lemma {:induction false} StrLessTransitive(a: string, b: string, c: string)
    requires StrLess(a, b) && StrLess(b, c)
    ensures StrLess(a, c)
    decreases |a|
  {
    if |a| > 0 && a[0] == b[0] && b[0] == c[0] {
      StrLessTransitive(a[1..], b[1..], c[1..]);
    }
  }

  lemma {:induction false} StrLessTotal(a: string, b: string)
    requires a != b
    ensures StrLess(a, b) || StrLess(b, a)
    decreases |a|
  {
    if |a| > 0 && |b| > 0 && a[0] == b[0] {
      assert a == [a[0]] + a[1..] && b == [b[0]] + b[1..];
      StrLessTotal(a[1..], b[1..]);
    }
  }

  predicate SortedByName(ds: Designs) {
    forall i, j :: 0 <= i < j < |ds| ==> StrLess(ds[i].0, ds[j].0)
  }

  /** Inserts an entry into a list sorted by name. */
  function InsertByName(ds: Designs, e: (string, Steps)): (r: Designs)
    requires SortedByName(ds) && forall d :: d in ds ==> d.0 != e.0
    ensures SortedByName(r) && multiset(r) == multiset(ds) + multiset{e}
  {
    if |ds| == 0 then [e]
    else if StrLess(e.0, ds[0].0) then
      forall j | 0 <= j < |ds| ensures StrLess(e.0, ds[j].0) {
        if j > 0 { StrLessTransitive(e.0, ds[0].0, ds[j].0); }
      }
      [e] + ds
    else
      StrLessTotal(e.0, ds[0].0);
      var rest := InsertByName(ds[1..], e);
      assert ds == [ds[0]] + ds[1..];
      forall j | 0 <= j < |rest| ensures StrLess(ds[0].0, rest[j].0) {
        assert rest[j] in multiset(rest);
      }
      [ds[0]] + rest
  }

  lemma LastNameFresh(ds: Designs, rest: Designs)
    requires NamesDistinct(ds) && |ds| > 0 && multiset(rest) == multiset(ds[..|ds| - 1])
    ensures forall d :: d in rest ==> d.0 != ds[|ds| - 1].0
  {
    forall d | d in rest ensures d.0 != ds[|ds| - 1].0 {
      assert d in multiset(ds[..|ds| - 1]);
    }
  }

  /** `sorted(design_runtimes.items())`. */
  function SortByName(ds: Designs): (r: Designs)
    requires NamesDistinct(ds)
    ensures SortedByName(r) && multiset(r) == multiset(ds)
    decreases |ds|
  {
    if |ds| == 0 then []
    else
      var init := ds[..|ds| - 1];
      var rest := SortByName(init);
      LastNameFresh(ds, rest);
      assert ds == init + [ds[|ds| - 1]];
      InsertByName(rest, ds[|ds| - 1])
  }

  /** The runtime of a design: the sum of the runtimes of its present expected steps. */
  function TotalOf(steps: seq<string>, m: Steps): real {
    if |steps| == 0 then 0.0
    else (if steps[0] in m then m[steps[0]] else 0.0) + TotalOf(steps[1..], m)
  }

  function TotalRuntime(m: Steps): real {
    TotalOf(ExpectedSteps, m)
  }

  /** The sum of the runtimes of the given keys of the map, in any order. */
  ghost function SumOver(keys: set<string>, m: Steps): real
    requires keys <= m.Keys
  {
    if keys == {} then 0.0
    else
      var k :| k in keys;
      m[k] + SumOver(keys - {k}, m)
  }

  /** `sum(step_runtimes.values())`: the sum of every runtime in the map. */
  ghost function SumValues(m: Steps): real {
    SumOver(m.Keys, m)
  }

  /** Taking out one key, whichever, leaves the sum over the others. */
  lemma {:induction false} SumOverRemove(keys: set<string>, m: Steps, k: string)
    requires keys <= m.Keys && k in keys
    ensures SumOver(keys, m) == m[k] + SumOver(keys - {k}, m)
    decreases keys
  {
    var j :| j in keys && SumOver(keys, m) == m[j] + SumOver(keys - {j}, m);
    if j != k {
      SumOverRemove(keys - {j}, m, k);
      SumOverRemove(keys - {k}, m, j);
      assert keys - {j} - {k} == keys - {k} - {j};
    }
  }

  /** The sum over the keys of a map without k is the map's sum over its other keys. */
  lemma {:induction false} SumOverRestrict(keys: set<string>, m: Steps, k: string)
    requires keys <= m.Keys && k !in keys
    ensures SumOver(keys, m - {k}) == SumOver(keys, m)
    decreases keys
  {
    if keys != {} {
      var j :| j in keys && SumOver(keys, m) == m[j] + SumOver(keys - {j}, m);
      SumOverRemove(keys, m - {k}, j);
      SumOverRestrict(keys - {j}, m, k);
    }
  }

  /** Taking out one entry, whichever, leaves the sum of the others. */
  lemma SumValuesRemove(m: Steps, k: string)
    requires k in m
    ensures SumValues(m) == m[k] + SumValues(m - {k})
  {
    SumOverRemove(m.Keys, m, k);
    assert (m - {k}).Keys == m.Keys - {k};
    SumOverRestrict(m.Keys - {k}, m, k);
  }

  /** The steps the list does not name do not count towards its total. */
  lemma {:induction false} TotalOfIgnores(steps: seq<string>, m: Steps, k: string)
    requires k !in steps
    ensures TotalOf(steps, m) == TotalOf(steps, m - {k})
    decreases |steps|
  {
    if |steps| > 0 {
      TotalOfIgnores(steps[1..], m, k);
    }
  }

  /** Over a list of distinct steps that names every key, the total is the sum of the map's values. */
  lemma {:induction false} TotalOfIsSum(steps: seq<string>, m: Steps)
    requires forall i, j :: 0 <= i < j < |steps| ==> steps[i] != steps[j]
    requires forall s :: s in m ==> s in steps
    ensures TotalOf(steps, m) == SumValues(m)
    decreases |steps|
  {
    if |steps| == 0 {
      assert m == map[];
    } else {
      var s0, rest := steps[0], steps[1..];
      assert s0 !in rest;
      TotalOfIgnores(rest, m, s0);
      TotalOfIsSum(rest, m - {s0});
      if s0 in m {
        SumValuesRemove(m, s0);
      } else {
        assert m - {s0} == m;
      }
    }
  }

  /**
   * The total `generate_report` prints, `sum(step_runtimes.values())`, is
   * the total over the expected steps when only expected steps are keys.
   */
  lemma TotalRuntimeIsSum(m: Steps)
    requires forall s :: s in m ==> s in ExpectedSteps
    ensures TotalRuntime(m) == SumValues(m)
  {
    assert forall i, j :: 0 <= i < j < |ExpectedSteps| ==> ExpectedSteps[i] != ExpectedSteps[j];
    TotalOfIsSum(ExpectedSteps, m);
  }

  /** One line of the summary: design name and total runtime. */
  datatype ReportLine = ReportLine(design: string, total: real)

  function LineOf(e: (string, Steps)): ReportLine {
    ReportLine(e.0, TotalRuntime(e.1))
  }

  /** `generate_report`, without the printing. */
  function Report(ds: Designs): (r: seq<ReportLine>)
    requires NamesDistinct(ds)
    ensures |r| == |ds|
    ensures forall i, j :: 0 <= i < j < |r| ==> StrLess(r[i].design, r[j].design)
  {
    var sorted := SortByName(ds);
    assert |sorted| == |multiset(sorted)| == |ds|;
    seq(|sorted|, i requires 0 <= i < |sorted| => LineOf(sorted[i]))
  }

  /**
   * The report has one line per design, holding that design's total, and
   * nothing else.
   */
  lemma ReportLines(ds: Designs)
    requires NamesDistinct(ds)
    ensures forall e :: e in ds ==> LineOf(e) in Report(ds)
    ensures forall l :: l in Report(ds) ==> exists e :: e in ds && l == LineOf(e)
  {
    var sorted, r := SortByName(ds), Report(ds);
    forall e | e in ds ensures LineOf(e) in r {
      assert e in multiset(sorted);
      var i :| 0 <= i < |sorted| && sorted[i] == e;
      assert r[i] == LineOf(e);
    }
    forall l | l in r ensures exists e :: e in ds && l == LineOf(e) {
      var i :| 0 <= i < |r| && r[i] == l;
      assert sorted[i] in multiset(ds);
    }
  }

  /**
   * Each design's line in the report of the aggregate prints the sum of all
   * its step runtimes.
   */
  lemma ReportTotalsAreSums(logs: seq<(string, Option<seq<string>>)>)
    ensures forall l :: l in Report(Collected(logs)) ==>
      exists e :: e in Collected(logs) && l.design == e.0 && l.total == SumValues(e.1)
  {
    var ds := Collected(logs);
    CollectedWellFormed(logs);
    ReportLines(ds);
    forall l | l in Report(ds)
      ensures exists e :: e in ds && l.design == e.0 && l.total == SumValues(e.1)
    {
      var e :| e in ds && l == LineOf(e);
      TotalRuntimeIsSum(e.1);
    }
  }

  /**
   * `round(x, 2)` on an exact value: the nearest multiple of 1/100, ties to
   * the even multiple.
   */
  function Round2(x: real): (r: real)
    ensures (r * 100.0).Floor as real == r * 100.0
    ensures -0.005 <= r - x <= 0.005
    ensures (x * 100.0 - 0.5).Floor as real == x * 100.0 - 0.5 ==> (r * 100.0).Floor % 2 == 0
  {
    var k := NearestEven(x * 100.0);
    assert (k as real / 100.0) * 100.0 == k as real;
    k as real / 100.0
  }

  /** The integer nearest to n, the even one of the two at a tie. */
  function NearestEven(n: real): (k: int)
    ensures -0.5 <= k as real - n <= 0.5
    ensures (n - 0.5).Floor as real == n - 0.5 ==> k % 2 == 0
  {
    var f := n.Floor;
    var d := n - f as real;
    assert (n - 0.5).Floor as real == n - 0.5 ==> d == 0.5 by {
      if (n - 0.5).Floor as real == n - 0.5 {
        HalfwayFraction(n);
      }
    }
    if d > 0.5 then f + 1 else if d < 0.5 then f else if f % 2 == 0 then f else f + 1
  }

  /** A number halfway between two integers lies 1/2 above its floor. */
  lemma HalfwayFraction(n: real)
    requires (n - 0.5).Floor as real == n - 0.5
    ensures n - n.Floor as real == 0.5
  {
    var g := (n - 0.5).Floor;
    assert g as real <= n < g as real + 1.0;
    assert n.Floor == g;
  }

  /** One CSV row: the design, its rounded total and one cell per expected step. */
  datatype CsvRow = CsvRow(design: string, totalRuntime: real, cells: seq<Option<real>>)

  /** The CSV cell of one step: its runtime, or empty when the design has none. */
  function Cell(step: string, m: Steps): Option<real> {
    if step in m then Some(m[step]) else None
  }

  /** The loop over the expected steps: one cell per step, and the running total. */
  method RowCells(steps: seq<string>, m: Steps) returns (cells: seq<Option<real>>, total: real)
    ensures |cells| == |steps| && forall i :: 0 <= i < |steps| ==> cells[i] == Cell(steps[i], m)
    ensures total == TotalOf(steps, m)
  {
    cells, total := [], 0.0;
    var i := 0;
    while i < |steps|
      invariant 0 <= i <= |steps| && |cells| == i
      invariant forall k :: 0 <= k < i ==> cells[k] == Cell(steps[k], m)
      invariant total + TotalOf(steps[i..], m) == TotalOf(steps, m)
    {
      var step := steps[i];
      assert steps[i..][1..] == steps[i + 1..];
      if step in m {
        cells := cells + [Some(m[step])];
        total := total + m[step];
      } else {
        cells := cells + [None];
      }
      i := i + 1;
    }
  }

  /** The row of a design: its name, its rounded total and the cell of every expected step. */
  function RowOf(name: string, m: Steps): CsvRow {
    CsvRow(name, Round2(TotalRuntime(m)), seq(|ExpectedSteps|, i requires 0 <= i < |ExpectedSteps| => Cell(ExpectedSteps[i], m)))
  }

  /** The row `export_to_csv` writes for one design. */
  method ExportRow(name: string, m: Steps) returns (row: CsvRow)
    ensures row.design == name && |row.cells| == |ExpectedSteps|
    ensures forall i :: 0 <= i < |ExpectedSteps| ==>
      row.cells[i] == (if ExpectedSteps[i] in m then Some(m[ExpectedSteps[i]]) else None)
    ensures row.totalRuntime == Round2(TotalRuntime(m))
    ensures row == RowOf(name, m)
  {
    var cells, total := RowCells(ExpectedSteps, m);
    row := CsvRow(name, Round2(total), cells);
  }

  /**
   * `export_to_csv`: one row per design, in ascending design-name order;
   * every row is the full row of a design and every design has its row.
   */
  method ExportToCsv(ds: Designs) returns (rows: seq<CsvRow>)
    requires NamesDistinct(ds)
    ensures |rows| == |ds|
    ensures forall i, j :: 0 <= i < j < |rows| ==> StrLess(rows[i].design, rows[j].design)
    ensures forall i :: 0 <= i < |rows| ==> exists e :: e in ds && rows[i] == RowOf(e.0, e.1)
    ensures forall e :: e in ds ==> exists i :: 0 <= i < |rows| && rows[i] == RowOf(e.0, e.1)
  {
    var sorted := SortByName(ds);
    SortedEntries(ds, sorted);
    rows := [];
    for i := 0 to |sorted|
      invariant |rows| == i
      invariant forall k :: 0 <= k < i ==> rows[k] == RowOf(sorted[k].0, sorted[k].1)
    {
      var row := ExportRow(sorted[i].0, sorted[i].1);
      rows := rows + [row];
    }
  }

  /** The sorted list has the designs' entries, one per design. */
  lemma SortedEntries(ds: Designs, sorted: Designs)
    requires multiset(sorted) == multiset(ds)
    ensures |sorted| == |ds| && forall k :: 0 <= k < |sorted| ==> sorted[k] in ds
    ensures forall e :: e in ds ==> exists k :: 0 <= k < |sorted| && sorted[k] == e
  {
    assert |sorted| == |multiset(sorted)| == |multiset(ds)| == |ds|;
    forall k | 0 <= k < |sorted| ensures sorted[k] in ds {
      assert sorted[k] in multiset(ds);
    }
    forall e | e in ds ensures exists k :: 0 <= k < |sorted| && sorted[k] == e {
      assert e in multiset(sorted);
    }
  }

  /**
   * `main` after discovery: None when no log was found or no design has
   * data; otherwise the report and the CSV rows of the non-empty designs.
   */
  method RunReport(logs: seq<(string, Option<seq<string>>)>) returns (out: Option<(seq<ReportLine>, seq<CsvRow>)>)
    ensures |logs| == 0 ==> out.None?
    ensures out.None? <==> |Collected(logs)| == 0
    ensures out.Some? ==> out.value.0 == Report(Collected(logs)) && |out.value.1| == |Collected(logs)|
    ensures out.Some? ==> forall i :: 0 <= i < |out.value.1| ==>
      exists e :: e in Collected(logs) && out.value.1[i] == RowOf(e.0, e.1)
    ensures out.Some? ==> forall e :: e in Collected(logs) ==>
      exists i :: 0 <= i < |out.value.1| && out.value.1[i] == RowOf(e.0, e.1)
  {
    var designs := CollectDesigns(logs);
    if |designs| == 0 {
      return None;
    }
    CollectedWellFormed(logs);
    var rows := ExportToCsv(designs);
    out := Some((Report(designs), rows));
  }
}
