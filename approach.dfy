/**
 * The pure and loop logic of the approach test script: "MM:SS" keyframe
 * timestamps, the line filter of the DPVO pose-file loader, and the
 * once-per-second keyframe promotion of the frame loop.
 */
module Approach {
  import opened Wrappers
  import opened Seqs
  import opened Transforms

  // ---------------------------------------------------------------------------
  // Splitting and stripping strings as Python's str methods do
  // ---------------------------------------------------------------------------

  /** The ASCII characters str.isspace accepts. */
  predicate IsSpace(c: char) {
    c == ' ' || c == '\t' || c == '\n' || c == '\r' || c == '\U{B}' || c == '\U{C}'
    || c == '\U{1C}' || c == '\U{1D}' || c == '\U{1E}' || c == '\U{1F}'
  }

  predicate NoneIn(s: string, sep: char -> bool) {
    forall i | 0 <= i < |s| :: !sep(s[i])
  }

  /** The pieces of s between the characters satisfying sep, empty pieces included. */
  function SplitBy(s: string, sep: char -> bool): (parts: seq<string>)
    ensures |parts| >= 1
    ensures forall k | 0 <= k < |parts| :: NoneIn(parts[k], sep)
  {
    if |s| == 0 then [""]
    else
      var rest := SplitBy(s[1..], sep);
      if sep(s[0]) then [""] + rest
      else [[s[0]] + rest[0]] + rest[1..]
  }

  function IsChar(c: char): char -> bool {
    (x: char) => x == c
  }

  /** str.split(c) for a one-character separator. */
  function Split(s: string, c: char): seq<string> {
    SplitBy(s, IsChar(c))
  }

  /** How often c occurs in s. */
  function Count(s: string, c: char): nat {
    if |s| == 0 then 0 else (if s[0] == c then 1 else 0) + Count(s[1..], c)
  }

  /** The parts joined with c between consecutive ones: str.join. */
  function Join(parts: seq<string>, c: char): string
    requires |parts| >= 1
  {
    if |parts| == 1 then parts[0] else parts[0] + [c] + Join(parts[1..], c)
  }

  /** Splitting on c gives one more part than there are c's. */
  lemma {:induction false} SplitCount(s: string, c: char)
    ensures |Split(s, c)| == Count(s, c) + 1
  {
    if |s| > 0 {
      SplitCount(s[1..], c);
    }
  }

  /** Joining the parts with the separator gives back the string. */
  lemma {:induction false} JoinSplit(s: string, c: char)
    ensures Join(Split(s, c), c) == s
  {
    if |s| > 0 {
      JoinSplit(s[1..], c);
      var rest := Split(s[1..], c);
      if s[0] != c {
        if |rest| == 1 {
        } else {
          assert Join(rest, c) == rest[0] + [c] + Join(rest[1..], c);
          assert ([s[0]] + rest[0]) + [c] + Join(rest[1..], c) == [s[0]] + Join(rest, c);
          assert ([[s[0]] + rest[0]] + rest[1..])[1..] == rest[1..];
        }
        assert [s[0]] + s[1..] == s;
      } else {
        assert ([""] + rest)[1..] == rest;
        assert [s[0]] + s[1..] == s;
      }
    }
  }

  /** A string without separators is one piece. */
  lemma {:induction false} SplitWhole(w: string, sep: char -> bool)
    requires NoneIn(w, sep)
    ensures SplitBy(w, sep) == [w]
  {
    if |w| > 0 {
      SplitWhole(w[1..], sep);
      assert [w[0]] + w[1..] == w;
    }
  }

  /** A separator-free word followed by a separator splits off as the first piece. */
  lemma {:induction false} SplitFirst(w: string, c: char, t: string, sep: char -> bool)
    requires NoneIn(w, sep) && sep(c)
    ensures SplitBy(w + [c] + t, sep) == [w] + SplitBy(t, sep)
  {
    if |w| == 0 {
      assert w + [c] + t == [c] + t;
      assert ([c] + t)[1..] == t;
    } else {
      assert (w + [c] + t)[1..] == w[1..] + [c] + t;
      SplitFirst(w[1..], c, t, sep);
      assert [w[0]] + w[1..] == w;
    }
  }

  /** Splitting what was joined from separator-free parts gives back the parts. */
  lemma {:induction false} SplitJoin(parts: seq<string>, c: char, sep: char -> bool)
    requires |parts| >= 1 && sep(c)
    requires forall k | 0 <= k < |parts| :: NoneIn(parts[k], sep)
    ensures SplitBy(Join(parts, c), sep) == parts
  {
    if |parts| == 1 {
      SplitWhole(parts[0], sep);
    } else {
      SplitJoin(parts[1..], c, sep);
      SplitFirst(parts[0], c, Join(parts[1..], c), sep);
      assert [parts[0]] + parts[1..] == parts;
    }
  }

  predicate NonEmpty(s: string) {
    |s| > 0
  }

  /** str.split() with no argument: the non-empty runs of non-whitespace. */
  function Words(s: string): (ws: seq<string>)
    ensures forall k | 0 <= k < |ws| :: |ws[k]| > 0 && NoneIn(ws[k], IsSpace)
  {
    Filter(SplitBy(s, IsSpace), NonEmpty)
  }

  /** Words separated by single spaces are split back into those words. */
  lemma WordsOfJoin(ws: seq<string>)
    requires |ws| >= 1
    requires forall k | 0 <= k < |ws| :: |ws[k]| > 0 && NoneIn(ws[k], IsSpace)
    ensures Words(Join(ws, ' ')) == ws
  {
    SplitJoin(ws, ' ', IsSpace);
    FilterAll(ws, NonEmpty);
  }

  /** s without its leading whitespace. */
  function StripLeft(s: string): string {
    if |s| > 0 && IsSpace(s[0]) then StripLeft(s[1..]) else s
  }

  /** s without its trailing whitespace. */
  function StripRight(s: string): string {
    if |s| > 0 && IsSpace(s[|s| - 1]) then StripRight(s[..|s| - 1]) else s
  }

  /** str.strip(): both ends. */
  function Strip(s: string): string {
    StripRight(StripLeft(s))
  }

  /** StripLeft drops exactly the leading run of whitespace. */
  lemma {:induction false} StripLeftSpec(s: string)
    ensures var r := StripLeft(s);
            && |r| <= |s| && r == s[|s| - |r|..]
            && (|r| > 0 ==> !IsSpace(r[0]))
            && (forall i | 0 <= i < |s| - |r| :: IsSpace(s[i]))
  {
    if |s| > 0 && IsSpace(s[0]) {
      StripLeftSpec(s[1..]);
    }
  }

  /** StripRight drops exactly the trailing run of whitespace. */
  lemma {:induction false} StripRightSpec(s: string)
    ensures var r := StripRight(s);
            && |r| <= |s| && r == s[..|r|]
            && (|r| > 0 ==> !IsSpace(r[|r| - 1]))
            && (forall i | |r| <= i < |s| :: IsSpace(s[i]))
  {
    if |s| > 0 && IsSpace(s[|s| - 1]) {
      StripRightSpec(s[..|s| - 1]);
    }
  }

  /**
   * str.strip() keeps a slice s[lo..hi] that neither starts nor ends with
   * whitespace, and everything it drops is whitespace.
   */
  lemma StripSpec(s: string)
    ensures exists lo, hi | 0 <= lo <= hi <= |s| ::
              && Strip(s) == s[lo..hi]
              && (lo < hi ==> !IsSpace(s[lo]) && !IsSpace(s[hi - 1]))
              && (forall i | 0 <= i < lo :: IsSpace(s[i]))
              && (forall i | hi <= i < |s| :: IsSpace(s[i]))
  {
    var l := StripLeft(s);
    StripLeftSpec(s);
    StripRightSpec(l);
    var lo := |s| - |l|;
    var hi := lo + |Strip(s)|;
    assert Strip(s) == s[lo..hi];
    forall i | hi <= i < |s|
      ensures IsSpace(s[i])
    {
      assert s[i] == l[i - lo];
    }
  }

  /** A string that starts and ends with a non-space character is its own strip. */
  lemma StripTrimmed(s: string)
    requires |s| > 0 ==> !IsSpace(s[0]) && !IsSpace(s[|s| - 1])
    ensures Strip(s) == s
  {
  }

  // ---------------------------------------------------------------------------
  // Python's int() on a decimal string
  // ---------------------------------------------------------------------------

  predicate IsDigit(c: char) {
    '0' <= c <= '9'
  }

  function DigitValue(c: char): nat
    requires IsDigit(c)
  {
    (c as int) - ('0' as int)
  }

  /**
   * The body of a base-10 literal int() accepts after its sign: digits,
   * possibly separated by single underscores, starting and ending with a digit.
   */
  predicate IsDigitBody(b: string) {
    && |b| > 0
    && IsDigit(b[0]) && IsDigit(b[|b| - 1])
    && (forall i | 0 <= i < |b| :: IsDigit(b[i]) || b[i] == '_')
    && (forall i | 0 <= i < |b| - 1 :: b[i] == '_' ==> b[i + 1] != '_')
  }

  /** The number the digits of b spell, underscores skipped. */
  function DigitsValue(b: string): nat
    requires forall i | 0 <= i < |b| :: IsDigit(b[i]) || b[i] == '_'
  {
    PrefixValue(b, |b|)
  }

  /** The number the digits of b[..n] spell, underscores skipped. */
  function PrefixValue(b: string, n: nat): nat
    requires n <= |b|
    requires forall i | 0 <= i < |b| :: IsDigit(b[i]) || b[i] == '_'
  {
    if n == 0 then 0
    else if b[n - 1] == '_' then PrefixValue(b, n - 1)
    else 10 * PrefixValue(b, n - 1) + DigitValue(b[n - 1])
  }

  /** The value of a prefix depends only on the characters in it. */
  lemma {:induction false} PrefixValueOfPrefix(b: string, c: string, n: nat)
    requires n <= |b| && n <= |c| && b[..n] == c[..n]
    requires forall i | 0 <= i < |b| :: IsDigit(b[i]) || b[i] == '_'
    requires forall i | 0 <= i < |c| :: IsDigit(c[i]) || c[i] == '_'
    ensures PrefixValue(b, n) == PrefixValue(c, n)
  {
    if n > 0 {
      assert b[n - 1] == b[..n][n - 1] == c[..n][n - 1] == c[n - 1];
      assert b[..n - 1] == b[..n][..n - 1] == c[..n][..n - 1] == c[..n - 1];
      PrefixValueOfPrefix(b, c, n - 1);
    }
  }

  /**
   * CPython's default limit on the number of digits int() converts from a
   * decimal string and str() produces (sys.int_info.default_max_str_digits);
   * beyond it both raise ValueError.
   */
  const MaxStrDigits: nat := 4300

  /** The number of digits in b, underscores not counted. */
  function DigitCount(b: string): nat {
    PrefixDigitCount(b, |b|)
  }

  /** The number of digits in b[..n]. */
  function PrefixDigitCount(b: string, n: nat): nat
    requires n <= |b|
  {
    if n == 0 then 0
    else PrefixDigitCount(b, n - 1) + (if IsDigit(b[n - 1]) then 1 else 0)
  }

  /** int(s): surrounding whitespace, then a signed digit body; None where int() raises ValueError. */
  function ParseInt(s: string): Option<int> {
    ParseSigned(Strip(s))
  }

  /** An optional '+' or '-' followed by a digit body of at most MaxStrDigits digits. */
  function ParseSigned(t: string): Option<int> {
    if |t| > 0 && (t[0] == '+' || t[0] == '-') then
      if !IsDigitBody(t[1..]) || DigitCount(t[1..]) > MaxStrDigits then None
      else if t[0] == '-' then Some(-(DigitsValue(t[1..]) as int))
      else Some(DigitsValue(t[1..]))
    else if IsDigitBody(t) && DigitCount(t) <= MaxStrDigits then Some(DigitsValue(t))
    else None
  }

  /** int() raises on an empty string, a lone sign, and misplaced underscores. */
  lemma ParseIntRejects()
    ensures ParseInt("") == None && ParseInt(" ") == None && ParseInt("-") == None
    ensures ParseInt("_1") == None && ParseInt("1_") == None && ParseInt("1__0") == None
    ensures ParseInt("- 1") == None
  {
    assert Strip("") == "";
    assert Strip(" ") == "";
    assert Strip("-") == "-" && "-"[1..] == "";
    assert Strip("_1") == "_1";
    assert Strip("1_") == "1_";
    assert Strip("1__0") == "1__0" && "1__0"[1] == '_' && "1__0"[2] == '_';
    assert Strip("- 1") == "- 1" && "- 1"[1..] == " 1";
  }

  /** int() accepts surrounding whitespace, a sign and single underscores between digits. */
  lemma ParseIntAccepts()
    ensures ParseInt(" 7\n") == Some(7) && ParseInt("+12") == Some(12)
    ensures ParseInt("-1_0") == Some(-10)
  {
    ParseIntPadded();
    ParseIntPlus();
    ParseIntUnderscore();
  }

  lemma ParseIntPadded()
    ensures ParseInt(" 7\n") == Some(7)
  {
    assert Strip(" 7\n") == "7";
    ParseDigits("7");
  }

  lemma ParseIntPlus()
    ensures ParseInt("+12") == Some(12)
  {
    StripTrimmed("+12");
    DigitCountOfDigits("12");
    TwoDigitValue("12");
    ParseSignedBody("+12", "12");
  }

  lemma ParseIntUnderscore()
    ensures ParseInt("-1_0") == Some(-10)
  {
    StripTrimmed("-1_0");
    assert IsDigitBody("1_0");
    assert PrefixValue("1_0", 2) == 1 && PrefixDigitCount("1_0", 2) == 1;
    ParseSignedBody("-1_0", "1_0");
  }

  /** A sign followed by a digit body within the digit limit parses to its signed value. */
  lemma ParseSignedBody(t: string, b: string)
    requires |t| > 0 && (t[0] == '+' || t[0] == '-') && t[1..] == b
    requires IsDigitBody(b) && DigitCount(b) <= MaxStrDigits
    ensures ParseSigned(t) == Some(if t[0] == '-' then -(DigitsValue(b) as int) else DigitsValue(b))
  {
  }

  predicate AllDigits(s: string) {
    forall i | 0 <= i < |s| :: IsDigit(s[i])
  }

  /** Every character of a run of plain digits counts. */
  lemma DigitCountOfDigits(d: string)
    requires AllDigits(d)
    ensures DigitCount(d) == |d|
  {
    PrefixDigitCountOfDigits(d, |d|);
  }

  lemma {:induction false} PrefixDigitCountOfDigits(d: string, n: nat)
    requires n <= |d| && AllDigits(d)
    ensures PrefixDigitCount(d, n) == n
  {
    if n > 0 {
      PrefixDigitCountOfDigits(d, n - 1);
    }
  }

  /**
   * A non-empty run of plain digits parses to the number it spells, leading
   * zeros and all, unless it is longer than the digit limit.
   */
  lemma ParseDigits(d: string)
    requires |d| > 0 && AllDigits(d)
    ensures ParseInt(d) == if |d| <= MaxStrDigits then Some(DigitsValue(d)) else None
  {
    StripTrimmed(d);
    DigitCountOfDigits(d);
    assert IsDigitBody(d);
  }

  /** 10^k. */
  function Pow10(k: nat): (p: nat)
    ensures p >= 1
  {
    if k == 0 then 1 else 10 * Pow10(k - 1)
  }

  /** str(n) for a natural number: its decimal digits, without leading zeros. */
  function NatToString(n: nat): (s: string)
    ensures |s| > 0 && AllDigits(s)
    ensures |s| > 1 ==> s[0] != '0'
  {
    var d := ['0' + (n % 10) as char];
    if n < 10 then d else NatToString(n / 10) + d
  }

  /** The digits of str(n) spell n. */
  lemma {:induction false} NatToStringValue(n: nat)
    ensures DigitsValue(NatToString(n)) == n
  {
    var s := NatToString(n);
    if n >= 10 {
      var t := NatToString(n / 10);
      NatToStringValue(n / 10);
      var c := '0' + (n % 10) as char;
      assert s == t + [c];
      assert |s| == |t| + 1 && s[|t|] == c && c != '_' && DigitValue(c) == n % 10;
      assert s[..|t|] == t == t[..|t|];
      PrefixValueOfPrefix(s, t, |t|);
      assert PrefixValue(s, |t| + 1) == 10 * PrefixValue(s, |t|) + DigitValue(c);
    } else {
      assert s == ['0' + n as char] && DigitValue(s[0]) == n;
      assert PrefixValue(s, 1) == 10 * PrefixValue(s, 0) + DigitValue(s[0]);
    }
  }

  /** str(n) has at most k digits exactly when n < 10^k. */
  lemma {:induction false} NatToStringLength(n: nat, k: nat)
    requires k >= 1
    ensures |NatToString(n)| <= k <==> n < Pow10(k)
  {
    if n >= 10 {
      if k == 1 {
        assert |NatToString(n)| == |NatToString(n / 10)| + 1;
      } else {
        NatToStringLength(n / 10, k - 1);
      }
    } else {
      PowAtLeastTen(k);
    }
  }

  lemma {:induction false} PowAtLeastTen(k: nat)
    requires k >= 1
    ensures Pow10(k) >= 10
  {
    if k > 1 {
      PowAtLeastTen(k - 1);
    }
  }

  /** A sign followed by plain digits is its own strip. */
  lemma SignedDigitsTrimmed(d: string, m: string)
    requires |d| > 0 && AllDigits(d)
    requires m == "-" + d
    ensures Strip(m) == m
  {
    assert m[0] == '-' && m[|m| - 1] == d[|d| - 1];
    StripTrimmed(m);
  }

  lemma ParseSignedMinus(d: string, m: string)
    requires |d| > 0 && AllDigits(d)
    requires m == "-" + d
    ensures ParseSigned(m) == if |d| <= MaxStrDigits then Some(-(DigitsValue(d) as int)) else None
  {
    assert m[1..] == d;
    assert IsDigitBody(d);
    DigitCountOfDigits(d);
  }

  /** A minus sign followed by plain digits parses to minus their value, within the digit limit. */
  lemma ParseNegatedDigits(d: string)
    requires |d| > 0 && AllDigits(d)
    ensures ParseInt("-" + d) == if |d| <= MaxStrDigits then Some(-(DigitsValue(d) as int)) else None
  {
    SignedDigitsTrimmed(d, "-" + d);
    ParseSignedMinus(d, "-" + d);
  }

  /**
   * int(str(n)) == n and int("-" + str(n)) == -n while str(n) has at most
   * MaxStrDigits digits, that is (NatToStringLength) for every n below
   * 10^4300; from there on int() (like str() itself) raises.
   */
  lemma ParseIntRoundTrip(n: nat)
    ensures |NatToString(n)| <= MaxStrDigits ==>
              ParseInt(NatToString(n)) == Some(n) && ParseInt("-" + NatToString(n)) == Some(-(n as int))
    ensures |NatToString(n)| > MaxStrDigits ==>
              ParseInt(NatToString(n)) == None && ParseInt("-" + NatToString(n)) == None
  {
    var s := NatToString(n);
    NatToStringValue(n);
    ParseDigits(s);
    ParseNegatedDigits(s);
  }

  // ---------------------------------------------------------------------------
  // parse_timestamp
  // ---------------------------------------------------------------------------

  datatype TimestampError =
    | WrongPartCount(ts: string)     // the string does not split on ':' into exactly two parts
    | NotAnInteger(part: string)     // int() rejects a part

  /**
   * "MM:SS" to minutes * 60 + seconds. Neither part is range-checked and int()
   * accepts signs, whitespace and underscores in them.
   */
  function ParseTimestamp(ts: string): Result<int, TimestampError> {
    var parts := Split(ts, ':');
    if |parts| != 2 then Err(WrongPartCount(ts))
    else
      match ParseInt(parts[0])
      case None => Err(NotAnInteger(parts[0]))
      case Some(minutes) =>
        match ParseInt(parts[1])
        case None => Err(NotAnInteger(parts[1]))
        case Some(seconds) => Ok(minutes * 60 + seconds)
  }

  /**
   * parse_timestamp raises the format error exactly when ts does not hold one
   * colon; otherwise it raises for the first part int() rejects, and else
   * returns minutes * 60 + seconds.
   */
  lemma ParseTimestampSpec(ts: string)
    ensures ParseTimestamp(ts) == Err(WrongPartCount(ts)) <==> Count(ts, ':') != 1
    ensures Count(ts, ':') == 1 ==>
              var parts := Split(ts, ':');
              && |parts| == 2
              && ParseTimestamp(ts) ==
                   (if ParseInt(parts[0]).None? then Err(NotAnInteger(parts[0]))
                    else if ParseInt(parts[1]).None? then Err(NotAnInteger(parts[1]))
                    else Ok(ParseInt(parts[0]).value * 60 + ParseInt(parts[1]).value))
  {
    SplitCount(ts, ':');
  }

  lemma DigitsHaveNoColon(d: string)
    requires AllDigits(d)
    ensures NoneIn(d, IsChar(':'))
  {
  }

  /** Two colon-free strings around one colon split into exactly those two. */
  lemma SplitTimestamp(mm: string, ss: string, ts: string)
    requires NoneIn(mm, IsChar(':')) && NoneIn(ss, IsChar(':'))
    requires ts == mm + ":" + ss
    ensures Split(ts, ':') == [mm, ss]
  {
    assert Join([mm, ss], ':') == ts;
    SplitJoin([mm, ss], ':', IsChar(':'));
  }

  /** Two parts whose int() is known give minutes * 60 + seconds, unless one is over the digit limit. */
  lemma ParseDigitParts(mm: string, ss: string, ts: string, minutes: nat, seconds: nat)
    requires Split(ts, ':') == [mm, ss]
    requires ParseInt(mm) == if |mm| <= MaxStrDigits then Some(minutes) else None
    requires ParseInt(ss) == if |ss| <= MaxStrDigits then Some(seconds) else None
    ensures ParseTimestamp(ts) ==
              if |mm| > MaxStrDigits then Err(NotAnInteger(mm))
              else if |ss| > MaxStrDigits then Err(NotAnInteger(ss))
              else Ok(minutes * 60 + seconds)
  {
    ParseTimestampParts(mm, ss, ts);
  }

  lemma DigitPairParts(mm: string, ss: string, ts: string, minutes: nat, seconds: nat)
    requires |mm| > 0 && AllDigits(mm) && |ss| > 0 && AllDigits(ss)
    requires Split(ts, ':') == [mm, ss]
    requires minutes == DigitsValue(mm) && seconds == DigitsValue(ss)
    ensures ParseTimestamp(ts) ==
              if |mm| > MaxStrDigits then Err(NotAnInteger(mm))
              else if |ss| > MaxStrDigits then Err(NotAnInteger(ss))
              else Ok(minutes * 60 + seconds)
  {
    ParseDigitPair(mm, ss);
    ParseDigitParts(mm, ss, ts, minutes, seconds);
  }

  /** A timestamp that splits into two parts raises for the first part int() rejects, else gives minutes * 60 + seconds. */
  lemma ParseTimestampParts(mm: string, ss: string, ts: string)
    requires Split(ts, ':') == [mm, ss]
    ensures ParseTimestamp(ts) ==
              if ParseInt(mm).None? then Err(NotAnInteger(mm))
              else if ParseInt(ss).None? then Err(NotAnInteger(ss))
              else Ok(ParseInt(mm).value * 60 + ParseInt(ss).value)
  {
  }

  lemma ParseDigitPair(mm: string, ss: string)
    requires |mm| > 0 && AllDigits(mm) && |ss| > 0 && AllDigits(ss)
    ensures ParseInt(mm) == if |mm| <= MaxStrDigits then Some(DigitsValue(mm)) else None
    ensures ParseInt(ss) == if |ss| <= MaxStrDigits then Some(DigitsValue(ss)) else None
  {
    ParseDigits(mm);
    ParseDigits(ss);
  }

  /**
   * Two plain digit strings around one colon parse to their minutes and
   * seconds, leading zeros and all; a part over the digit limit raises.
   */
  lemma ParseTimestampDigits(mm: string, ss: string, ts: string)
    requires |mm| > 0 && AllDigits(mm) && |ss| > 0 && AllDigits(ss)
    requires ts == mm + ":" + ss
    ensures ParseTimestamp(ts) ==
              if |mm| > MaxStrDigits then Err(NotAnInteger(mm))
              else if |ss| > MaxStrDigits then Err(NotAnInteger(ss))
              else Ok(DigitsValue(mm) * 60 + DigitsValue(ss))
  {
    assert Split(ts, ':') == [mm, ss] by {
      DigitsHaveNoColon(mm);
      DigitsHaveNoColon(ss);
      SplitTimestamp(mm, ss, ts);
    }
    DigitPairParts(mm, ss, ts, DigitsValue(mm), DigitsValue(ss));
  }

  /**
   * Formatting minutes and seconds with str and a colon parses back, as long
   * as neither has more digits than the limit.
   */
  lemma ParseTimestampRoundTrip(minutes: nat, seconds: nat, ts: string)
    requires ts == NatToString(minutes) + ":" + NatToString(seconds)
    ensures ParseTimestamp(ts) ==
              if |NatToString(minutes)| > MaxStrDigits then Err(NotAnInteger(NatToString(minutes)))
              else if |NatToString(seconds)| > MaxStrDigits then Err(NotAnInteger(NatToString(seconds)))
              else Ok(minutes * 60 + seconds)
  {
    NatToStringValue(minutes);
    NatToStringValue(seconds);
    ParseTimestampDigits(NatToString(minutes), NatToString(seconds), ts);
  }

  /** Every timestamp parsed, in order, or the error of the first that raises. */
  function ParseAll(tss: seq<string>): (r: Result<seq<int>, TimestampError>)
    ensures r.Ok? <==> forall k | 0 <= k < |tss| :: ParseTimestamp(tss[k]).Ok?
    ensures r.Ok? ==> |r.value| == |tss| && forall k | 0 <= k < |tss| :: ParseTimestamp(tss[k]) == Ok(r.value[k])
    ensures r.Err? ==> exists k | 0 <= k < |tss| ::
              (forall j | 0 <= j < k :: ParseTimestamp(tss[j]).Ok?) && ParseTimestamp(tss[k]) == Err(r.error)
  {
    MapResults(tss, ParseTimestamp)
  }

  /** f of every element in order, or the error of the first element f fails on. */
  function MapResults<T, U(==), E(==)>(xs: seq<T>, f: T -> Result<U, E>): (r: Result<seq<U>, E>)
    ensures r.Ok? <==> forall k | 0 <= k < |xs| :: f(xs[k]).Ok?
    ensures r.Ok? ==> |r.value| == |xs| && forall k | 0 <= k < |xs| :: f(xs[k]) == Ok(r.value[k])
    ensures r.Err? ==> exists k | 0 <= k < |xs| ::
              (forall j | 0 <= j < k :: f(xs[j]).Ok?) && f(xs[k]) == Err(r.error)
  {
    if |xs| == 0 then Ok([])
    else
      match f(xs[0])
      case Err(e) => Err(e)
      case Ok(v) =>
        match MapResults(xs[1..], f)
        case Err(e) =>
          var k :| 0 <= k < |xs[1..]| && (forall j | 0 <= j < k :: f(xs[1..][j]).Ok?)
                   && f(xs[1..][k]) == Err(e);
          assert forall j | 0 <= j < k + 1 :: f(xs[j]).Ok? by {
            forall j | 0 <= j < k + 1
              ensures f(xs[j]).Ok?
            {
              if j > 0 {
                assert xs[j] == xs[1..][j - 1];
              }
            }
          }
          assert xs[k + 1] == xs[1..][k];
          Err(e)
        case Ok(vs) => Ok([v] + vs)
  }

  /** set(parse_timestamp(ts) for ts in keyframes): the seconds of the configured keyframes. */
  function KeyframeSeconds(tss: seq<string>): (r: Result<set<int>, TimestampError>)
    ensures r.Ok? <==> forall k | 0 <= k < |tss| :: ParseTimestamp(tss[k]).Ok?
    ensures r.Ok? ==> forall k | 0 <= k < |tss| :: ParseTimestamp(tss[k]).value in r.value
    ensures r.Ok? ==> forall x | x in r.value :: exists k | 0 <= k < |tss| :: ParseTimestamp(tss[k]) == Ok(x)
    ensures r.Err? ==> exists k | 0 <= k < |tss| ::
              (forall j | 0 <= j < k :: ParseTimestamp(tss[j]).Ok?) && ParseTimestamp(tss[k]) == Err(r.error)
  {
    match ParseAll(tss)
    case Err(e) => Err(e)
    case Ok(vs) =>
      assert forall x | x in Elements(vs) :: exists k | 0 <= k < |tss| :: ParseTimestamp(tss[k]) == Ok(x) by {
        forall x | x in Elements(vs)
          ensures exists k | 0 <= k < |tss| :: ParseTimestamp(tss[k]) == Ok(x)
        {
          var k :| 0 <= k < |vs| && vs[k] == x;
          assert ParseTimestamp(tss[k]) == Ok(x);
        }
      }
      Ok(Elements(vs))
  }

  /** Two plain digits spell ten times the first plus the second. */
  lemma TwoDigitValue(d: string)
    requires |d| == 2 && AllDigits(d)
    ensures DigitsValue(d) == 10 * DigitValue(d[0]) + DigitValue(d[1])
  {
    assert PrefixValue(d, 1) == DigitValue(d[0]);
  }

  /** The kitchen test's keyframes "00:23", "01:04" and "01:30" are the seconds 23, 64 and 90. */
  lemma KitchenFirstKeyframe()
    ensures ParseTimestamp("00:23") == Ok(23)
  {
    ParseTimestampDigits("00", "23", "00:23");
    TwoDigitValue("00");
    TwoDigitValue("23");
  }

  lemma KitchenSecondKeyframe()
    ensures ParseTimestamp("01:04") == Ok(64)
  {
    ParseTimestampDigits("01", "04", "01:04");
    TwoDigitValue("01");
    TwoDigitValue("04");
  }

  lemma KitchenThirdKeyframe()
    ensures ParseTimestamp("01:30") == Ok(90)
  {
    ParseTimestampDigits("01", "30", "01:30");
    TwoDigitValue("01");
    TwoDigitValue("30");
  }

  /** When every timestamp parses, the keyframe seconds are the set of their values. */
  lemma KeyframeSecondsOf(tss: seq<string>, vs: seq<int>)
    requires |vs| == |tss| && forall k | 0 <= k < |tss| :: ParseTimestamp(tss[k]) == Ok(vs[k])
    ensures KeyframeSeconds(tss) == Ok(Elements(vs))
  {
    var r := ParseAll(tss);
    assert r.value == vs;
  }

  /** Seconds are not range-checked: "00:75" is 75 seconds. */
  lemma SecondsNotRangeChecked()
    ensures ParseTimestamp("00:75") == Ok(75)
  {
    ParseTimestampDigits("00", "75", "00:75");
    TwoDigitValue("00");
    TwoDigitValue("75");
  }

  /** A timestamp without a colon, or with two, raises. */
  lemma WrongPartCounts()
    ensures ParseTimestamp("90") == Err(WrongPartCount("90"))
    ensures ParseTimestamp("01:02:03") == Err(WrongPartCount("01:02:03"))
  {
  }

  // ---------------------------------------------------------------------------
  // load_dpvo_poses
  // ---------------------------------------------------------------------------

  /** Why a pose file cannot be loaded. */
  datatype LoadError =
    | NotAFloat(token: string)       // float() raises ValueError on a field
    | ZeroQuaternion(line: string)   // the quaternion has norm 0, which the normalisation divides by

  /** A pose line holds "pose_idx tx ty tz qx qy qz qw": exactly eight fields. */
  predicate HasEightFields(line: string) {
    |Words(Strip(line))| == 8
  }

  /** The lines the loader keeps, in file order. */
  function KeptLines(lines: seq<string>): seq<string> {
    Filter(lines, HasEightFields)
  }

  /** float() of each token in order, or the first token it rejects. */
  function ParseFloats(tokens: seq<string>, toFloat: string -> Option<real>): (r: Result<seq<real>, LoadError>)
    ensures r.Ok? <==> forall k | 0 <= k < |tokens| :: toFloat(tokens[k]).Some?
    ensures r.Ok? ==> |r.value| == |tokens| && forall k | 0 <= k < |tokens| :: toFloat(tokens[k]) == Some(r.value[k])
    ensures r.Err? ==> exists k | 0 <= k < |tokens| ::
              && (forall j | 0 <= j < k :: toFloat(tokens[j]).Some?)
              && toFloat(tokens[k]).None? && r.error == NotAFloat(tokens[k])
  {
    if |tokens| == 0 then Ok([])
    else
      match toFloat(tokens[0])
      case None => Err(NotAFloat(tokens[0]))
      case Some(v) =>
        match ParseFloats(tokens[1..], toFloat)
        case Err(e) =>
          var k :| 0 <= k < |tokens[1..]| && (forall j | 0 <= j < k :: toFloat(tokens[1..][j]).Some?)
                   && toFloat(tokens[1..][k]).None? && e == NotAFloat(tokens[1..][k]);
          assert forall j | 0 <= j < k + 1 :: toFloat(tokens[j]).Some? by {
            forall j | 0 <= j < k + 1
              ensures toFloat(tokens[j]).Some?
            {
              if j > 0 {
                assert tokens[j] == tokens[1..][j - 1];
              }
            }
          }
          assert tokens[k + 1] == tokens[1..][k];
          Err(e)
        case Ok(vs) => Ok([v] + vs)
  }

  /**
   * One kept line to a pose: the seven numbers after the index become the
   * translation and the quaternion; `sqrt` is the square root the
   * normalisation takes of the quaternion's squared norm.
   */
  function ParseLine(line: string, toFloat: string -> Option<real>, sqrt: real -> real): Result<Mat4, LoadError>
    requires HasEightFields(line)
  {
    var parts := Words(Strip(line));
    match ParseFloats(parts[1..], toFloat)
    case Err(e) => Err(e)
    case Ok(f) => PoseOfFields(line, f, sqrt)
  }

  /** pose_from_translation_quaternion(tx, ty, tz, qx, qy, qz, qw), failing where the quaternion has norm 0. */
  function PoseOfFields(line: string, f: seq<real>, sqrt: real -> real): Result<Mat4, LoadError>
    requires |f| == 7
  {
    var norm := QuaternionNorm(f, sqrt);
    if norm == 0.0 then Err(ZeroQuaternion(line))
    else Ok(PoseFromTranslationQuaternion(f[0], f[1], f[2], f[3], f[4], f[5], f[6], norm))
  }

  function QuaternionNorm(f: seq<real>, sqrt: real -> real): real
    requires |f| == 7
  {
    sqrt(f[3] * f[3] + f[4] * f[4] + f[5] * f[5] + f[6] * f[6])
  }

  /**
   * A kept line fails on the first field float() rejects, then on a zero
   * quaternion; otherwise its pose translates by fields 1 to 3.
   */
  lemma ParseLineSpec(line: string, toFloat: string -> Option<real>, sqrt: real -> real)
    requires HasEightFields(line)
    ensures var parts := Words(Strip(line));
            var r := ParseLine(line, toFloat, sqrt);
            && ((exists k | 1 <= k < 8 :: toFloat(parts[k]).None?) ==>
                  exists k | 1 <= k < 8 ::
                    && (forall j | 1 <= j < k :: toFloat(parts[j]).Some?)
                    && toFloat(parts[k]).None? && r == Err(NotAFloat(parts[k])))
            && (r.Ok? ==>
                  && (forall k | 1 <= k < 8 :: toFloat(parts[k]).Some?)
                  && r.value[0][3] == toFloat(parts[1]).value
                  && r.value[1][3] == toFloat(parts[2]).value
                  && r.value[2][3] == toFloat(parts[3]).value
                  && r.value[3] == [0.0, 0.0, 0.0, 1.0])
  {
    var parts := Words(Strip(line));
    var tokens := parts[1..];
    var fs := ParseFloats(tokens, toFloat);
    forall k | 1 <= k < 8
      ensures tokens[k - 1] == parts[k]
    {
    }
    if fs.Err? {
      var k :| 0 <= k < |tokens| && (forall j | 0 <= j < k :: toFloat(tokens[j]).Some?)
               && toFloat(tokens[k]).None? && fs.error == NotAFloat(tokens[k]);
      assert forall j | 1 <= j < k + 1 :: toFloat(parts[j]).Some? by {
        forall j | 1 <= j < k + 1
          ensures toFloat(parts[j]).Some?
        {
          assert tokens[j - 1] == parts[j];
        }
      }
      assert ParseLine(line, toFloat, sqrt) == Err(NotAFloat(parts[k + 1]));
    }
  }

  /**
   * The loading loop for a line filter `keep` and a parser `parse` of the kept
   * lines: the parsed kept lines in file order, or the error of a kept line
   * that fails, which ends the loop.
   */
  function LoadKept<T, E>(lines: seq<string>, keep: string -> bool, parse: string --> Result<T, E>): Result<seq<T>, E>
    requires forall line | keep(line) :: parse.requires(line)
  {
    if |lines| == 0 then Ok([])
    else
      match LoadKept(lines[..|lines| - 1], keep, parse)
      case Err(e) => Err(e)
      case Ok(values) =>
        var line := lines[|lines| - 1];
        if !keep(line) then Ok(values)
        else
          match parse(line)
          case Err(e) => Err(e)
          case Ok(v) => Ok(values + [v])
  }

  /**
   * The loop succeeds exactly when every kept line parses, with one value per
   * kept line, in order.
   */
  lemma {:induction false} LoadKeptAll<T, E>(lines: seq<string>, keep: string -> bool, parse: string --> Result<T, E>)
    requires forall line | keep(line) :: parse.requires(line)
    ensures var kept := Filter(lines, keep);
            LoadKept(lines, keep, parse).Ok? <==> forall k | 0 <= k < |kept| :: parse(kept[k]).Ok?
    ensures var kept := Filter(lines, keep);
            var r := LoadKept(lines, keep, parse);
            r.Ok? ==> |r.value| == |kept| && forall k | 0 <= k < |kept| :: parse(kept[k]) == Ok(r.value[k])
  {
    if |lines| > 0 {
      var n := |lines| - 1;
      var prefix := lines[..n];
      LoadKeptAll(prefix, keep, parse);
      FilterStep(lines, n, keep);
      assert lines[..n + 1] == lines;
      var before := Filter(prefix, keep);
      var kept := Filter(lines, keep);
      assert forall k | 0 <= k < |before| :: kept[k] == before[k];
    }
  }

  /** When the loop fails, the error is that of the first kept line that does not parse. */
  lemma {:induction false} LoadKeptFirstFailure<T, E>(lines: seq<string>, keep: string -> bool, parse: string --> Result<T, E>)
    requires forall line | keep(line) :: parse.requires(line)
    ensures var kept := Filter(lines, keep);
            var r := LoadKept(lines, keep, parse);
            r.Err? ==> exists k | 0 <= k < |kept| ::
              (forall j | 0 <= j < k :: parse(kept[j]).Ok?) && parse(kept[k]) == Err(r.error)
  {
    var r := LoadKept(lines, keep, parse);
    if |lines| > 0 && r.Err? {
      var n := |lines| - 1;
      var prefix := lines[..n];
      FilterStep(lines, n, keep);
      assert lines[..n + 1] == lines;
      var before := Filter(prefix, keep);
      var kept := Filter(lines, keep);
      assert forall j | 0 <= j < |before| :: kept[j] == before[j];
      if LoadKept(prefix, keep, parse).Err? {
        LoadKeptFirstFailure(prefix, keep, parse);
      } else {
        LoadKeptAll(prefix, keep, parse);
        assert kept[|before|] == lines[n];
      }
    }
  }

  /** The parser of a kept pose line. */
  function PoseLineParser(toFloat: string -> Option<real>, sqrt: real -> real): string --> Result<Mat4, LoadError> {
    line requires HasEightFields(line) => ParseLine(line, toFloat, sqrt)
  }

  /** The loader's result on the first lines of the file, as a function. */
  function DpvoPoses(lines: seq<string>, toFloat: string -> Option<real>, sqrt: real -> real): Result<seq<Mat4>, LoadError> {
    LoadKept(lines, HasEightFields, PoseLineParser(toFloat, sqrt))
  }

  /**
   * The loader keeps exactly the lines with eight fields, in file order: it
   * succeeds when each of them parses, with one pose per kept line.
   */
  lemma DpvoPosesKept(lines: seq<string>, toFloat: string -> Option<real>, sqrt: real -> real)
    ensures var kept := KeptLines(lines);
            DpvoPoses(lines, toFloat, sqrt).Ok? <==> forall k | 0 <= k < |kept| :: ParseLine(kept[k], toFloat, sqrt).Ok?
    ensures var kept := KeptLines(lines);
            var r := DpvoPoses(lines, toFloat, sqrt);
            r.Ok? ==> |r.value| == |kept| && forall k | 0 <= k < |kept| :: ParseLine(kept[k], toFloat, sqrt) == Ok(r.value[k])
  {
    var parse := PoseLineParser(toFloat, sqrt);
    LoadKeptAll(lines, HasEightFields, parse);
    var kept := KeptLines(lines);
    assert forall k | 0 <= k < |kept| :: parse(kept[k]) == ParseLine(kept[k], toFloat, sqrt);
  }

  /** When the loader fails, the error is that of the first kept line that does not parse. */
  lemma DpvoPosesFirstFailure(lines: seq<string>, toFloat: string -> Option<real>, sqrt: real -> real)
    ensures var kept := KeptLines(lines);
            var r := DpvoPoses(lines, toFloat, sqrt);
            r.Err? ==> exists k | 0 <= k < |kept| ::
              && (forall j | 0 <= j < k :: ParseLine(kept[j], toFloat, sqrt).Ok?)
              && ParseLine(kept[k], toFloat, sqrt) == Err(r.error)
  {
    var parse := PoseLineParser(toFloat, sqrt);
    LoadKeptFirstFailure(lines, HasEightFields, parse);
    var kept := KeptLines(lines);
    assert forall k | 0 <= k < |kept| :: parse(kept[k]) == ParseLine(kept[k], toFloat, sqrt);
  }

  /** load_dpvo_poses: the poses of the kept lines, or the first error a kept line raises. */
  method LoadDpvoPoses(lines: seq<string>, toFloat: string -> Option<real>, sqrt: real -> real)
    returns (r: Result<seq<Mat4>, LoadError>)
    ensures r == DpvoPoses(lines, toFloat, sqrt)
  {
    var poses: seq<Mat4> := [];
    var i := 0;
    while i < |lines|
      invariant 0 <= i <= |lines|
      invariant DpvoPoses(lines[..i], toFloat, sqrt) == Ok(poses)
    {
      assert lines[..i + 1][..i] == lines[..i];
      var line := lines[i];
      if HasEightFields(line) {
        var pose := ParseLine(line, toFloat, sqrt);
        if pose.Err? {
          DpvoPosesFirstError(lines, i + 1, toFloat, sqrt);
          return Err(pose.error);
        }
        poses := poses + [pose.value];
      }
      i := i + 1;
    }
    assert lines[..i] == lines;
    r := Ok(poses);
  }

  /** An error on the first n lines is the error of the whole file. */
  lemma {:induction false} DpvoPosesFirstError(lines: seq<string>, n: nat, toFloat: string -> Option<real>, sqrt: real -> real)
    requires n <= |lines|
    requires DpvoPoses(lines[..n], toFloat, sqrt).Err?
    ensures DpvoPoses(lines, toFloat, sqrt) == DpvoPoses(lines[..n], toFloat, sqrt)
    decreases |lines| - n
  {
    if n == |lines| {
      assert lines[..n] == lines;
    } else {
      assert lines[..n + 1][..n] == lines[..n];
      DpvoPosesFirstError(lines, n + 1, toFloat, sqrt);
    }
  }

  /** Eight space-separated tokens without whitespace form a kept line. */
  lemma TokensLineKept(tokens: seq<string>)
    requires |tokens| == 8
    requires forall k | 0 <= k < 8 :: |tokens[k]| > 0 && NoneIn(tokens[k], IsSpace)
    ensures HasEightFields(Join(tokens, ' '))
    ensures Words(Strip(Join(tokens, ' '))) == tokens
  {
    var line := Join(tokens, ' ');
    JoinEnds(tokens, ' ');
    StripTrimmed(line);
    WordsOfJoin(tokens);
  }

  /** A join of non-empty parts starts with the first part's first character and ends with the last part's last. */
  lemma {:induction false} JoinEnds(parts: seq<string>, c: char)
    requires |parts| >= 1 && forall k | 0 <= k < |parts| :: |parts[k]| > 0
    ensures var j := Join(parts, c);
            |j| > 0 && j[0] == parts[0][0] && j[|j| - 1] == parts[|parts| - 1][|parts[|parts| - 1]| - 1]
  {
    if |parts| > 1 {
      JoinEnds(parts[1..], c);
    }
  }

  // ---------------------------------------------------------------------------
  // The frame loop of run_test
  // ---------------------------------------------------------------------------

  const VideoFps: int := 30
  const OutputFps: int := 30
  /** Frames skipped between samples: VIDEO_FPS // OUTPUT_FPS, which is 1. */
  const FrameStep: int := VideoFps / OutputFps

  /** Why the frame loop raises. */
  datatype RunError =
    | ZeroFrames     // poses_per_frame = num_poses / total_frames divides by zero
    | NoPoses        // dpvo_poses[pose_idx] on an empty pose list

  /**
   * What the loop leaves behind: the pose index chosen for each processed
   * frame, the promoted frame ids in promotion order, and the promoted seconds.
   */
  datatype Run = Run(poseIndices: seq<int>, promotedFrameIds: seq<int>, promotedSeconds: set<int>)

  /** Python's int() on a float: truncation toward zero. */
  function Trunc(x: real): int {
    if x >= 0.0 then x.Floor else -((-x).Floor)
  }

  /** pose_idx = min(int(frame_idx * poses_per_frame), num_poses - 1). */
  function PoseIndex(frameIdx: int, posesPerFrame: real, numPoses: int): int {
    var idx := Trunc(frameIdx as real * posesPerFrame);
    if idx < numPoses - 1 then idx else numPoses - 1
  }

  /** The pose index of each of the first n frames. */
  function PoseIndices(n: nat, ppf: real, numPoses: int): seq<int> {
    seq(n, f => PoseIndex(f, ppf, numPoses))
  }

  /** The first processed frame of a configured second is promoted. */
  predicate IsPromotionFrame(keyframeSeconds: set<int>, f: int) {
    f % VideoFps == 0 && f / VideoFps in keyframeSeconds
  }

  function PromotionFrame(keyframeSeconds: set<int>): int -> bool {
    (f: int) => IsPromotionFrame(keyframeSeconds, f)
  }

  /** 0, 1, ..., n - 1. */
  function Range(n: nat): (r: seq<int>)
    ensures |r| == n && forall i | 0 <= i < n :: r[i] == i
  {
    seq(n, i => i)
  }

  /** The number of frames the loop processes: it stops at the end of the video or at the first failed read. */
  function ProcessedFrames(totalFrames: int, readable: nat): nat {
    if totalFrames <= 0 then 0 else if readable < totalFrames then readable else totalFrames
  }

  /** The configured seconds whose first frame lies before frame n. */
  function SecondsBefore(keyframeSeconds: set<int>, n: int): set<int> {
    set s | s in keyframeSeconds && 0 <= s && s * VideoFps < n
  }

  /**
   * The loop's outcome. `readable` is how many frames the capture delivers:
   * cap.read succeeds for frame indices below it and fails from there on.
   */
  function RunOf(totalFrames: int, keyframeSeconds: set<int>, numPoses: nat, readable: nat): Result<Run, RunError> {
    if totalFrames == 0 then Err(ZeroFrames)
    else
      var n := ProcessedFrames(totalFrames, readable);
      if n > 0 && numPoses == 0 then Err(NoPoses)
      else
        var ppf := (numPoses as real) / (totalFrames as real);
        Ok(RunFrames(n, ppf, numPoses, keyframeSeconds))
  }

  /** The bookkeeping after n frames were processed without error. */
  function RunFrames(n: nat, ppf: real, numPoses: int, keyframeSeconds: set<int>): Run {
    Run(PoseIndices(n, ppf, numPoses), Filter(Range(n), PromotionFrame(keyframeSeconds)), SecondsBefore(keyframeSeconds, n))
  }

  /**
   * The while-loop of run_test over the frame-level bookkeeping: the video
   * capture is `readable`, and the frame ids are those a fresh SpatialContext
   * hands out, one per processed frame from 0 on.
   */
  method RunTest(totalFrames: int, keyframeSeconds: set<int>, numPoses: nat, readable: nat)
    returns (r: Result<Run, RunError>)
    ensures r == RunOf(totalFrames, keyframeSeconds, numPoses, readable)
  {
    if totalFrames == 0 {
      return Err(ZeroFrames);
    }
    var posesPerFrame := (numPoses as real) / (totalFrames as real);
    var promotedFrameIds: seq<int> := [];
    var promotedSeconds: set<int> := {};
    var poseIndices: seq<int> := [];
    var outputFrameIdx := 0;
    var nextFrameId := 0;
    var n := ProcessedFrames(totalFrames, readable);
    var promote := PromotionFrame(keyframeSeconds);
    while true
      invariant 0 <= outputFrameIdx <= n
      invariant nextFrameId == outputFrameIdx
      invariant outputFrameIdx > 0 ==> numPoses > 0
      invariant poseIndices == PoseIndices(outputFrameIdx, posesPerFrame, numPoses)
      invariant promotedFrameIds == Filter(Range(outputFrameIdx), promote)
      invariant promotedSeconds == SecondsBefore(keyframeSeconds, outputFrameIdx)
      decreases n - outputFrameIdx
    {
      var frameIdx := outputFrameIdx * FrameStep;
      if frameIdx >= totalFrames {
        break;
      }
      if frameIdx >= readable {
        break;
      }
      assert frameIdx == outputFrameIdx;
      var currentSecond := frameIdx / VideoFps;
      var poseIdx := PoseIndex(frameIdx, posesPerFrame, numPoses);
      if !(-(numPoses as int) <= poseIdx < numPoses) {
        NoPosesOnly(frameIdx, totalFrames, numPoses);
        return Err(NoPoses);
      }
      NoPosesOnly(frameIdx, totalFrames, numPoses);
      var frameId := nextFrameId;
      nextFrameId := nextFrameId + 1;
      PoseIndicesStep(frameIdx, posesPerFrame, numPoses);
      poseIndices := poseIndices + [poseIdx];
      var isKeyframe := currentSecond in keyframeSeconds && currentSecond !in promotedSeconds;
      PromotionStep(keyframeSeconds, frameIdx);
      if isKeyframe {
        promotedFrameIds := promotedFrameIds + [frameId];
        promotedSeconds := promotedSeconds + {currentSecond};
      }
      PromotedStep(frameIdx, promote);
      outputFrameIdx := outputFrameIdx + 1;
    }
    r := Ok(Run(poseIndices, promotedFrameIds, promotedSeconds));
  }

  lemma PoseIndicesStep(n: nat, ppf: real, numPoses: int)
    ensures PoseIndices(n + 1, ppf, numPoses) == PoseIndices(n, ppf, numPoses) + [PoseIndex(n, ppf, numPoses)]
  {
  }

  lemma PromotedStep(n: nat, promote: int -> bool)
    ensures Filter(Range(n + 1), promote) == Filter(Range(n), promote) + (if promote(n) then [n] else [])
  {
    assert Range(n + 1) == Range(n) + [n];
    FilterAppend(Range(n), [n], promote);
    assert [n][1..] == [];
  }

  /** The pose lookup fails exactly when there are no poses. */
  lemma NoPosesOnly(frameIdx: int, totalFrames: int, numPoses: nat)
    requires 0 <= frameIdx < totalFrames
    ensures var idx := PoseIndex(frameIdx, (numPoses as real) / (totalFrames as real), numPoses);
            (-(numPoses as int) <= idx < numPoses) <==> numPoses > 0
  {
    var ppf := (numPoses as real) / (totalFrames as real);
    if numPoses > 0 {
      PoseIndexInRange(frameIdx, totalFrames, numPoses, ppf);
    } else {
      assert ppf == 0.0;
      assert frameIdx as real * ppf == 0.0;
      assert PoseIndex(frameIdx, ppf, numPoses) == -1;
    }
  }

  /**
   * Frame f is promoted exactly when its second is configured and not yet
   * promoted, and the promoted seconds grow accordingly.
   */
  lemma PromotionStep(keyframeSeconds: set<int>, f: nat)
    ensures var s := f / VideoFps;
            (s in keyframeSeconds && s !in SecondsBefore(keyframeSeconds, f)) <==> IsPromotionFrame(keyframeSeconds, f)
    ensures SecondsBefore(keyframeSeconds, f + 1) ==
              SecondsBefore(keyframeSeconds, f) + (if IsPromotionFrame(keyframeSeconds, f) then {f / VideoFps} else {})
  {
    var s := f / VideoFps;
    assert s * VideoFps + f % VideoFps == f;
    forall x | x in SecondsBefore(keyframeSeconds, f + 1) && x !in SecondsBefore(keyframeSeconds, f)
      ensures IsPromotionFrame(keyframeSeconds, f) && x == s
    {
      assert x * VideoFps == f;
    }
  }

  /**
   * For a frame of the video and at least one pose, int(frame_idx *
   * poses_per_frame) already lies in [0, num_poses - 1]: the clamp never
   * changes it.
   */
  lemma PoseIndexInRange(frameIdx: int, totalFrames: int, numPoses: int, ppf: real)
    requires 0 <= frameIdx < totalFrames && numPoses >= 1
    requires ppf == (numPoses as real) / (totalFrames as real)
    ensures 0 <= Trunc(frameIdx as real * ppf) <= numPoses - 1
    ensures PoseIndex(frameIdx, ppf, numPoses) == Trunc(frameIdx as real * ppf)
  {
    assert ppf * (totalFrames as real) == numPoses as real;
    MulStrict(frameIdx as real, totalFrames as real, ppf);
    MulNonneg(frameIdx as real, ppf);
  }

  lemma MulStrict(a: real, b: real, q: real)
    requires a < b && q > 0.0
    ensures a * q < b * q
  {
  }

  lemma MulNonneg(a: real, q: real)
    requires a >= 0.0 && q >= 0.0
    ensures a * q >= 0.0
  {
  }

  predicate StrictlyIncreasing(s: seq<int>) {
    forall i, j | 0 <= i < j < |s| :: s[i] < s[j]
  }

  /** Filtering keeps a strictly increasing sequence strictly increasing. */
  lemma {:induction false} FilterIncreasing(s: seq<int>, p: int -> bool)
    requires StrictlyIncreasing(s)
    ensures StrictlyIncreasing(Filter(s, p))
  {
    if |s| > 0 {
      FilterIncreasing(s[1..], p);
      var rest := Filter(s[1..], p);
      forall k | 0 <= k < |rest|
        ensures s[0] < rest[k]
      {
        var j :| 0 <= j < |s[1..]| && s[1..][j] == rest[k];
        assert s[j + 1] == rest[k];
      }
      if p(s[0]) {
        var r := [s[0]] + rest;
        forall i, j | 0 <= i < j < |r|
          ensures r[i] < r[j]
        {
          assert r[j] == rest[j - 1];
          if i > 0 {
            assert r[i] == rest[i - 1];
          }
        }
      }
    }
  }

  /** The second of each frame in a list, frame // VIDEO_FPS. */
  function SecondsOf(frames: seq<int>): (r: seq<int>)
    ensures |r| == |frames| && forall k | 0 <= k < |frames| :: r[k] == frames[k] / VideoFps
  {
    seq(|frames|, k requires 0 <= k < |frames| => frames[k] / VideoFps)
  }

  /** A frame is promoted exactly when it is the first frame of a configured second. */
  lemma PromotedMembership(n: nat, keyframeSeconds: set<int>)
    ensures var promoted := Filter(Range(n), PromotionFrame(keyframeSeconds));
            forall f :: f in promoted <==> 0 <= f < n && IsPromotionFrame(keyframeSeconds, f)
  {
    var promoted := Filter(Range(n), PromotionFrame(keyframeSeconds));
    forall f | 0 <= f < n && IsPromotionFrame(keyframeSeconds, f)
      ensures f in promoted
    {
      assert Range(n)[f] == f;
    }
  }

  /**
   * The promoted frames come in increasing order and lie in distinct seconds,
   * every one of them configured.
   */
  lemma PromotedOrder(n: nat, keyframeSeconds: set<int>)
    ensures var promoted := Filter(Range(n), PromotionFrame(keyframeSeconds));
            && StrictlyIncreasing(promoted)
            && StrictlyIncreasing(SecondsOf(promoted))
            && Elements(SecondsOf(promoted)) <= keyframeSeconds
  {
    var promote := PromotionFrame(keyframeSeconds);
    var promoted := Filter(Range(n), promote);
    FilterIncreasing(Range(n), promote);
    var seconds := SecondsOf(promoted);
    forall i, j | 0 <= i < j < |promoted|
      ensures seconds[i] < seconds[j]
    {
      assert promote(promoted[i]) && promote(promoted[j]);
      SecondsIncrease(promoted[i], promoted[j]);
    }
    forall x | x in Elements(seconds)
      ensures x in keyframeSeconds
    {
      var k :| 0 <= k < |seconds| && seconds[k] == x;
      assert promote(promoted[k]);
    }
  }

  /** Each configured second is promoted at most once, so there are at most |keyframe_seconds| promotions. */
  lemma PromotedCount(n: nat, keyframeSeconds: set<int>)
    ensures var promoted := Filter(Range(n), PromotionFrame(keyframeSeconds));
            && (forall i, j | 0 <= i < j < |promoted| :: promoted[i] / VideoFps != promoted[j] / VideoFps)
            && |promoted| <= |keyframeSeconds|
  {
    var promoted := Filter(Range(n), PromotionFrame(keyframeSeconds));
    var seconds := SecondsOf(promoted);
    PromotedOrder(n, keyframeSeconds);
    assert Distinct(seconds);
    DistinctCard(seconds);
    SubsetCard(Elements(seconds), keyframeSeconds);
  }

  lemma SubsetCard<T>(a: set<T>, b: set<T>)
    requires a <= b
    ensures |a| <= |b|
  {
    assert b == a + (b - a);
  }

  /** Distinct multiples of VIDEO_FPS lie in distinct seconds, in the same order. */
  lemma SecondsIncrease(a: int, b: int)
    requires a < b && a % VideoFps == 0 && b % VideoFps == 0
    ensures a / VideoFps < b / VideoFps
  {
    assert a == (a / VideoFps) * VideoFps;
    assert b == (b / VideoFps) * VideoFps;
  }

  /** run_test raises on a video without frames and, once a frame is read, on an empty pose list. */
  lemma RunOfErrors(totalFrames: int, keyframeSeconds: set<int>, numPoses: nat, readable: nat)
    ensures var r := RunOf(totalFrames, keyframeSeconds, numPoses, readable);
            && (r == Err(ZeroFrames) <==> totalFrames == 0)
            && (r == Err(NoPoses) <==> totalFrames != 0 && ProcessedFrames(totalFrames, readable) > 0 && numPoses == 0)
  {
  }

  /**
   * Otherwise it processes every frame up to the end of the video or the
   * first failed read, and the promoted seconds are those of the promoted
   * frames.
   */
  lemma RunOfPromotions(totalFrames: int, keyframeSeconds: set<int>, numPoses: nat, readable: nat)
    ensures var r := RunOf(totalFrames, keyframeSeconds, numPoses, readable);
            var n := ProcessedFrames(totalFrames, readable);
            r.Ok? ==> && |r.value.poseIndices| == n
                      && r.value.promotedFrameIds == Filter(Range(n), PromotionFrame(keyframeSeconds))
                      && r.value.promotedSeconds == Elements(SecondsOf(r.value.promotedFrameIds))
  {
    PromotedSeconds(ProcessedFrames(totalFrames, readable), keyframeSeconds);
  }

  /** Every processed frame gets its pose index; PoseIndicesInRange bounds them. */
  lemma RunOfPoseIndices(totalFrames: int, keyframeSeconds: set<int>, numPoses: nat, readable: nat)
    requires totalFrames != 0
    ensures var r := RunOf(totalFrames, keyframeSeconds, numPoses, readable);
            var ppf := (numPoses as real) / (totalFrames as real);
            r.Ok? ==> r.value.poseIndices == PoseIndices(ProcessedFrames(totalFrames, readable), ppf, numPoses)
                      && (ProcessedFrames(totalFrames, readable) > 0 ==> numPoses > 0)
  {
  }

  /** With at least one pose, every frame of the video gets a pose index in [0, num_poses - 1], one the clamp leaves unchanged. */
  lemma PoseIndicesInRange(n: nat, totalFrames: int, numPoses: nat, ppf: real)
    requires 0 < n <= totalFrames && numPoses > 0
    requires ppf == (numPoses as real) / (totalFrames as real)
    ensures var indices := PoseIndices(n, ppf, numPoses);
            forall f | 0 <= f < n :: 0 <= indices[f] <= numPoses - 1 && indices[f] == Trunc(f as real * ppf)
  {
    forall f | 0 <= f < n
      ensures 0 <= PoseIndex(f, ppf, numPoses) <= numPoses - 1 && PoseIndex(f, ppf, numPoses) == Trunc(f as real * ppf)
    {
      PoseIndexInRange(f, totalFrames, numPoses, ppf);
    }
  }

  /** The seconds recorded as promoted are those of the promoted frames. */
  lemma PromotedSeconds(n: nat, keyframeSeconds: set<int>)
    ensures SecondsBefore(keyframeSeconds, n) == Elements(SecondsOf(Filter(Range(n), PromotionFrame(keyframeSeconds))))
  {
    var promoted := Filter(Range(n), PromotionFrame(keyframeSeconds));
    var seconds := SecondsOf(promoted);
    PromotedMembership(n, keyframeSeconds);
    forall x | x in SecondsBefore(keyframeSeconds, n)
      ensures x in Elements(seconds)
    {
      var f := x * VideoFps;
      assert IsPromotionFrame(keyframeSeconds, f);
      var k :| 0 <= k < |promoted| && promoted[k] == f;
      assert seconds[k] == x;
    }
    forall x | x in Elements(seconds)
      ensures x in SecondsBefore(keyframeSeconds, n)
    {
      var k :| 0 <= k < |seconds| && seconds[k] == x;
      var f := promoted[k];
      assert f in promoted;
      assert f == x * VideoFps;
    }
  }
}
