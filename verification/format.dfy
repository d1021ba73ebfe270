/** `formatDuration` (src/utils/format.js:10-14): seconds as "<m>m <s>s",
    where `m` is the floor of `sec / 60` and `s` is JavaScript's `%`, whose
    remainder takes the sign of the dividend. Durations are whole seconds. */
module Format {
  import opened Optional

  predicate IsDigit(c: char)
  {
    '0' <= c <= '9'
  }

  predicate AllDigits(s: string)
  {
    forall i :: 0 <= i < |s| ==> IsDigit(s[i])
  }

  function DigitChar(d: nat): (c: char)
    requires d < 10
    ensures IsDigit(c)
  {
    ['0', '1', '2', '3', '4', '5', '6', '7', '8', '9'][d]
  }

  function DigitValue(c: char): (d: nat)
    requires IsDigit(c)
    ensures d < 10
  {
    (c as int - '0' as int) as nat
  }

  lemma DigitRoundTrip(d: nat)
    requires d < 10
    ensures DigitValue(DigitChar(d)) == d
  {
    var ds := ['0', '1', '2', '3', '4', '5', '6', '7', '8', '9'];
    assert DigitChar(d) == ds[d];
  }

  /** The decimal digits of `n`, without leading zeros. */
  function NatToString(n: nat): (s: string)
    ensures |s| >= 1 && AllDigits(s)
  {
    if n < 10 then [DigitChar(n)] else NatToString(n / 10) + [DigitChar(n % 10)]
  }

  /** The value of a string of decimal digits. */
  function ParseNat(s: string): nat
    requires AllDigits(s)
  {
    if s == [] then 0 else 10 * ParseNat(s[..|s| - 1]) + DigitValue(s[|s| - 1])
  }

  lemma {:induction false} ParseNatToString(n: nat)
    ensures ParseNat(NatToString(n)) == n
  {
    if n < 10 {
      DigitRoundTrip(n);
    } else {
      var s := NatToString(n);
      ParseNatToString(n / 10);
      DigitRoundTrip(n % 10);
      assert s[..|s| - 1] == NatToString(n / 10);
    }
  }

  /** A number as a template literal prints it: a minus sign for negatives. */
  function IntToString(i: int): (s: string)
    ensures |s| >= 1
    ensures i < 0 <==> s[0] == '-'
  {
    if i < 0 then "-" + NatToString(-i) else NatToString(i)
  }

  /** The inverse of `IntToString`: an optional minus sign and digits. */
  function ParseInt(s: string): Option<int>
  {
    if |s| >= 2 && s[0] == '-' && AllDigits(s[1..]) then Some(-(ParseNat(s[1..]) as int))
    else if |s| >= 1 && AllDigits(s) then Some(ParseNat(s) as int)
    else None
  }

  lemma ParseIntToString(i: int)
    ensures ParseInt(IntToString(i)) == Some(i)
  {
    if i < 0 {
      var n: nat := -i;
      assert IntToString(i) == "-" + NatToString(n);
      ParseNegative(n);
    } else {
      assert IntToString(i) == NatToString(i);
      ParseNonNegative(i);
    }
  }

  lemma ParseNonNegative(n: nat)
    ensures ParseInt(NatToString(n)) == Some(n as int)
  {
    var s := NatToString(n);
    ParseNatToString(n);
    assert IsDigit(s[0]);
  }

  lemma ParseNegative(n: nat)
    requires n > 0
    ensures ParseInt("-" + NatToString(n)) == Some(-(n as int))
  {
    var s := "-" + NatToString(n);
    ParseNatToString(n);
    assert s[1..] == NatToString(n);
  }

  /** JavaScript's `sec % 60`: the remainder of truncating division, which
      has the sign of `sec`. */
  function JsRem60(sec: int): (r: int)
    ensures sec >= 0 ==> 0 <= r < 60
    ensures sec < 0 ==> -60 < r <= 0
    ensures (sec - r) % 60 == 0
  {
    if sec >= 0 || sec % 60 == 0 then sec % 60 else sec % 60 - 60
  }

  /** `formatDuration(sec)`. */
  function FormatDuration(sec: int): (r: string)
    ensures |r| >= 5 && r[|r| - 1] == 's'
    ensures sec < 0 <==> r[0] == '-'
    ensures 0 <= sec < 60 ==> r[..3] == "0m "
  {
    IntToString(sec / 60) + "m " + IntToString(JsRem60(sec)) + "s"
  }

  /** The minutes and seconds that `formatDuration` prints: for a
      non-negative duration they are its whole minutes and the seconds left
      over. */
  lemma DurationParts(sec: int)
    requires sec >= 0
    ensures sec / 60 * 60 + JsRem60(sec) == sec
    ensures 0 <= JsRem60(sec) < 60
    ensures FormatDuration(sec) == IntToString(sec / 60) + "m " + IntToString(JsRem60(sec)) + "s"
  {
  }

  /** The duration a "<m>m <s>s" string stands for: `m` whole minutes plus
      `s` seconds, where a negative `s` (only printed for negative
      durations, whose minutes are rounded down) stands for `s + 60`. */
  function ParseDuration(t: string): Option<int>
  {
    if exists k :: 0 <= k < |t| && t[k] == 'm' then
      var k := FirstM(t);
      var rest := t[k + 1..];
      if |rest| >= 2 && rest[0] == ' ' && rest[|rest| - 1] == 's' then
        var m := ParseInt(t[..k]);
        var s := ParseInt(rest[1..|rest| - 1]);
        if m.Some? && s.Some? then
          Some(60 * m.value + s.value + (if s.value < 0 then 60 else 0))
        else None
      else None
    else None
  }

  /** The position of the first 'm' in `t`. */
  function FirstM(t: string): (k: nat)
    requires exists k :: 0 <= k < |t| && t[k] == 'm'
    ensures k < |t| && t[k] == 'm' && forall j :: 0 <= j < k ==> t[j] != 'm'
  {
    if t[0] == 'm' then 0
    else
      assert exists k :: 0 <= k < |t[1..]| && t[1..][k] == 'm' by {
        var k :| 0 <= k < |t| && t[k] == 'm';
        assert t[1..][k - 1] == t[k];
      }
      1 + FirstM(t[1..])
  }

  /** A printed integer holds no 'm'. */
  lemma NoMInInt(i: int)
    ensures forall j :: 0 <= j < |IntToString(i)| ==> IntToString(i)[j] != 'm'
  {
    var s := IntToString(i);
    if i < 0 {
      var d := NatToString(-i);
      assert s == "-" + d;
      forall j | 0 <= j < |s| ensures s[j] != 'm' {
        if j > 0 {
          assert s[j] == d[j - 1];
          assert IsDigit(d[j - 1]);
        }
      }
    } else {
      assert s == NatToString(i);
      forall j | 0 <= j < |s| ensures s[j] != 'm' {
        assert IsDigit(s[j]);
      }
    }
  }

  /** The first 'm' of "<a>m <b>s", where `a` holds none, ends `a`. */
  lemma FirstMAfter(a: string, b: string)
    requires forall j :: 0 <= j < |a| ==> a[j] != 'm'
    ensures var t := a + "m " + b + "s";
            && (exists k :: 0 <= k < |t| && t[k] == 'm')
            && FirstM(t) == |a|
            && t[..|a|] == a
            && t[|a| + 1..] == " " + b + "s"
  {
    var t := a + "m " + b + "s";
    assert t[|a|] == 'm';
    var k := FirstM(t);
    assert forall j :: 0 <= j < |a| ==> t[j] == a[j];
    assert t[..|a|] == a;
    assert t[|a| + 1..] == " " + b + "s";
  }

  /** Minutes rounded down and the sign-following remainder add back up to
      the duration, once a negative remainder is given its 60 back. */
  lemma DecodeParts(sec: int)
    ensures var r := JsRem60(sec);
            60 * (sec / 60) + r + (if r < 0 then 60 else 0) == sec
  {
  }

  /** "<a>m <b>s" parses to `a` minutes and `b` seconds when `a` holds no
      'm' and both parts are integers. */
  lemma ParseJoined(a: string, b: string, x: int, y: int)
    requires forall j :: 0 <= j < |a| ==> a[j] != 'm'
    requires ParseInt(a) == Some(x) && ParseInt(b) == Some(y)
    ensures ParseDuration(a + "m " + b + "s") == Some(60 * x + y + (if y < 0 then 60 else 0))
  {
    var t := a + "m " + b + "s";
    FirstMAfter(a, b);
    var rest := " " + b + "s";
    assert |rest| >= 2 && rest[0] == ' ' && rest[|rest| - 1] == 's';
    assert rest[1..|rest| - 1] == b;
  }

  /** Printed minutes `m` and seconds `r` read back as `m` minutes and `r`
      seconds. */
  lemma ParseParts(m: int, r: int)
    ensures ParseDuration(IntToString(m) + "m " + IntToString(r) + "s")
            == Some(60 * m + r + (if r < 0 then 60 else 0))
  {
    NoMInInt(m);
    ParseIntToString(m);
    ParseIntToString(r);
    ParseJoined(IntToString(m), IntToString(r), m, r);
  }

  /** Parsing the printed duration gives the duration back, for every
      integer: distinct durations print differently. */
  lemma ParseFormatDuration(sec: int)
    ensures ParseDuration(FormatDuration(sec)) == Some(sec)
  {
    var m, r := sec / 60, JsRem60(sec);
    assert 60 * m + r + (if r < 0 then 60 else 0) == sec by { DecodeParts(sec); }
    var t := IntToString(m) + "m " + IntToString(r) + "s";
    assert FormatDuration(sec) == t;
    ParseParts(m, r);
  }

  lemma FormatDurationInjective(a: int, b: int)
    requires FormatDuration(a) == FormatDuration(b)
    ensures a == b
  {
    ParseFormatDuration(a);
    ParseFormatDuration(b);
  }

  /** 125 seconds print as "2m 5s"; -61 seconds print as "-2m -1s". */
  lemma FormatDurationExamples()
    ensures FormatDuration(125) == "2m 5s"
    ensures FormatDuration(-61) == "-2m -1s"
  {
    assert NatToString(2) == "2";
    assert NatToString(5) == "5";
    assert NatToString(1) == "1";
  }
}
