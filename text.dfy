/** The few pieces of text formatting the core does: decimal numbers as Swift's
    string interpolation prints them, `%02d`, and the "{h}h {m}m" duration
    style. Each renderer has a reader beside it, and the lemmas show the
    reader recovers the number that was rendered. */
module Text {
  import opened Basics

  predicate IsDigit(c: char) {
    '0' <= c <= '9'
  }

  predicate AllDigits(s: string) {
    forall i :: 0 <= i < |s| ==> IsDigit(s[i])
  }

  function DigitChar(d: int): (c: char)
    requires 0 <= d <= 9
    ensures IsDigit(c) && c as int - '0' as int == d
  {
    ('0' as int + d) as char
  }

  /** Decimal digits of `n`, most significant first, no leading zeros. */
  function NatToString(n: nat): (s: string)
    ensures |s| >= 1 && AllDigits(s)
    ensures |s| > 1 ==> s[0] != '0'
    decreases n
  {
    if n < 10 then [DigitChar(n)] else NatToString(n / 10) + [DigitChar(n % 10)]
  }

  /** `"\(i)"` for an `Int`: a minus sign, then the digits. */
  function IntToString(i: int): (s: string)
    ensures |s| >= 1 && (s[0] == '-' <==> i < 0)
  {
    if i < 0 then "-" + NatToString(-i) else NatToString(i)
  }

  /** The number a string of digits denotes. */
  function DigitsValue(s: string): nat
    requires AllDigits(s)
    decreases |s|
  {
    if s == [] then 0 else 10 * DigitsValue(s[..|s| - 1]) + (s[|s| - 1] as int - '0' as int)
  }

  lemma {:induction false} DigitsValueOfNatToString(n: nat)
    ensures DigitsValue(NatToString(n)) == n
    decreases n
  {
    if n >= 10 {
      var s := NatToString(n / 10);
      var t := s + [DigitChar(n % 10)];
      assert t[..|t| - 1] == s;
      DigitsValueOfNatToString(n / 10);
    }
  }

  /** How many characters at the front of `s` are digits. */
  function LeadingDigits(s: string): (k: nat)
    ensures k <= |s|
  {
    if s == [] || !IsDigit(s[0]) then 0 else 1 + LeadingDigits(s[1..])
  }

  /** The leading digits are digits, and the character after them is not. */
  lemma {:induction false} LeadingDigitsAt(s: string)
    ensures forall i :: 0 <= i < LeadingDigits(s) ==> IsDigit(s[i])
    ensures LeadingDigits(s) < |s| ==> !IsDigit(s[LeadingDigits(s)])
    decreases |s|
  {
    if s != [] && IsDigit(s[0]) {
      LeadingDigitsAt(s[1..]);
    }
  }

  lemma {:induction false} LeadingDigitsOfDigits(s: string, rest: string)
    requires AllDigits(s)
    requires rest == [] || !IsDigit(rest[0])
    ensures LeadingDigits(s + rest) == |s|
    decreases |s|
  {
    if s != [] {
      assert (s + rest)[1..] == s[1..] + rest;
      LeadingDigitsOfDigits(s[1..], rest);
    }
  }

  /** Reads a natural number written in decimal at the front of `s`; gives the
      number and what follows it, or `None` when `s` does not start with a
      digit. */
  function ReadNat(s: string): (r: Option<(nat, string)>)
    ensures r.None? <==> (s == [] || !IsDigit(s[0]))
    ensures r.Some? ==> |r.value.1| < |s|
  {
    var k := LeadingDigits(s);
    LeadingDigitsAt(s);
    if k == 0 then None else Some((DigitsValue(s[..k]), s[k..]))
  }

  /** Reads an `Int` as `IntToString` writes it: an optional minus sign, then
      digits. */
  function ReadInt(s: string): Option<(int, string)> {
    if |s| > 0 && s[0] == '-' then
      match ReadNat(s[1..])
      case None => None
      case Some((n, rest)) => Some((-(n as int), rest))
    else
      match ReadNat(s)
      case None => None
      case Some((n, rest)) => Some((n as int, rest))
  }

  lemma ReadNatOfNatToString(n: nat, rest: string)
    requires rest == [] || !IsDigit(rest[0])
    ensures ReadNat(NatToString(n) + rest) == Some((n, rest))
  {
    var s := NatToString(n);
    LeadingDigitsOfDigits(s, rest);
    assert (s + rest)[..|s|] == s;
    assert (s + rest)[|s|..] == rest;
    DigitsValueOfNatToString(n);
  }

  /** Reading back a rendered `Int` gives the same `Int` and leaves the text
      after it untouched. */
  lemma ReadIntOfIntToString(i: int, rest: string)
    requires rest == [] || !IsDigit(rest[0])
    ensures ReadInt(IntToString(i) + rest) == Some((i, rest))
  {
    var s := IntToString(i) + rest;
    if i < 0 {
      var n: nat := -i;
      assert |s| > 0 && s[0] == '-' && s[1..] == NatToString(n) + rest by {
        assert s == ['-'] + (NatToString(n) + rest);
      }
      ReadNatOfNatToString(n, rest);
    } else {
      assert s == NatToString(i) + rest;
      assert |s| > 0 && s[0] != '-' by {
        assert s[0] == NatToString(i)[0];
      }
      ReadNatOfNatToString(i, rest);
    }
  }

  /** `String(format: "%02d", n)` for `n >= 0`: at least two digits, padded
      with a leading zero. */
  function Pad2(n: nat): (s: string)
    ensures |s| >= 2 && AllDigits(s)
  {
    if n < 10 then "0" + NatToString(n) else NatToString(n)
  }

  lemma ReadNatOfPad2(n: nat, rest: string)
    requires rest == [] || !IsDigit(rest[0])
    ensures ReadNat(Pad2(n) + rest) == Some((n, rest))
  {
    if n < 10 {
      var s := "0" + NatToString(n);
      LeadingDigitsOfDigits(s, rest);
      assert (s + rest)[..|s|] == s;
      assert (s + rest)[|s|..] == rest;
      assert s[..1] == "0";
      assert DigitsValue(s[..1]) == 0 by {
        assert s[..1][..0] == [];
      }
    } else {
      ReadNatOfNatToString(n, rest);
    }
  }

  /** The app's duration style, written the same way in every file that
      shows a minute count: `hours = mins / 60`, `minutes = mins % 60`
      (both truncating), then "{hours}h {minutes}m" when `hours > 0`, else
      "{minutes}m". */
  function HoursMinutes(mins: int): string {
    var h := TruncDiv(mins, 60);
    var m := TruncRem(mins, 60);
    if h > 0 then IntToString(h) + "h " + IntToString(m) + "m" else IntToString(m) + "m"
  }

  /** Reads "{h}h {m}m" or "{m}m" back to a minute count. */
  function ParseHoursMinutes(s: string): Option<int> {
    match ReadInt(s)
    case None => None
    case Some((a, rest)) =>
      if rest == "m" then Some(a)
      else if |rest| >= 2 && rest[..2] == "h " then
        match ReadInt(rest[2..])
        case None => None
        case Some((b, tail)) => if tail == "m" then Some(60 * a + b) else None
      else None
  }

  /** `ParseHoursMinutes` in terms of what its two reads find. */
  lemma ParseHoursThenMinutes(s: string, rest: string, a: int, b: int)
    requires ReadInt(s) == Some((a, "h " + rest))
    requires ReadInt(rest) == Some((b, "m"))
    ensures ParseHoursMinutes(s) == Some(60 * a + b)
  {
    var tail := "h " + rest;
    assert tail != "m" by { assert tail[0] == 'h'; }
    assert |tail| >= 2 && tail[..2] == "h " && tail[2..] == rest;
  }

  /** Reading back "{h}h {m}m". */
  lemma ReadHoursAndMinutes(h: int, m: int)
    requires h > 0
    ensures ParseHoursMinutes(IntToString(h) + "h " + IntToString(m) + "m") == Some(60 * h + m)
  {
    var rest := IntToString(m) + "m";
    assert IntToString(h) + "h " + IntToString(m) + "m" == IntToString(h) + ("h " + rest);
    ReadIntOfIntToString(h, "h " + rest);
    ReadIntOfIntToString(m, "m");
    ParseHoursThenMinutes(IntToString(h) + ("h " + rest), rest, h, m);
  }

  /** Reading back "{m}m". */
  lemma ReadMinutesOnly(m: int)
    ensures ParseHoursMinutes(IntToString(m) + "m") == Some(m)
  {
    ReadIntOfIntToString(m, "m");
  }

  /** The duration style loses nothing for any count above -60: reading it
      back gives the count. From -60 down, `hours` is negative, only the
      remainder is printed, and the whole hours are lost. */
  lemma HoursMinutesRoundTrip(mins: int)
    ensures ParseHoursMinutes(HoursMinutes(mins))
         == Some(if mins <= -60 then TruncRem(mins, 60) else mins)
  {
    var h := TruncDiv(mins, 60);
    var m := TruncRem(mins, 60);
    if h > 0 {
      ReadHoursAndMinutes(h, m);
    } else {
      ReadMinutesOnly(m);
      assert -60 < mins ==> h == 0;
    }
  }

  /** `String(format: "%02d:%02d", elapsed / 60, elapsed % 60)`. */
  function TimerText(elapsed: nat): (s: string)
  {
    Pad2(elapsed / 60) + ":" + Pad2(elapsed % 60)
  }

  /** Reads "mm:ss" (minutes may run past two digits) back to seconds. */
  function ParseTimer(s: string): Option<int> {
    match ReadNat(s)
    case None => None
    case Some((m, rest)) =>
      if |rest| >= 1 && rest[0] == ':' then
        match ReadNat(rest[1..])
        case None => None
        case Some((sec, tail)) => if tail == [] && sec < 60 then Some(60 * m + sec) else None
      else None
  }

  lemma TimerRoundTrip(elapsed: nat)
    ensures ParseTimer(TimerText(elapsed)) == Some(elapsed)
  {
    var minutes, seconds := elapsed / 60, elapsed % 60;
    assert elapsed == 60 * minutes + seconds && seconds < 60;
    var tail := ":" + Pad2(seconds);
    assert TimerText(elapsed) == Pad2(minutes) + tail;
    ReadNatOfPad2(minutes, tail);
    assert tail[1..] == Pad2(seconds) + [];
    ReadNatOfPad2(seconds, []);
  }

  /** The English plural the app appends: "s" for every count but 1. */
  function Plural(n: int): string {
    if n == 1 then "" else "s"
  }

  /** "{n} {unit}" or "{n} {unit}s", as in "1 month" and "3 days". */
  function CountText(n: int, unit: string): string {
    IntToString(n) + " " + unit + Plural(n)
  }

  /** Reads a count and the unit word, accepting only the form `CountText`
      would write for that count. */
  function ReadCount(s: string, unit: string): Option<(int, string)> {
    match ReadInt(s)
    case None => None
    case Some((n, rest)) =>
      var word := " " + unit + Plural(n);
      if |word| <= |rest| && rest[..|word|] == word then Some((n, rest[|word|..])) else None
  }

  lemma ReadCountOfCountText(n: int, unit: string, rest: string)
    ensures ReadCount(CountText(n, unit) + rest, unit) == Some((n, rest))
  {
    var word := " " + unit + Plural(n);
    assert CountText(n, unit) + rest == IntToString(n) + (word + rest);
    ReadIntOfIntToString(n, word + rest);
    assert (word + rest)[..|word|] == word;
    assert (word + rest)[|word|..] == rest;
  }
}
