/**
 * The time totals shown on a ticket's details page
 * (ViewModels/TicketDetailsViewModel.cs): the sum of the entries' durations
 * and its rendering as hours and minutes, together with a reader of that
 * rendering that recovers the total.
 */
module TimeTracking {
  import opened Wrappers
  import opened Models

  /** `TimeEntries.Sum(t => t.DurationMinutes)`, 0 when there are none. */
  function TotalMinutes(entries: seq<TimeEntry>): (total: int)
    ensures entries == [] ==> total == 0
    ensures (forall i :: 0 <= i < |entries| ==> entries[i].durationMinutes >= 0) ==>
              0 <= total && forall i :: 0 <= i < |entries| ==> entries[i].durationMinutes <= total
  {
    if entries == [] then 0
    else entries[0].durationMinutes + TotalMinutes(entries[1..])
  }

  /** Logging more time adds its minutes to the total. */
  lemma {:induction false} TotalMinutesAppend(a: seq<TimeEntry>, b: seq<TimeEntry>)
    ensures TotalMinutes(a + b) == TotalMinutes(a) + TotalMinutes(b)
  {
    if a != [] {
      assert (a + b)[1..] == a[1..] + b;
      TotalMinutesAppend(a[1..], b);
    } else {
      assert a + b == b;
    }
  }

  /** C#'s integer `/`: the quotient truncated toward zero. */
  function Quot(a: int, b: int): int
    requires b > 0
  {
    if a >= 0 then a / b else -((-a) / b)
  }

  /** C#'s integer `%`: the remainder carries the sign of the dividend. */
  function Rem(a: int, b: int): int
    requires b > 0
  {
    if a >= 0 then a % b else -((-a) % b)
  }

  function Hours(total: int): int { Quot(total, 60) }

  function Minutes(total: int): int { Rem(total, 60) }

  /** The hours and minutes shown always add back up to the total. */
  lemma HoursMinutesSplit(total: int)
    ensures Hours(total) * 60 + Minutes(total) == total
    ensures total >= 0 ==> Hours(total) >= 0 && 0 <= Minutes(total) < 60
    ensures total < 0 ==> Hours(total) <= 0 && -60 < Minutes(total) <= 0
  {
  }

  function DigitChar(d: int): char
    requires 0 <= d < 10
  {
    ('0' as int + d) as char
  }

  /** The decimal digits of `n`, most significant first. */
  function NatText(n: nat): string
  {
    if n < 10 then [DigitChar(n)] else NatText(n / 10) + [DigitChar(n % 10)]
  }

  /** `Int32.ToString()`: a minus sign before the digits of a negative number. */
  function IntText(n: int): string
  {
    if n < 0 then "-" + NatText(-n) else NatText(n)
  }

  /**
   * The `TotalTimeFormatted` getter, given `TotalMinutes`: the hours are
   * shown when there are any, the minutes when there are any or when there
   * are no hours.
   */
  function FormatTotal(total: int): (r: string)
    ensures 'h' in r <==> Hours(total) != 0
    ensures 'm' in r <==> Hours(total) == 0 || Minutes(total) != 0
  {
    IntTextChars(Hours(total));
    IntTextChars(Minutes(total));
    var hours := Hours(total);
    var minutes := Minutes(total);
    if hours == 0 then IntText(minutes) + "m"
    else if minutes == 0 then IntText(hours) + "h"
    else IntText(hours) + "h " + IntText(minutes) + "m"
  }

  lemma FormatExamples()
    ensures FormatTotal(0) == "0m"
    ensures FormatTotal(45) == "45m"
    ensures FormatTotal(120) == "2h"
    ensures FormatTotal(150) == "2h 30m"
  {
    assert Hours(45) == 0 && Minutes(45) == 45 && NatText(45) == "45";
    assert Hours(120) == 2 && Minutes(120) == 0;
    assert Hours(150) == 2 && Minutes(150) == 30 && NatText(30) == "30";
  }

  predicate IsDigit(c: char) { '0' <= c <= '9' }

  /** Reads a non-empty run of decimal digits. */
  function ParseNat(s: string): (r: Option<nat>)
    decreases |s|
  {
    if |s| == 0 || !IsDigit(s[|s| - 1]) then None
    else
      var d := s[|s| - 1] as int - '0' as int;
      if |s| == 1 then Some(d)
      else
        match ParseNat(s[..|s| - 1])
        case None => None
        case Some(v) => Some(v * 10 + d)
  }

  /** Reads an optionally negative decimal number. */
  function ParseInt(s: string): (r: Option<int>)
  {
    if |s| > 0 && s[0] == '-' then
      match ParseNat(s[1..])
      case None => None
      case Some(v) => Some(-(v as int))
    else
      match ParseNat(s)
      case None => None
      case Some(v) => Some(v as int)
  }

  /** The position of the first `c` in `s`. */
  function IndexOf(s: string, c: char): (r: Option<nat>)
    ensures r.None? <==> c !in s
    ensures r.Some? ==> r.value < |s| && s[r.value] == c
    ensures r.Some? ==> forall k :: 0 <= k < r.value ==> s[k] != c
  {
    if |s| == 0 then None
    else if s[0] == c then Some(0)
    else
      assert s == [s[0]] + s[1..];
      match IndexOf(s[1..], c)
      case None => None
      case Some(i) =>
        Some(i + 1)
  }

  lemma IndexOfAfterPrefix(a: string, c: char, b: string)
    requires c !in a
    ensures IndexOf(a + [c] + b, c) == Some(|a|)
  {
    var s := a + [c] + b;
    assert s[|a|] == c;
    var r := IndexOf(s, c);
    forall k | 0 <= k < |a| ensures s[k] != c {
      assert s[k] == a[k];
    }
  }

  /** Reads the text `FormatTotal` writes back as a number of minutes. */
  function ParseTotal(text: string): (r: Option<int>)
  {
    if |text| == 0 then None
    else
      var body := text[..|text| - 1];
      var unit := text[|text| - 1];
      if unit == 'h' then
        match ParseInt(body)
        case None => None
        case Some(h) => Some(h * 60)
      else if unit == 'm' then
        match IndexOf(body, 'h')
        case None => ParseInt(body)
        case Some(i) =>
          if i + 1 < |body| && body[i + 1] == ' ' then
            match (ParseInt(body[..i]), ParseInt(body[i + 2..]))
            case (Some(h), Some(m)) => Some(h * 60 + m)
            case _ => None
          else None
      else None
  }

  lemma {:induction false} NatTextDigits(n: nat)
    ensures |NatText(n)| > 0
    ensures forall i :: 0 <= i < |NatText(n)| ==> IsDigit(NatText(n)[i])
  {
    if n >= 10 {
      NatTextDigits(n / 10);
    }
  }

  lemma {:induction false} ParseNatText(n: nat)
    ensures ParseNat(NatText(n)) == Some(n)
  {
    var s := NatText(n);
    NatTextDigits(n);
    if n >= 10 {
      NatTextDigits(n / 10);
      ParseNatText(n / 10);
      assert s[..|s| - 1] == NatText(n / 10);
    }
  }

  /** The characters of a number's text: digits and a leading minus sign. */
  lemma IntTextChars(n: int)
    ensures |IntText(n)| > 0
    ensures forall c :: c in IntText(n) ==> c == '-' || IsDigit(c)
  {
    if n < 0 {
      NatTextDigits(-n);
    } else {
      NatTextDigits(n);
    }
  }

  lemma ParseIntText(n: int)
    ensures ParseInt(IntText(n)) == Some(n)
  {
    if n < 0 {
      ParseNatText(-n);
      assert IntText(n)[1..] == NatText(-n);
    } else {
      ParseNatText(n);
      NatTextDigits(n);
    }
  }

  /** The formatted total determines the total: reading it back gives the number. */
  lemma FormatTotalRoundTrip(total: int)
    ensures ParseTotal(FormatTotal(total)) == Some(total)
  {
    if Hours(total) == 0 {
      RoundTripMinutes(total);
    } else if Minutes(total) == 0 {
      RoundTripHours(total);
    } else {
      RoundTripHoursAndMinutes(total);
    }
  }

  lemma RoundTripMinutes(total: int)
    requires Hours(total) == 0
    ensures ParseTotal(FormatTotal(total)) == Some(total)
  {
    HoursMinutesSplit(total);
    ReadMinutesOnly(Minutes(total));
  }

  lemma RoundTripHours(total: int)
    requires Hours(total) != 0 && Minutes(total) == 0
    ensures ParseTotal(FormatTotal(total)) == Some(total)
  {
    HoursMinutesSplit(total);
    ReadHoursOnly(Hours(total));
  }

  lemma RoundTripHoursAndMinutes(total: int)
    requires Hours(total) != 0 && Minutes(total) != 0
    ensures ParseTotal(FormatTotal(total)) == Some(total)
  {
    var hours, minutes := Hours(total), Minutes(total);
    var text := IntText(hours) + "h " + IntText(minutes) + "m";
    HoursMinutesSplit(total);
    ReadHoursAndMinutes(hours, minutes);
    assert ParseTotal(text) == Some(total);
    assert FormatTotal(total) == text;
  }

  lemma ReadMinutesOnly(minutes: int)
    ensures ParseTotal(IntText(minutes) + "m") == Some(minutes)
  {
    var text := IntText(minutes) + "m";
    assert text[..|text| - 1] == IntText(minutes);
    IntTextChars(minutes);
    ParseIntText(minutes);
  }

  lemma ReadHoursOnly(hours: int)
    ensures ParseTotal(IntText(hours) + "h") == Some(hours * 60)
  {
    var text := IntText(hours) + "h";
    assert text[..|text| - 1] == IntText(hours);
    ParseIntText(hours);
  }

  lemma ReadHoursAndMinutes(hours: int, minutes: int)
    ensures ParseTotal(IntText(hours) + "h " + IntText(minutes) + "m") == Some(hours * 60 + minutes)
  {
    IntTextChars(hours);
    ParseIntText(hours);
    ParseIntText(minutes);
    ReadPair(IntText(hours), IntText(minutes), hours, minutes);
  }

  /** In "<h>h <m>", the first `h` ends the hours and a space follows it. */
  lemma SplitPair(x: string, y: string)
    requires 'h' !in x
    ensures var body := x + "h " + y;
            && IndexOf(body, 'h') == Some(|x|)
            && |x| + 1 < |body| && body[|x| + 1] == ' '
            && body[..|x|] == x && body[|x| + 2..] == y
  {
    var body := x + "h " + y;
    assert body == x + ['h'] + (" " + y);
    IndexOfAfterPrefix(x, 'h', " " + y);
  }

  /** Reading "<h>h <m>m" takes the hours up to the first `h` and the minutes after the space. */
  lemma ReadPair(x: string, y: string, h: int, m: int)
    requires 'h' !in x
    requires ParseInt(x) == Some(h) && ParseInt(y) == Some(m)
    ensures ParseTotal(x + "h " + y + "m") == Some(h * 60 + m)
  {
    var text := x + "h " + y + "m";
    assert text[..|text| - 1] == x + "h " + y;
    assert text[|text| - 1] == 'm';
    SplitPair(x, y);
  }

  /** Different totals are shown differently. */
  lemma FormatTotalInjective(a: int, b: int)
    requires FormatTotal(a) == FormatTotal(b)
    ensures a == b
  {
    FormatTotalRoundTrip(a);
    FormatTotalRoundTrip(b);
  }
}
