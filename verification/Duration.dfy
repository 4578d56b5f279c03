/** Duration labels of the progress view (CliHelpers.FormatDuration), on integer milliseconds. */
module Duration {
  import opened Common

  /** `{seconds:F1}` of `ms / 1000`: tenths of a second, rounded half up. */
  function RoundedTenths(ms: nat): nat
  {
    (ms + 50) / 100
  }

  /** "{h}h {m}m {s}": the label from one hour on, without its trailing "s". */
  function HoursText(h: nat, m: nat, s: nat): string
  {
    NatToString(h) + ['h'] + (" " + (NatToString(m) + "m " + NatToString(s)))
  }

  /** "{m}m {s}": the label from one minute on, without its trailing "s". */
  function MinutesText(m: nat, s: nat): string
  {
    NatToString(m) + "m " + NatToString(s)
  }

  /** "{w}.{f}": tenths of a second with one decimal, without the trailing "s". */
  function TenthsText(t: nat): string
  {
    NatToString(t / 10) + "." + [DigitChar(t % 10)]
  }

  /** "--" for a negative duration, "{h}h {m}m {s}s" from one hour on, "{totalMinutes}m {s}s"
      from one minute on, and one decimal of seconds below that. */
  function FormatDuration(ms: int): (r: string)
    ensures r == "--" <==> ms < 0
    ensures ms >= 0 ==> |r| >= 2 && r[|r| - 1] == 's' && IsDigit(r[0])
  {
    if ms < 0 then "--"
    else
      var secs := ms / 1000;
      if ms >= 3600000 then HoursText(secs / 3600, secs / 60 % 60, secs % 60) + "s"
      else if ms >= 60000 then MinutesText(secs / 60, secs % 60) + "s"
      else TenthsText(RoundedTenths(ms)) + "s"
  }

  /** The three magnitudes of the label, on the values given as examples for the view. */
  lemma FormatDurationSeconds()
    ensures FormatDuration(45000) == "45.0s"
  {
    assert RoundedTenths(45000) == 450;
    assert NatToString(45) == "45";
  }

  lemma FormatDurationTenths()
    ensures FormatDuration(12500) == "12.5s"
  {
    assert RoundedTenths(12500) == 125;
    assert NatToString(12) == "12";
  }

  lemma FormatDurationMinutes()
    ensures FormatDuration(125000) == "2m 5s"
  {
    assert NatToString(2) == "2" && NatToString(5) == "5";
  }

  lemma FormatDurationHours()
    ensures FormatDuration(3725000) == "1h 2m 5s"
  {
    assert 3725000 / 1000 == 3725;
    assert 3725 / 3600 == 1 && 3725 / 60 % 60 == 2 && 3725 % 60 == 5;
    assert NatToString(1) == "1" && NatToString(2) == "2" && NatToString(5) == "5";
  }

  /** "{m}m {s}" read back as whole seconds. */
  function ParseMinutes(body: string): Option<nat>
  {
    match SplitOnce(body, 'm')
    case None => None
    case Some((m, rest)) =>
      if |rest| == 0 || rest[0] != ' ' || ParseNat(m).None? || ParseNat(rest[1..]).None? then None
      else Some(ParseNat(m).value * 60 + ParseNat(rest[1..]).value)
  }

  /** "{h}h {m}m {s}" read back as whole seconds. */
  function ParseHours(body: string): Option<nat>
  {
    match SplitOnce(body, 'h')
    case None => None
    case Some((h, rest)) => HoursAfter(h, rest)
  }

  /** The hours `h` and what follows the 'h': a space, then minutes and seconds. */
  function HoursAfter(h: string, rest: string): Option<nat>
  {
    if |rest| == 0 || rest[0] != ' ' || ParseNat(h).None? || ParseMinutes(rest[1..]).None? then None
    else Some(ParseNat(h).value * 3600 + ParseMinutes(rest[1..]).value)
  }

  /** "{w}.{f}" read back as tenths of a second. */
  function ParseTenths(body: string): Option<nat>
  {
    match SplitOnce(body, '.')
    case None => None
    case Some((whole, frac)) =>
      if |frac| != 1 || ParseNat(whole).None? || ParseNat(frac).None? then None
      else Some(ParseNat(whole).value * 10 + ParseNat(frac).value)
  }

  /** Reads a label back as tenths of a second: the inverse of FormatDuration up to the
      precision the label keeps. */
  function ParseDuration(s: string): Option<nat>
  {
    if |s| == 0 || s[|s| - 1] != 's' then None
    else
      var body := s[..|s| - 1];
      if 'h' in body then
        (match ParseHours(body) case Some(secs) => Some(secs * 10) case None => None)
      else if 'm' in body then
        (match ParseMinutes(body) case Some(secs) => Some(secs * 10) case None => None)
      else ParseTenths(body)
  }

  lemma HourSplit(secs: nat)
    ensures secs == (secs / 3600) * 3600 + (secs / 60 % 60) * 60 + secs % 60
  {
    var q := secs / 60;
    assert secs == q * 60 + secs % 60;
    assert q == (q / 60) * 60 + q % 60;
    assert q / 60 == secs / 3600;
  }

  lemma {:induction false} ParseMinutesOf(m: nat, s: nat)
    ensures ParseMinutes(NatToString(m) + "m " + NatToString(s)) == Some(m * 60 + s)
  {
    var mm, ss := NatToString(m), NatToString(s);
    NoDigitIsSeparator(m, 'm');
    assert mm + "m " + ss == mm + ['m'] + (" " + ss);
    SplitOnceAt(mm, 'm', " " + ss);
    assert (" " + ss)[1..] == ss;
    ParseNatToString(m);
    ParseNatToString(s);
  }

  lemma ParseHoursStep(p: string, t: string, hv: nat, mv: nat, text: string, total: nat)
    requires 'h' !in p && ParseNat(p) == Some(hv) && ParseMinutes(t) == Some(mv)
    requires text == p + ['h'] + (" " + t) && total == hv * 3600 + mv
    ensures ParseHours(text) == Some(total)
  {
    ParseHoursSplit(p, " " + t, text);
    HoursAfterOf(p, t, hv, mv, " " + t, total);
  }

  /** Text with no 'h' before the first one splits there. */
  lemma ParseHoursSplit(p: string, rest: string, text: string)
    requires 'h' !in p && text == p + ['h'] + rest
    ensures ParseHours(text) == HoursAfter(p, rest)
  {
    SplitOnceAt(p, 'h', rest);
  }

  lemma HoursAfterOf(p: string, t: string, hv: nat, mv: nat, rest: string, total: nat)
    requires ParseNat(p) == Some(hv) && ParseMinutes(t) == Some(mv)
    requires rest == " " + t && total == hv * 3600 + mv
    ensures HoursAfter(p, rest) == Some(total)
  {
    assert |rest| > 0 && rest[0] == ' ' && rest[1..] == t;
  }

  lemma {:induction false} ParseTenthsOf(t: nat)
    ensures ParseTenths(TenthsText(t)) == Some(t)
  {
    var w, f := NatToString(t / 10), [DigitChar(t % 10)];
    NoDigitIsSeparator(t / 10, '.');
    assert w + "." + f == w + ['.'] + f;
    SplitOnceAt(w, '.', f);
    ParseNatToString(t / 10);
    assert f == NatToString(t % 10);
    ParseNatToString(t % 10);
  }

  lemma HoursTextParses(h: nat, m: nat, s: nat, secs: nat)
    requires secs == h * 3600 + m * 60 + s
    ensures 'h' in HoursText(h, m, s) && ParseHours(HoursText(h, m, s)) == Some(secs)
  {
    var hs := NatToString(h);
    assert HoursText(h, m, s)[|hs|] == 'h';
    NoDigitIsSeparator(h, 'h');
    ParseNatToString(h);
    ParseMinutesOf(m, s);
    ParseHoursStep(hs, NatToString(m) + "m " + NatToString(s), h, m * 60 + s, HoursText(h, m, s), secs);
  }

  lemma ParseHoursBody(r: string, body: string, secs: nat)
    requires r == body + "s" && 'h' in body && ParseHours(body) == Some(secs)
    ensures ParseDuration(r) == Some(secs * 10)
  {
    assert r[..|r| - 1] == body;
  }

  /** The hours, minutes and seconds a label from one hour on prints, and their sum. */
  lemma HoursParts(ms: int) returns (h: nat, m: nat, s: nat)
    requires ms >= 3600000
    ensures FormatDuration(ms) == HoursText(h, m, s) + "s" && h * 3600 + m * 60 + s == ms / 1000
  {
    var secs := ms / 1000;
    h, m, s := secs / 3600, secs / 60 % 60, secs % 60;
    HourSplit(secs);
  }

  /** The label from one hour on, as "{body}s" with a body that reads back as the whole
      seconds. */
  lemma HoursLabel(ms: int) returns (body: string)
    requires ms >= 3600000
    ensures FormatDuration(ms) == body + "s" && 'h' in body && ParseHours(body) == Some(ms / 1000)
  {
    var h, m, s := HoursParts(ms);
    HoursTextParses(h, m, s, ms / 1000);
    body := HoursText(h, m, s);
  }

  lemma ParseFormatHours(ms: int)
    requires ms >= 3600000
    ensures ParseDuration(FormatDuration(ms)) == Some(ms / 1000 * 10)
  {
    var body := HoursLabel(ms);
    ParseHoursBody(FormatDuration(ms), body, ms / 1000);
  }

  lemma MinutesTextParses(m: nat, s: nat, secs: nat)
    requires secs == m * 60 + s
    ensures 'h' !in MinutesText(m, s) && 'm' in MinutesText(m, s)
    ensures ParseMinutes(MinutesText(m, s)) == Some(secs)
  {
    NoDigitIsSeparator(m, 'h');
    NoDigitIsSeparator(s, 'h');
    assert MinutesText(m, s)[|NatToString(m)|] == 'm';
    ParseMinutesOf(m, s);
  }

  /** The minutes and seconds a label from one minute to one hour prints, and their sum. */
  lemma MinutesParts(ms: int) returns (m: nat, s: nat)
    requires 60000 <= ms < 3600000
    ensures FormatDuration(ms) == MinutesText(m, s) + "s" && m * 60 + s == ms / 1000
  {
    var secs := ms / 1000;
    m, s := secs / 60, secs % 60;
  }

  lemma ParseMinutesBody(r: string, body: string, secs: nat)
    requires r == body + "s" && 'h' !in body && 'm' in body && ParseMinutes(body) == Some(secs)
    ensures ParseDuration(r) == Some(secs * 10)
  {
    assert r[..|r| - 1] == body;
  }

  /** The label from one minute to one hour, as "{body}s" with a body that reads back as
      the whole seconds. */
  lemma MinutesLabel(ms: int) returns (body: string)
    requires 60000 <= ms < 3600000
    ensures FormatDuration(ms) == body + "s" && 'h' !in body && 'm' in body && ParseMinutes(body) == Some(ms / 1000)
  {
    var m, s := MinutesParts(ms);
    MinutesTextParses(m, s, ms / 1000);
    body := MinutesText(m, s);
  }

  lemma ParseFormatMinutes(ms: int)
    requires 60000 <= ms < 3600000
    ensures ParseDuration(FormatDuration(ms)) == Some(ms / 1000 * 10)
  {
    var body := MinutesLabel(ms);
    ParseMinutesBody(FormatDuration(ms), body, ms / 1000);
  }

  lemma {:induction false} ParseFormatSeconds(ms: int)
    requires 0 <= ms < 60000
    ensures ParseDuration(FormatDuration(ms)) == Some(RoundedTenths(ms))
  {
    var t := RoundedTenths(ms);
    var r := FormatDuration(ms);
    var body := TenthsText(t);
    assert r == body + "s";
    assert r[..|r| - 1] == body;
    NoDigitIsSeparator(t / 10, 'h');
    NoDigitIsSeparator(t / 10, 'm');
    assert 'h' !in body && 'm' !in body;
    ParseTenthsOf(t);
  }

  /** The label denotes the duration: whole seconds from one minute on, rounded tenths below. */
  lemma {:induction false} ParseFormatDuration(ms: int)
    ensures ParseDuration(FormatDuration(ms))
            == if ms < 0 then None
               else if ms >= 60000 then Some(ms / 1000 * 10)
               else Some(RoundedTenths(ms))
  {
    if ms >= 3600000 {
      ParseFormatHours(ms);
    } else if ms >= 60000 {
      ParseFormatMinutes(ms);
    } else if ms >= 0 {
      ParseFormatSeconds(ms);
    }
  }
}
