/**
 * The start and end times of a VideoAlpha module: `_parse_time` reads
 * `H:M:S` into seconds, and `str(datetime.timedelta(seconds=n))` is what
 * `export_to_xml` writes back.
 */
module VideoTime {
  import opened Wrappers
  import opened XmlTree

  /** One field of `time.strptime(v, '%H:%M:%S')`: one or two digits, at most `max`. */
  predicate TimeField(p: string, max: nat)
  {
    1 <= |p| <= 2 && AllDigits(p) && DigitsValue(p) <= max
  }

  /** The latest time `%H:%M:%S` accepts, 23:59:61 (`%S` allows two leap seconds). */
  const LatestTime: nat := 23 * 3600 + 59 * 60 + 61

  /** What `_parse_time` returns: the empty string for an empty time, or a number of seconds. */
  datatype Parsed = Empty | Seconds(seconds: nat)

  /**
   * `_parse_time(v)`: `''` stays `''`; otherwise exactly three `:`-separated
   * fields of one or two digits, hours at most 23, minutes at most 59 and
   * seconds at most 61, give the total in seconds; anything else raises
   * `ValueError`, which `Err` carries as the offending text.
   */
  function ParseTime(v: string): (r: Result<Parsed, string>)
    ensures r.Ok? && r.value.Seconds? ==> v != "" && r.value.seconds <= LatestTime
    ensures r == Ok(Empty) <==> v == ""
    ensures r.Err? ==> r.error == v
  {
    if v == "" then Ok(Empty) else ReadFields(v, Split(v, ':'))
  }

  /** The fields `v` splits into, read as hours, minutes and seconds, or `v` itself as the error. */
  function ReadFields(v: string, parts: seq<string>): (r: Result<Parsed, string>)
    ensures r.Ok? ==> r.value.Seconds? && r.value.seconds <= LatestTime
    ensures r.Err? ==> r.error == v
  {
    if |parts| == 3 && TimeField(parts[0], 23) && TimeField(parts[1], 59) && TimeField(parts[2], 61)
    then Ok(Seconds(DigitsValue(parts[0]) * 3600 + DigitsValue(parts[1]) * 60 + DigitsValue(parts[2])))
    else Err(v)
  }

  /** Two digits with a leading zero, as `timedelta` writes minutes and seconds. */
  function TwoDigits(n: nat): (r: string)
    requires n < 100
    ensures |r| == 2 && AllDigits(r) && DigitsValue(r) == n
  {
    var r := [('0' as int + n / 10) as char, ('0' as int + n % 10) as char];
    DigitsValueSmall(r);
    r
  }

  /** Minutes and seconds of a `timedelta`, both with two digits. */
  function MinutesSeconds(n: nat): string
    requires n < 3600
  {
    TwoDigits(n / 60) + ":" + TwoDigits(n % 60)
  }

  /** The clock part of a `timedelta`: hours without padding, then two-digit minutes and seconds. */
  function Clock(n: nat): string
    requires n < 86400
  {
    NatToString(n / 3600) + ":" + MinutesSeconds(n % 3600)
  }

  /** `str(datetime.timedelta(seconds=n))` for a whole number of seconds: `H:MM:SS`, after `D day, ` or `D days, ` from one day on. */
  function FormatDelta(n: nat): string
  {
    if n < 86400 then Clock(n)
    else
      var days := n / 86400;
      NatToString(days) + (if days == 1 then " day, " else " days, ") + Clock(n % 86400)
  }

  /** Three `:`-free fields joined by `:` split back into those fields. */
  lemma SplitClock(h: string, m: string, s: string)
    requires ':' !in h && ':' !in m && ':' !in s
    ensures Split(h + ":" + (m + ":" + s), ':') == [h, m, s]
  {
    SplitAfterPiece(h, ':', m + ":" + s);
    SplitAfterPiece(m, ':', s);
    SplitNoSep(s, ':');
  }

  /** Three two-digit fields are read field by field and checked against their limits. */
  lemma ParseClock(h: string, m: string, s: string)
    requires |h| == 2 && |m| == 2 && |s| == 2 && AllDigits(h) && AllDigits(m) && AllDigits(s)
    ensures DigitsValue(h) <= 23 && DigitsValue(m) <= 59 && DigitsValue(s) <= 61 ==>
      ParseTime(h + ":" + (m + ":" + s)) == Ok(Seconds(DigitsValue(h) * 3600 + DigitsValue(m) * 60 + DigitsValue(s)))
    ensures DigitsValue(h) > 23 ==> ParseTime(h + ":" + (m + ":" + s)).Err?
  {
    var v := h + ":" + (m + ":" + s);
    assert v != "" by {
      assert |v| == 8;
    }
    assert Split(v, ':') == [h, m, s] by {
      DigitsNoColon(h);
      DigitsNoColon(m);
      DigitsNoColon(s);
      SplitClock(h, m, s);
    }
    ParseFields(v, h, m, s);
  }

  /** Text that splits into three fields is read field by field. */
  lemma ParseFields(v: string, h: string, m: string, s: string)
    requires v != "" && Split(v, ':') == [h, m, s]
    ensures TimeField(h, 23) && TimeField(m, 59) && TimeField(s, 61) ==>
      ParseTime(v) == Ok(Seconds(DigitsValue(h) * 3600 + DigitsValue(m) * 60 + DigitsValue(s)))
    ensures !(TimeField(h, 23) && TimeField(m, 59) && TimeField(s, 61)) ==> ParseTime(v) == Err(v)
  {
  }

  /** Digits hold no `:`. */
  lemma DigitsNoColon(d: string)
    requires AllDigits(d)
    ensures ':' !in d
  {
  }

  /** A time shorter than a day is written so that `_parse_time` reads it back. */
  lemma TimeRoundTrip(n: nat)
    requires n < 86400
    ensures ParseTime(FormatDelta(n)) == Ok(Seconds(n))
  {
    var r := n % 3600;
    var h, m, s := NatToString(n / 3600), TwoDigits(r / 60), TwoDigits(r % 60);
    assert Split(FormatDelta(n), ':') == [h, m, s] by {
      DigitsNoColon(h);
      DigitsNoColon(m);
      DigitsNoColon(s);
      SplitClock(h, m, s);
    }
    assert n / 3600 <= 23;
    assert r / 60 * 60 + r % 60 == r;
    assert n / 3600 * 3600 + r == n;
  }

  /** A time whose first field is longer than two characters is rejected. */
  lemma LongFieldRejected(v: string)
    requires |Split(v, ':')[0]| > 2
    ensures ParseTime(v).Err?
  {
  }

  /** Text without `:` followed by a clock splits at `:` into that text and the hours, then the rest. */
  lemma ClockSplit(pre: string, c: nat)
    requires c < 86400 && ':' !in pre
    ensures |Split(pre + Clock(c), ':')[0]| > |pre|
  {
    var h := NatToString(c / 3600);
    DigitsNoColon(h);
    FirstPieceLonger(pre, h, MinutesSeconds(c % 3600));
  }

  /** A non-empty `:`-free piece after `:`-free text lengthens the first field. */
  lemma FirstPieceLonger(pre: string, h: string, rest: string)
    requires ':' !in pre && ':' !in h && |h| >= 1
    ensures |Split(pre + (h + ":" + rest), ':')[0]| > |pre|
  {
    assert pre + (h + ":" + rest) == (pre + h) + [':'] + rest;
    SplitAfterPiece(pre + h, ':', rest);
  }

  /**
   * A time of a day or more is written with its days first, which
   * `_parse_time` rejects, so such a time does not survive an export and a
   * re-import.
   */
  lemma LongTimeRejected(n: nat)
    requires n >= 86400
    ensures ParseTime(FormatDelta(n)).Err?
  {
    var days := n / 86400;
    var pre := NatToString(days) + (if days == 1 then " day, " else " days, ");
    assert ':' !in pre by {
      DigitsNoColon(NatToString(days));
    }
    ClockSplit(pre, n % 86400);
    LongFieldRejected(FormatDelta(n));
  }

  /** The times of the module's test data. */
  lemma TimeExamples()
    ensures ParseTime("01" + ":" + ("00" + ":" + "03")) == Ok(Seconds(3603))
    ensures ParseTime("01" + ":" + ("00" + ":" + "10")) == Ok(Seconds(3610))
    ensures ParseTime("") == Ok(Empty)
    ensures ParseTime("24" + ":" + ("00" + ":" + "00")).Err?
  {
    OneHourExample("03", 3);
    OneHourExample("10", 10);
    DigitsValueSmall("24");
    DigitsValueSmall("00");
    ParseClock("24", "00", "00");
  }

  /** One hour, no minutes and `s` seconds. */
  lemma OneHourExample(s: string, n: nat)
    requires |s| == 2 && AllDigits(s) && DigitsValue(s) == n <= 59
    ensures ParseTime("01" + ":" + ("00" + ":" + s)) == Ok(Seconds(3600 + n))
  {
    DigitsValueSmall("00");
    DigitsValueSmall("01");
    ParseClock("01", "00", s);
  }
}
