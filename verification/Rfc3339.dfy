/**
 `parse_rfc3339` and `offset_secs` of `agent_usage.rs`, and the instants they read back: the
 date-time of section 5.6 of RFC 3339 in each of its spellings.
 */
module Rfc3339 {
  import opened Prelude
  import opened Text
  import opened Calendar

  predicate IsDigit(c: char) {
    '0' <= c <= '9'
  }

  predicate AllDigits(s: string) {
    forall i | 0 <= i < |s| :: IsDigit(s[i])
  }

  function DigitsValue(s: string): nat
    requires AllDigits(s)
  {
    if s == "" then 0 else DigitsValue(s[..|s| - 1]) * 10 + (s[|s| - 1] as int - '0' as int)
  }

  const I64_MAX: int := 0x7fff_ffff_ffff_ffff

  /** Rust's `str::parse::<i64>`: an optional sign, then digits, in range. */
  function ParseI64(s: string): Option<int> {
    var signed := s != "" && (s[0] == '+' || s[0] == '-');
    var digits := if signed then s[1..] else s;
    if digits == "" || !AllDigits(digits) then None
    else
      var n: int := DigitsValue(digits) * (if signed && s[0] == '-' then -1 else 1);
      if -I64_MAX - 1 <= n <= I64_MAX then Some(n) else None
  }

  function OffsetSecs(text: string): Option<int>
    requires text != ""
  {
    var sign := if text[0] == '-' then -1 else 1;
    var body := text[1..];
    var hm := if SplitOnce(body, ':').Some? then SplitOnce(body, ':').value
              else if |body| == 4 then (body[..2], body[2..]) else (body, "0");
    var h, m := ParseI64(hm.0), ParseI64(hm.1);
    if h.None? || m.None? then None else Some(sign * (h.value * 3600 + m.value * 60))
  }

  function TrimEndZ(s: string): (r: string)
    ensures r <= s
  {
    if s != "" && s[|s| - 1] == 'Z' then TrimEndZ(s[..|s| - 1]) else s
  }

  /** Where a sign first occurs, or the length. */
  function SignIndex(s: string): (i: nat)
    ensures i <= |s|
  {
    if s == "" || s[0] == '+' || s[0] == '-' then 0 else 1 + SignIndex(s[1..])
  }

  function ParseTime(time: string, offset: int): Option<int> {
    var parts := Split(time, ':');
    if |parts| < 2 then None
    else
      var hour, minute := ParseI64(parts[0]), ParseI64(parts[1]);
      var second := ParseI64(Split(if |parts| > 2 then parts[2] else "0", '.')[0]);
      if hour.None? || minute.None? then None
      else Some(hour.value * 3600 + minute.value * 60 + (if second.Some? then second.value else 0) - offset)
  }

  function ParseClock(rest: string): Option<int> {
    var time := TrimEndZ(rest);
    var i := SignIndex(time);
    if 0 < i < |time| then
      var offset := OffsetSecs(time[i..]);
      if offset.None? then None else ParseTime(time[..i], offset.value)
    else ParseTime(time, 0)
  }

  function ParseRfc3339(raw: string): Option<int> {
    var text := Trim(raw);
    var halves := if SplitOnce(text, 'T').Some? then SplitOnce(text, 'T') else SplitOnce(text, ' ');
    if halves.None? then None
    else
      var parts := Split(halves.value.0, '-');
      if |parts| < 3 then None
      else
        var year, month, day := ParseI64(parts[0]), ParseI64(parts[1]), ParseI64(parts[2]);
        if year.None? || month.None? || day.None? then None
        else
          var clock := ParseClock(halves.value.1);
          if clock.None? then None
          else Some(DaysFromCivil(year.value, month.value, day.value) * 86400 + clock.value)
  }

  // ---- Section 5.6 ----

  datatype Zone = Zulu(z: char) | Offset(sign: char, hours: nat, minutes: nat)

  datatype Instant = Instant(date: Date, hour: nat, minute: nat, second: nat, fraction: Option<string>, zone: Zone)

  /** A date-time the grammar and section 5.7's ranges admit, leap second included. */
  predicate WellFormed(t: Instant) {
    && Valid(t.date) && 0 <= t.date.y <= 9999
    && t.hour < 24 && t.minute < 60 && t.second <= 60
    && (t.fraction.Some? ==> t.fraction.value != "" && AllDigits(t.fraction.value))
    && match t.zone
       case Zulu(z) => z == 'Z' || z == 'z'
       case Offset(sign, hours, minutes) => (sign == '+' || sign == '-') && hours < 24 && minutes < 60
  }

  function OffsetOf(zone: Zone): int {
    match zone
    case Zulu(_) => 0
    case Offset(sign, hours, minutes) => (if sign == '-' then -1 else 1) * (hours * 3600 + minutes * 60)
  }

  function EpochSecond(t: Instant): int {
    Number(t.date) * 86400 + t.hour * 3600 + t.minute * 60 + t.second - OffsetOf(t.zone)
  }

  function Digit(n: nat): char
    requires n < 10
  {
    '0' + n as char
  }

  function Pad2(n: nat): string
    requires n < 100
  {
    [Digit(n / 10), Digit(n % 10)]
  }

  function PrintFraction(fraction: Option<string>): string {
    if fraction.Some? then "." + fraction.value else ""
  }

  function PrintZone(zone: Zone): string
    requires zone.Offset? ==> zone.hours < 100 && zone.minutes < 100
  {
    match zone
    case Zulu(z) => [z]
    case Offset(sign, hours, minutes) => [sign] + (Pad2(hours) + [':'] + Pad2(minutes))
  }

  function PrintDate(date: Date): string
    requires Valid(date) && 0 <= date.y <= 9999
  {
    (Pad2(date.y / 100) + Pad2(date.y % 100)) + ['-'] + (Pad2(date.m) + ['-'] + Pad2(date.d))
  }

  function PrintTime(t: Instant): string
    requires WellFormed(t)
  {
    Pad2(t.hour) + [':'] + (Pad2(t.minute) + [':'] + (Pad2(t.second) + PrintFraction(t.fraction)))
  }

  function Print(t: Instant, separator: char): string
    requires WellFormed(t)
  {
    PrintDate(t.date) + [separator] + (PrintTime(t) + PrintZone(t.zone))
  }

  // ---- Reading it back ----

  lemma ParsePad2(n: nat)
    requires n < 100
    ensures AllDigits(Pad2(n)) && |Pad2(n)| == 2 && ParseI64(Pad2(n)) == Some(n)
  {
    var s := Pad2(n);
    assert s[..1] == [s[0]] && s[..1][..0] == "";
    assert DigitsValue(s[..1]) == n / 10;
  }

  lemma ParsePad4(n: nat)
    requires n < 10000
    ensures var s := Pad2(n / 100) + Pad2(n % 100); AllDigits(s) && |s| == 4 && ParseI64(s) == Some(n)
  {
    var s := Pad2(n / 100) + Pad2(n % 100);
    assert s[..3][..2] == s[..2] && s[..2][..1] == s[..1] && s[..1][..0] == "";
    assert DigitsValue(s[..1]) == n / 1000;
    assert DigitsValue(s[..2]) == n / 100;
    assert DigitsValue(s[..3]) == n / 10;
  }

  /** Digits and the punctuation of the grammar: no separator, no zone letter, no space. */
  predicate Plain(s: string) {
    forall i | 0 <= i < |s| :: IsDigit(s[i]) || s[i] == '-' || s[i] == ':' || s[i] == '.' || s[i] == '+'
  }

  lemma ParseDate(date: Date)
    requires Valid(date) && 0 <= date.y <= 9999
    ensures Plain(PrintDate(date)) && |PrintDate(date)| == 10
    ensures var parts := Split(PrintDate(date), '-');
            && |parts| == 3 && ParseI64(parts[0]) == Some(date.y)
            && ParseI64(parts[1]) == Some(date.m) && ParseI64(parts[2]) == Some(date.d)
  {
    ParsePad4(date.y);
    ParsePad2(date.m);
    ParsePad2(date.d);
    DashedDigits(Pad2(date.y / 100) + Pad2(date.y % 100), Pad2(date.m), Pad2(date.d));
  }

  lemma DashedDigits(y: string, m: string, d: string)
    requires AllDigits(y) && AllDigits(m) && AllDigits(d)
    ensures Plain(y + ['-'] + (m + ['-'] + d)) && Split(y + ['-'] + (m + ['-'] + d), '-') == [y, m, d]
  {
    SplitThree(y, '-', m, d);
  }

  lemma DigitsOnly(s: string)
    requires AllDigits(s)
    ensures ':' !in s && '.' !in s
  {
  }

  lemma TimeOf(h: string, m: string, last: string, hour: int, minute: int, offset: int)
    requires AllDigits(h) && AllDigits(m) && ':' !in last
    requires ParseI64(h) == Some(hour) && ParseI64(m) == Some(minute)
    ensures var second := ParseI64(Split(last, '.')[0]);
            ParseTime(h + [':'] + (m + [':'] + last), offset) ==
            Some(hour * 3600 + minute * 60 + (if second.Some? then second.value else 0) - offset)
  {
    hide ParseI64, Split, SplitOnce, AllDigits;
    DigitsOnly(h);
    DigitsOnly(m);
    SplitThree(h, ':', m, last);
  }

  /** A clock reading with `tail` left hanging off its seconds. */
  lemma ParseClockParts(t: Instant, tail: string, offset: int)
    requires WellFormed(t) && (tail == "" || tail == "z")
    ensures ParseTime(PrintTime(t) + tail, offset) ==
            Some(t.hour * 3600 + t.minute * 60 + (if tail == "z" && t.fraction.None? then 0 else t.second) - offset)
  {
    hide ParseTime, ParseI64, Split, Pad2;
    ParsePad2(t.hour);
    ParsePad2(t.minute);
    ParsePad2(t.second);
    var last := Pad2(t.second) + PrintFraction(t.fraction) + tail;
    SecondOf(Pad2(t.second), t.fraction, tail, t.second);
    assert PrintTime(t) + tail == Pad2(t.hour) + [':'] + (Pad2(t.minute) + [':'] + last);
    TimeOf(Pad2(t.hour), Pad2(t.minute), last, t.hour, t.minute, offset);
  }

  lemma FractionSplits(s: string, fraction: string, tail: string)
    requires '.' !in s && ':' !in s && ':' !in fraction && ':' !in tail
    ensures var last := s + ("." + fraction) + tail; ':' !in last && Split(last, '.')[0] == s
  {
    hide Split, SplitOnce;
    assert s + ("." + fraction) + tail == s + ['.'] + (fraction + tail);
    SplitAt(s, '.', fraction + tail);
  }

  lemma WholeSplits(s: string, tail: string)
    requires '.' !in s && ':' !in s && '.' !in tail && ':' !in tail
    ensures var last := s + "" + tail; last == s + tail && ':' !in last && Split(last, '.')[0] == last
  {
    hide Split, SplitOnce;
    assert s + "" + tail == s + tail;
    SplitNone(s + tail, '.');
  }

  lemma SecondOf(s: string, fraction: Option<string>, tail: string, n: int)
    requires AllDigits(s) && s != "" && ParseI64(s) == Some(n) && (tail == "" || tail == "z")
    requires fraction.Some? ==> AllDigits(fraction.value)
    ensures var last := s + PrintFraction(fraction) + tail;
            && ':' !in last
            && ParseI64(Split(last, '.')[0]) == if tail == "z" && fraction.None? then None else Some(n)
  {
    hide ParseI64, IndexOf, Split, AllDigits;
    DigitsOnly(s);
    if fraction.Some? {
      DigitsOnly(fraction.value);
      FractionSplits(s, fraction.value, tail);
    } else {
      WholeSplits(s, tail);
      if tail == "z" {
        NotANumber(s);
      } else {
        assert s + tail == s;
      }
    }
  }

  lemma NotANumber(s: string)
    requires s != "" && AllDigits(s)
    ensures ParseI64(s + "z") == None
  {
    var last := s + "z";
    assert last[0] == s[0] && last[|s|] == 'z';
  }

  lemma SignIndexFirst(a: string, b: string)
    requires '+' !in a && '-' !in a
    ensures b != "" && (b[0] == '+' || b[0] == '-') ==> SignIndex(a + b) == |a|
    ensures SignIndex(a) == |a|
  {
    if a != "" {
      assert (a + b)[1..] == a[1..] + b;
      SignIndexFirst(a[1..], b);
    } else {
      assert a + b == b;
    }
  }

  lemma ParseOffset(zone: Zone)
    requires zone.Offset? && (zone.sign == '+' || zone.sign == '-') && zone.hours < 24 && zone.minutes < 60
    ensures Plain(PrintZone(zone)) && OffsetSecs(PrintZone(zone)) == Some(OffsetOf(zone))
  {
    ParsePad2(zone.hours);
    ParsePad2(zone.minutes);
    OffsetOfDigits(zone.sign, Pad2(zone.hours), Pad2(zone.minutes));
  }

  lemma OffsetOfDigits(sign: char, h: string, m: string)
    requires (sign == '+' || sign == '-') && AllDigits(h) && AllDigits(m)
    requires ParseI64(h).Some? && ParseI64(m).Some?
    ensures var text := [sign] + (h + [':'] + m);
            && Plain(text)
            && OffsetSecs(text) == 
               Some((if sign == '-' then -1 else 1) * (ParseI64(h).value * 3600 + ParseI64(m).value * 60))
  {
    hide ParseI64;
    var text := [sign] + (h + [':'] + m);
    SplitAt(h, ':', m);
    assert text[1..] == h + [':'] + m;
  }

  lemma PlainTime(t: Instant)
    requires WellFormed(t)
    ensures var time := PrintTime(t); time != "" && Plain(time) && '+' !in time && '-' !in time && !IsSpace(time[0])
  {
    ParsePad2(t.hour);
    ParsePad2(t.minute);
    ParsePad2(t.second);
  }

  /** The three shapes of a clock half: bare, with a signed offset, with a lower-case zone letter. */
  lemma ClockShapes(time: string, offset: string)
    requires time != "" && Plain(time) && '+' !in time && '-' !in time
    requires offset != "" && Plain(offset) && (offset[0] == '+' || offset[0] == '-')
    ensures ParseClock(time + "Z") == ParseTime(time, 0) && ParseClock(time + "z") == ParseTime(time + "z", 0)
    ensures ParseClock(time + offset) ==
            if OffsetSecs(offset).None? then None else ParseTime(time, OffsetSecs(offset).value)
  {
    SignIndexFirst(time, offset);
    SignIndexFirst(time + "z", "");
    var zulu, lower, signed := time + "Z", time + "z", time + offset;
    assert zulu[..|zulu| - 1] == time;
    assert TrimEndZ(zulu) == time;
    assert TrimEndZ(lower) == lower;
    assert signed[|signed| - 1] == offset[|offset| - 1];
    assert TrimEndZ(signed) == signed;
    assert signed[..|time|] == time && signed[|time|..] == offset;
  }

  /** What the clock half reads as, in every zone spelling. */
  lemma ParseClockHalf(t: Instant)
    requires WellFormed(t)
    ensures ParseClock(PrintTime(t) + PrintZone(t.zone)) ==
            Some(t.hour * 3600 + t.minute * 60 - OffsetOf(t.zone)
                 + if t.zone == Zulu('z') && t.fraction.None? then 0 else t.second)
  {
    hide ParseClock, ParseTime, PrintTime, OffsetSecs;
    var time := PrintTime(t);
    PlainTime(t);
    match t.zone {
      case Offset(_, _, _) =>
        ParseOffset(t.zone);
        ClockShapes(time, PrintZone(t.zone));
        ParseClockParts(t, "", OffsetOf(t.zone));
        assert time + "" == time;
      case Zulu(z) =>
        ClockShapes(time, "+");
        ParseClockParts(t, if z == 'Z' then "" else "z", 0);
        assert time + "" == time;
    }
  }

  lemma TrimNothing(s: string)
    requires s != "" && !IsSpace(s[0]) && !IsSpace(s[|s| - 1])
    ensures Trim(s) == s
  {
  }

  /**
   Reading back any well-formed instant. A lower-case `t` is not read at all; a lower-case `z`
   with no fraction before it costs the seconds; every other spelling gives the epoch second.
   */
  lemma ParseOfPrint(t: Instant, separator: char)
    requires WellFormed(t) && separator in {'T', 't', ' '}
    ensures ParseRfc3339(Print(t, separator)) ==
            if separator == 't' then None
            else if t.zone == Zulu('z') && t.fraction.None? then Some(EpochSecond(t) - t.second)
            else Some(EpochSecond(t))
  {
    hide ParseClock, PrintDate, PrintTime, PrintZone, ParseI64, DaysFromCivil, Plain, IsSpace, Trim, SplitOnce;
    ParseDate(t.date);
    ParseClockHalf(t);
    RestShape(t);
    Halves(PrintDate(t.date), separator, PrintTime(t) + PrintZone(t.zone));
  }

  lemma RestShape(t: Instant)
    requires WellFormed(t)
    ensures var rest := PrintTime(t) + PrintZone(t.zone);
            rest != "" && Plain(rest[..|rest| - 1]) && 'T' != rest[|rest| - 1] && !IsSpace(rest[|rest| - 1])
  {
    hide PrintTime, Plain, Pad2, OffsetSecs, DaysInMonth, IsSpace;
    PlainTime(t);
    if t.zone.Offset? {
      ParseOffset(t.zone);
      PlainEnds(PrintTime(t), PrintZone(t.zone));
    } else {
      assert (PrintTime(t) + [t.zone.z])[..|PrintTime(t)|] == PrintTime(t);
      assert !IsSpace('Z') && !IsSpace('z') by { NoLetterIsSpace(); }
    }
  }

  lemma NoLetterIsSpace()
    ensures !IsSpace('Z') && !IsSpace('z')
  {
  }

  lemma PlainEnds(time: string, zone: string)
    requires Plain(time) && Plain(zone) && zone != ""
    ensures var rest := time + zone; Plain(rest[..|rest| - 1]) && rest[|rest| - 1] != 'T' && !IsSpace(rest[|rest| - 1])
  {
    assert (time + zone)[|time| + |zone| - 1] == zone[|zone| - 1];
  }

  lemma Halves(date: string, separator: char, rest: string)
    requires date != "" && Plain(date) && rest != "" && separator in {'T', 't', ' '}
    requires Plain(rest[..|rest| - 1]) && 'T' != rest[|rest| - 1] && !IsSpace(rest[|rest| - 1])
    ensures var text := date + [separator] + rest;
            && Trim(text) == text
            && (if separator == 'T' then SplitOnce(text, 'T') == Some((date, rest))
                else
                  && SplitOnce(text, 'T') == None
                  && SplitOnce(text, ' ') == if separator == ' ' then Some((date, rest)) else None)
  {
    var text := date + [separator] + rest;
    assert text[0] == date[0] && text[|text| - 1] == rest[|rest| - 1];
    TrimNothing(text);
    assert rest == rest[..|rest| - 1] + [rest[|rest| - 1]];
    if separator != 'T' {
      SplitNone(text, 'T');
    }
    if separator == 't' {
      SplitNone(text, ' ');
    } else {
      SplitAt(date, separator, rest);
    }
  }

  /** The spellings whose instant survives: a capital `T` or a space, and no bare `z` after seconds that count. */
  predicate Survives(t: Instant, separator: char) {
    separator != 't' && (t.zone != Zulu('z') || t.fraction.Some? || t.second == 0)
  }

  /** The instant survives exactly in these spellings. */
  lemma RoundTrip(t: Instant, separator: char)
    requires WellFormed(t) && separator in {'T', 't', ' '}
    ensures ParseRfc3339(Print(t, separator)) == Some(EpochSecond(t)) <==> Survives(t, separator)
  {
    hide ParseRfc3339, Print, EpochSecond;
    ParseOfPrint(t, separator);
  }

  /** Any two of them, in any zones and to any precision, read the same exactly when they spell one instant. */
  lemma SpellingsAgree(t: Instant, u: Instant, a: char, b: char)
    requires WellFormed(t) && WellFormed(u) && a in {'T', 't', ' '} && b in {'T', 't', ' '}
    ensures Survives(t, a) && Survives(u, b) ==>
              (ParseRfc3339(Print(t, a)) == ParseRfc3339(Print(u, b)) <==> EpochSecond(t) == EpochSecond(u))
    ensures ParseRfc3339(Print(t, a)) == ParseRfc3339(Print(u, b)) <==>
              if a == 't' || b == 't' then a == b
              else
                EpochSecond(t) - (if Survives(t, a) then 0 else t.second) ==
                EpochSecond(u) - (if Survives(u, b) then 0 else u.second)
  {
    hide ParseRfc3339, Print, EpochSecond;
    ParseOfPrint(t, a);
    ParseOfPrint(u, b);
  }

  /** An instant with no zone at all, which section 5.6 does not allow, is read as UTC. */
  lemma NoZoneIsUtc(t: Instant, separator: char)
    requires WellFormed(t) && separator in {'T', ' '}
    ensures ParseRfc3339(PrintDate(t.date) + [separator] + PrintTime(t)) == Some(EpochSecond(t.(zone := Zulu('Z'))))
  {
    hide ParseClock, PrintDate, PrintTime, ParseI64, DaysFromCivil, Plain, IsSpace, Trim, SplitOnce;
    ParseDate(t.date);
    BareClock(t);
    BareShape(t);
    Halves(PrintDate(t.date), separator, PrintTime(t));
  }

  lemma BareTime(time: string)
    requires time != "" && Plain(time) && '+' !in time && '-' !in time
    ensures ParseClock(time) == ParseTime(time, 0)
  {
    SignIndexFirst(time, "");
    assert time + "" == time && TrimEndZ(time) == time;
  }

  lemma BareClock(t: Instant)
    requires WellFormed(t)
    ensures ParseClock(PrintTime(t)) == Some(t.hour * 3600 + t.minute * 60 + t.second)
  {
    hide ParseClock, ParseTime, PrintTime, OffsetSecs;
    PlainTime(t);
    BareTime(PrintTime(t));
    ParseClockParts(t, "", 0);
    assert PrintTime(t) + "" == PrintTime(t);
  }

  lemma BareShape(t: Instant)
    requires WellFormed(t)
    ensures var time := PrintTime(t);
            time != "" && Plain(time[..|time| - 1]) && 'T' != time[|time| - 1] && !IsSpace(time[|time| - 1])
  {
    hide PrintTime;
    PlainTime(t);
  }
}
