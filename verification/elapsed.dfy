/** Slurm elapsed-time strings, as printed in `squeue`'s TIME column, read as a
    number of seconds.  Every failure to read a field yields 0 instead of an error. */
module Elapsed {
  import opened Wrappers
  import opened Text

  const SecondsPerDay := 86400
  const SecondsPerHour := 3600
  const SecondsPerMinute := 60

  /** `time_to_seconds`: an optional `days-` prefix, then one, two or three
      colon-separated fields.  Two fields are read as hours and minutes; four or
      more fields keep only the first.  More than one `-`, or any field `int`
      rejects, gives 0.  No minus sign survives the day split, so the result is
      never negative. */
  function TimeToSeconds(s: string): (r: int)
    ensures r >= 0
  {
    if '-' in s then
      var pieces := Split(s, '-');
      if |pieces| != 2 then 0
      else
        match ParseInt(pieces[0])
        case None => 0
        case Some(d) => ClockSeconds(d * SecondsPerDay, pieces[1])
    else ClockSeconds(0, s)
  }

  /** The part after the optional day prefix, added to the days already counted. */
  function ClockSeconds(daysSeconds: int, t: string): (r: int)
    ensures daysSeconds >= 0 && '-' !in t ==> r >= 0
  {
    var parts := Split(t, ':');
    SplitPiecesAvoid(t, ':', '-');
    var fields := if |parts| <= 3 then parts else parts[..1];
    assert '-' !in t ==> NoMinus(fields);
    match ReadInts(fields)
    case None => 0
    case Some(v) =>
      if |v| == 3 then daysSeconds + v[0] * SecondsPerHour + v[1] * SecondsPerMinute + v[2]
      else if |v| == 2 then daysSeconds + v[0] * SecondsPerHour + v[1] * SecondsPerMinute
      else daysSeconds + v[0]
  }

  /** Python's `map(int, fields)` consumed whole: every field read by `int`, or
      `None` as soon as one of them is rejected. */
  function ReadInts(fields: seq<string>): (r: Option<seq<int>>)
    ensures r.Some? <==> forall k :: 0 <= k < |fields| ==> ParseInt(fields[k]).Some?
    ensures r.Some? ==> |r.value| == |fields|
    ensures r.Some? ==> forall k :: 0 <= k < |fields| ==> ParseInt(fields[k]) == Some(r.value[k])
    ensures r.Some? && NoMinus(fields) ==> forall k :: 0 <= k < |fields| ==> r.value[k] >= 0
  {
    var r := ReadAll(fields, ParseInt);
    assert r.Some? ==> forall k :: 0 <= k < |fields| ==> ParseInt(fields[k]) == Some(r.value[k]);
    r
  }

  /** Every field read by `read`, in order, or `None` as soon as one is
      rejected. */
  function ReadAll(fields: seq<string>, read: string -> Option<int>): (r: Option<seq<int>>)
    ensures r.Some? <==> forall k :: 0 <= k < |fields| ==> read(fields[k]).Some?
    ensures r.Some? ==> |r.value| == |fields|
    ensures r.Some? ==> forall k :: 0 <= k < |fields| ==> read(fields[k]) == Some(r.value[k])
  {
    if |fields| == 0 then Some([])
    else
      var tail := ReadAll(fields[1..], read);
      assert forall k :: 0 < k < |fields| ==> fields[1..][k - 1] == fields[k];
      match read(fields[0])
      case None => None
      case Some(x) =>
        match tail
        case None => None
        case Some(rest) => Some([x] + rest)
  }

  predicate NoMinus(fields: seq<string>) {
    forall k :: 0 <= k < |fields| ==> '-' !in fields[k]
  }

  /** Reading numbers yields their values, in order. */
  lemma ReadIntsNumbers(fields: seq<string>)
    requires forall k :: 0 <= k < |fields| ==> IsNumber(fields[k])
    ensures ReadInts(fields).Some?
    ensures forall k :: 0 <= k < |fields| ==> ReadInts(fields).value[k] == Value(fields[k])
  {
    forall k | 0 <= k < |fields| ensures ParseInt(fields[k]) == Some(Value(fields[k])) {
      ParseIntDigits(fields[k]);
    }
  }

  /** A field of decimal digits, as Slurm prints them. */
  predicate IsNumber(s: string) {
    |s| > 0 && AllDigits(s)
  }

  function Value(s: string): nat
    requires IsNumber(s)
  {
    DigitsValue(s)
  }

  /** What the clock part is worth when every field is a number: hours, minutes and
      seconds for three fields, hours and minutes for two, the first field otherwise. */
  function ClockValue(fields: seq<string>): nat
    requires |fields| >= 1
    requires forall k :: 0 <= k < |fields| ==> IsNumber(fields[k])
  {
    if |fields| == 3 then
      Value(fields[0]) * SecondsPerHour + Value(fields[1]) * SecondsPerMinute + Value(fields[2])
    else if |fields| == 2 then
      Value(fields[0]) * SecondsPerHour + Value(fields[1]) * SecondsPerMinute
    else Value(fields[0])
  }

  lemma NumberAvoids(s: string)
    requires IsNumber(s)
    ensures '-' !in s && ':' !in s
  {
    assert forall k :: 0 <= k < |s| ==> s[k] != '-' && s[k] != ':';
  }

  lemma {:induction false} ClockOfNumbers(daysSeconds: int, fields: seq<string>)
    requires |fields| >= 1
    requires forall k :: 0 <= k < |fields| ==> IsNumber(fields[k])
    ensures ClockSeconds(daysSeconds, Join(fields, ':')) == daysSeconds + ClockValue(fields)
  {
    forall k | 0 <= k < |fields| ensures ':' !in fields[k] {
      NumberAvoids(fields[k]);
    }
    SplitJoin(fields, ':');
    ClockOfParts(daysSeconds, Join(fields, ':'), fields);
  }

  lemma ClockOfParts(daysSeconds: int, t: string, fields: seq<string>)
    requires |fields| >= 1
    requires forall k :: 0 <= k < |fields| ==> IsNumber(fields[k])
    requires Split(t, ':') == fields
    ensures ClockSeconds(daysSeconds, t) == daysSeconds + ClockValue(fields)
  {
    var read := if |fields| <= 3 then fields else fields[..1];
    ReadIntsNumbers(read);
    var v := ReadInts(read).value;
    assert |v| == |read| && forall k :: 0 <= k < |read| ==> v[k] == Value(read[k]);
    assert read[0] == fields[0];
    assert ClockSeconds(daysSeconds, t) == daysSeconds + (
      if |v| == 3 then v[0] * SecondsPerHour + v[1] * SecondsPerMinute + v[2]
      else if |v| == 2 then v[0] * SecondsPerHour + v[1] * SecondsPerMinute
      else v[0]);
  }

  lemma {:induction false} JoinedNumbersAvoidDash(fields: seq<string>)
    requires forall k :: 0 <= k < |fields| ==> IsNumber(fields[k])
    ensures '-' !in Join(fields, ':')
  {
    forall k | 0 <= k < |fields| ensures '-' !in fields[k] {
      NumberAvoids(fields[k]);
    }
    JoinAvoids(fields, ':', '-');
  }

  /** Without a day prefix, a time made of numbers is worth its clock value. */
  lemma TimeOfClock(fields: seq<string>)
    requires |fields| >= 1
    requires forall k :: 0 <= k < |fields| ==> IsNumber(fields[k])
    ensures TimeToSeconds(Join(fields, ':')) == ClockValue(fields)
  {
    JoinedNumbersAvoidDash(fields);
    ClockOfNumbers(0, fields);
  }

  /** With a day prefix `d-`, each day adds 86400 seconds to the clock value. */
  lemma TimeOfDaysAndClock(d: string, fields: seq<string>)
    requires IsNumber(d)
    requires |fields| >= 1
    requires forall k :: 0 <= k < |fields| ==> IsNumber(fields[k])
    ensures TimeToSeconds(d + "-" + Join(fields, ':')) == Value(d) * SecondsPerDay + ClockValue(fields)
  {
    var t := Join(fields, ':');
    NumberAvoids(d);
    JoinedNumbersAvoidDash(fields);
    SplitDays(d, t);
    ParseIntDigits(d);
    ClockOfNumbers(Value(d) * SecondsPerDay, fields);
    TimeWithDays(d + "-" + t, d, t);
  }

  /** A day count and a clock part without dashes split back apart at the dash. */
  lemma SplitDays(d: string, t: string)
    requires '-' !in d && '-' !in t
    ensures '-' in d + "-" + t && Split(d + "-" + t, '-') == [d, t]
  {
    var s := d + "-" + t;
    assert s[|d|] == '-';
    assert Join([d, t], '-') == s by {
      assert [d, t][1..] == [t];
    }
    SplitJoin([d, t], '-');
  }

  lemma TimeWithDays(s: string, d: string, t: string)
    requires '-' in s && Split(s, '-') == [d, t]
    requires IsNumber(d) && ParseInt(d) == Some(Value(d))
    ensures TimeToSeconds(s) == ClockSeconds(Value(d) * SecondsPerDay, t)
  {
  }

  lemma JoinThree(a: string, b: string, c: string)
    ensures Join([a, b, c], ':') == a + ":" + b + ":" + c
  {
    assert [a, b, c][1..] == [b, c];
    JoinTwo(b, c);
    assert a + ":" + b + ":" + c == a + ":" + (b + ":" + c);
  }

  lemma JoinTwo(a: string, b: string)
    ensures Join([a, b], ':') == a + ":" + b
  {
    assert [a, b][1..] == [b];
    assert Join([b], ':') == b;
  }

  /** `D-H:M:S` is D days, H hours, M minutes and S seconds. */
  lemma TimeDaysHoursMinutesSeconds(d: string, h: string, m: string, x: string)
    requires IsNumber(d) && IsNumber(h) && IsNumber(m) && IsNumber(x)
    ensures TimeToSeconds(d + "-" + h + ":" + m + ":" + x)
            == Value(d) * 86400 + Value(h) * 3600 + Value(m) * 60 + Value(x)
  {
    JoinThree(h, m, x);
    assert d + "-" + h + ":" + m + ":" + x == d + "-" + Join([h, m, x], ':');
    TimeOfDaysAndClock(d, [h, m, x]);
  }

  /** `H:M:S` is H hours, M minutes and S seconds. */
  lemma TimeHoursMinutesSeconds(h: string, m: string, x: string)
    requires IsNumber(h) && IsNumber(m) && IsNumber(x)
    ensures TimeToSeconds(h + ":" + m + ":" + x) == Value(h) * 3600 + Value(m) * 60 + Value(x)
  {
    JoinThree(h, m, x);
    TimeOfClock([h, m, x]);
  }

  /** `A:B` is read as A hours and B minutes, not minutes and seconds. */
  lemma TimeTwoFields(a: string, b: string)
    requires IsNumber(a) && IsNumber(b)
    ensures TimeToSeconds(a + ":" + b) == Value(a) * 3600 + Value(b) * 60
  {
    JoinTwo(a, b);
    TimeOfClock([a, b]);
  }

  /** `D-A:B` is D days, A hours and B minutes. */
  lemma TimeDaysTwoFields(d: string, a: string, b: string)
    requires IsNumber(d) && IsNumber(a) && IsNumber(b)
    ensures TimeToSeconds(d + "-" + a + ":" + b) == Value(d) * 86400 + Value(a) * 3600 + Value(b) * 60
  {
    JoinTwo(a, b);
    assert d + "-" + a + ":" + b == d + "-" + Join([a, b], ':');
    TimeOfDaysAndClock(d, [a, b]);
  }

  /** A single field is its own value; `D-N` adds D days to it. */
  lemma TimeSingleField(d: string, n: string)
    requires IsNumber(d) && IsNumber(n)
    ensures TimeToSeconds(n) == Value(n)
    ensures TimeToSeconds(d + "-" + n) == Value(d) * 86400 + Value(n)
  {
    assert Join([n], ':') == n;
    TimeOfClock([n]);
    TimeOfDaysAndClock(d, [n]);
  }

  /** Four or more colon fields fall into the single-field branch, which reads only
      the first field. */
  lemma TimeManyFields(fields: seq<string>)
    requires |fields| >= 4
    requires forall k :: 0 <= k < |fields| ==> IsNumber(fields[k])
    ensures TimeToSeconds(Join(fields, ':')) == Value(fields[0])
  {
    TimeOfClock(fields);
  }

  /** More than one `-` makes the day split fail, which reads as 0. */
  lemma TimeExtraDash(s: string)
    requires |Split(s, '-')| > 2
    ensures TimeToSeconds(s) == 0
  {
    if '-' !in s {
      SplitNoSeparator(s, '-');
    }
  }

  /** A day prefix that `int` rejects reads as 0. */
  lemma TimeBadDays(s: string)
    requires '-' in s && |Split(s, '-')| == 2
    requires ParseInt(Split(s, '-')[0]) == None
    ensures TimeToSeconds(s) == 0
  {
  }

  /** A clock field that `int` rejects reads as 0, whether or not a day prefix is
      present; with four or more fields only the first one is read. */
  lemma TimeBadField(s: string, t: string, k: nat)
    requires ('-' !in s && t == s) || ('-' in s && |Split(s, '-')| == 2 && Split(s, '-')[1] == t)
    requires var parts := Split(t, ':');
             k < |parts| && (|parts| <= 3 || k == 0) && ParseInt(parts[k]) == None
    ensures TimeToSeconds(s) == 0
  {
    var parts := Split(t, ':');
    var read := if |parts| <= 3 then parts else parts[..1];
    assert read[k] == parts[k];
    assert ParseInt(read[k]).None?;
  }

  /** The examples of the documentation, computed (each time string written as the
      concatenation of its fields): `1-02:03:04` is 93784 seconds, `02:03:04` is
      7384, `03:04` is 11040 (three hours four minutes), `45` is 45 and `garbage`
      is 0. */
  lemma TimeExamples()
    ensures TimeToSeconds("1" + "-" + "02" + ":" + "03" + ":" + "04") == 93784
    ensures TimeToSeconds("02" + ":" + "03" + ":" + "04") == 7384
    ensures TimeToSeconds("03" + ":" + "04") == 11040
    ensures TimeToSeconds("45") == 45
    ensures TimeToSeconds("garbage") == 0
  {
    TwoDigitValues();
    TimeDaysHoursMinutesSeconds("1", "02", "03", "04");
    TimeHoursMinutesSeconds("02", "03", "04");
    TimeTwoFields("03", "04");
    TimeSingleField("1", "45");
    TimeGarbage();
  }

  lemma TwoDigitValues()
    ensures Value("1") == 1 && Value("02") == 2 && Value("03") == 3 && Value("04") == 4 && Value("45") == 45
  {
    assert "02"[..1] == "0" && "03"[..1] == "0" && "04"[..1] == "0" && "45"[..1] == "4";
    assert "0"[..0] == "" && "4"[..0] == "" && "1"[..0] == "";
  }

  lemma TimeGarbage()
    ensures TimeToSeconds("garbage") == 0
  {
    TimeWord("garbage");
  }

  /** A word of letters is no number: it reads as 0. */
  lemma TimeWord(w: string)
    requires |w| > 0 && forall k :: 0 <= k < |w| ==> 'a' <= w[k] <= 'z'
    ensures TimeToSeconds(w) == 0
  {
    assert '-' !in w && ':' !in w;
    SplitNoSeparator(w, ':');
    ParseIntRejects(w);
    assert ParseInt([w][0]).None?;
  }
}
