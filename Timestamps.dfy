/** Timestamps as the store holds them: text in the fixed format `%Y-%m-%d %H:%M:%S`
    (`YYYY-MM-DD HH:MM:SS`, zero-padded), and the keys the dashboard derives from them. */
module Timestamps {
  import opened Wrappers
  import opened Text

  /** The two-digit decimal number at positions `i` and `i + 1`. */
  function Num2(s: string, i: nat): (n: nat)
    requires i + 2 <= |s| && IsDigit(s[i]) && IsDigit(s[i + 1])
    ensures n < 100
  {
    DigitValue(s[i]) * 10 + DigitValue(s[i + 1])
  }

  /** A calendar date `YYYY-MM-DD`, month 01-12 and day 01-31. */
  predicate IsDate(s: string) {
    && |s| == 10
    && IsDigit(s[0]) && IsDigit(s[1]) && IsDigit(s[2]) && IsDigit(s[3])
    && s[4] == '-' && IsDigit(s[5]) && IsDigit(s[6])
    && s[7] == '-' && IsDigit(s[8]) && IsDigit(s[9])
    && 1 <= Num2(s, 5) <= 12 && 1 <= Num2(s, 8) <= 31
  }

  /** A timestamp in the stored format: a date, a blank, then `HH:MM:SS` with hour
      00-23, minute and second 00-59. */
  predicate Canonical(ts: string) {
    && |ts| == 19
    && IsDate(ts[..10])
    && ts[10] == ' '
    && IsDigit(ts[11]) && IsDigit(ts[12]) && ts[13] == ':'
    && IsDigit(ts[14]) && IsDigit(ts[15]) && ts[16] == ':'
    && IsDigit(ts[17]) && IsDigit(ts[18])
    && Num2(ts, 11) < 24 && Num2(ts, 14) < 60 && Num2(ts, 17) < 60
  }

  function Hour(ts: string): nat
    requires Canonical(ts)
  {
    Num2(ts, 11)
  }

  function Minute(ts: string): nat
    requires Canonical(ts)
  {
    Num2(ts, 14)
  }

  /** The `day` column of the heatmap: the calendar date of the timestamp. */
  function DayKey(ts: string): (day: string)
    requires Canonical(ts)
    ensures IsDate(day) && ts == day + ts[10..]
  {
    ts[..10]
  }

  /** The `hour` column of the heatmap and of the daily profile, `hour + minute / 60`,
      kept as the whole number of minutes since midnight. */
  function MinuteOfDay(ts: string): (m: nat)
    requires Canonical(ts)
    ensures m < 24 * 60
    ensures (m as real) / 60.0 == Hour(ts) as real + Minute(ts) as real / 60.0
  {
    Hour(ts) * 60 + Minute(ts)
  }

  /** `n` as exactly two digits. */
  function Pad2(n: nat): (s: string)
    requires n < 100
    ensures |s| == 2 && IsDigit(s[0]) && IsDigit(s[1]) && Num2(s, 0) == n
  {
    [DigitChar(n / 10), DigitChar(n % 10)]
  }

  /** `HH:MM` for a minute of the day. */
  function Clock(m: nat): (s: string)
    requires m < 24 * 60
    ensures |s| == 5
  {
    Pad2(m / 60) + ":" + Pad2(m % 60)
  }

  /** The two keys lose only the seconds: day key, a blank, the minute key written back as
      `HH:MM`, and the seconds give the timestamp again. */
  lemma KeysRoundTrip(ts: string)
    requires Canonical(ts)
    ensures ts == DayKey(ts) + " " + Clock(MinuteOfDay(ts)) + ts[16..]
  {
    var h, mi := Hour(ts), Minute(ts);
    var m := MinuteOfDay(ts);
    assert m / 60 == h && m % 60 == mi;
    Pad2OfDigits(ts, 11);
    Pad2OfDigits(ts, 14);
    assert Clock(m) == ts[11..13] + ":" + ts[14..16];
    assert ts == ts[..10] + [ts[10]] + ts[11..13] + [ts[13]] + ts[14..16] + ts[16..];
  }

  /** Two digits read as a number and written back give the same two characters. */
  lemma Pad2OfDigits(s: string, i: nat)
    requires i + 2 <= |s| && IsDigit(s[i]) && IsDigit(s[i + 1])
    ensures Pad2(Num2(s, i)) == s[i..i + 2]
  {
    var n := Num2(s, i);
    assert n / 10 == DigitValue(s[i]) && n % 10 == DigitValue(s[i + 1]);
  }

  /** Two timestamps get the same pair of keys exactly when they agree up to the minute. */
  lemma KeysIdentifyMinute(a: string, b: string)
    requires Canonical(a) && Canonical(b)
    ensures (DayKey(a) == DayKey(b) && MinuteOfDay(a) == MinuteOfDay(b)) <==> a[..16] == b[..16]
  {
    if DayKey(a) == DayKey(b) && MinuteOfDay(a) == MinuteOfDay(b) {
      KeysPrefix(a);
      KeysPrefix(b);
    }
    if a[..16] == b[..16] {
      assert a[..10] == a[..16][..10] && b[..10] == b[..16][..10];
      assert a[11] == a[..16][11] && b[11] == b[..16][11];
      assert a[12] == a[..16][12] && b[12] == b[..16][12];
      assert a[14] == a[..16][14] && b[14] == b[..16][14];
      assert a[15] == a[..16][15] && b[15] == b[..16][15];
    }
  }

  /** The first sixteen characters of a timestamp are its two keys written back. */
  lemma KeysPrefix(ts: string)
    requires Canonical(ts)
    ensures ts[..16] == DayKey(ts) + " " + Clock(MinuteOfDay(ts))
  {
    KeysRoundTrip(ts);
    var k := DayKey(ts) + " " + Clock(MinuteOfDay(ts));
    assert ts == k + ts[16..];
    assert |k| == 16;
  }

  /** The Timestamp pandas makes of a window bound compared with a datetime column: a bare
      date stands for midnight of that day; a string it cannot read gives None. */
  function BoundStamp(b: string): (r: Option<string>)
    ensures r.Some? ==> Canonical(r.value) && |b| >= 10 && r.value[..10] == b[..10]
    ensures r.Some? <==> IsDate(b) || Canonical(b)
    ensures IsDate(b) ==> r == Some(b + " 00:00:00")
    ensures Canonical(b) ==> r == Some(b)
  {
    if IsDate(b) then
      var ts := b + " 00:00:00";
      assert ts[..10] == b;
      Some(ts)
    else if Canonical(b) then Some(b)
    else None
  }

  /** A date or a timestamp in the fixed format is not text SQLite reads as a number, so
      as a bound it compares as text. */
  lemma FixedFormatIsText(b: string)
    requires IsDate(b) || Canonical(b)
    ensures !SqlNumeric(b)
  {
    if Canonical(b) {
      assert forall k :: 0 <= k < 4 ==> b[k] == b[..10][k];
    }
    DashedNotNumeric(b, 4);
  }

  /** A bare date sorts before every timestamp of that day, and no timestamp of that day
      sorts at or before it: as a string bound, `date <= 'YYYY-MM-DD'` excludes the day. */
  lemma BareDateAgainstSameDay(ts: string)
    requires Canonical(ts)
    ensures LexLe(DayKey(ts), ts)
    ensures !LexLe(ts, DayKey(ts))
  {
    PrefixIsLe(DayKey(ts), ts[10..]);
    ExtensionNotLe(DayKey(ts), ts[10..]);
  }

  /** Compared as Timestamps, a bare date as end bound stands for midnight: of the
      timestamps of that day it keeps only the one at 00:00:00. */
  lemma BareEndStampKeepsMidnight(ts: string)
    requires Canonical(ts)
    ensures BoundStamp(DayKey(ts)).Some?
    ensures LexLe(ts, BoundStamp(DayKey(ts)).value) <==> ts[11..] == "00:00:00"
  {
    var day := DayKey(ts);
    var tail := ts[10..];
    var mid := " 00:00:00";
    assert BoundStamp(day).value == day + mid;
    LexLeCommonPrefix(day, tail, mid);
    forall k | 0 <= k < |tail| ensures mid[k] <= tail[k] {
      assert tail[k] == ts[10 + k];
    }
    LexLeDominated(tail, mid);
    assert tail == [' '] + ts[11..];
    assert mid == [' '] + "00:00:00";
  }
}
