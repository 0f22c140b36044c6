/** Time units and the duration labels of the window (mainwindow.cpp,
    durationChanged, positionChanged, updateDuration and the progress slider's
    sliderMoved handler). The player reports milliseconds; the window keeps
    whole seconds. */
module TimeDisplay {
  import opened CppInt

  const MS_PER_SECOND: int := 1000

  /** Player milliseconds to whole seconds: C++ `ms / 1000`. */
  function MsToSeconds(ms: int): (secs: int)
    ensures Abs(secs) * MS_PER_SECOND <= Abs(ms) < Abs(secs) * MS_PER_SECOND + MS_PER_SECOND
    ensures ms >= 0 ==> secs >= 0
    ensures ms <= 0 ==> secs <= 0
  {
    TruncDiv(ms, MS_PER_SECOND)
  }

  /** Slider seconds to player milliseconds: `value * 1000` in 64 bits. */
  function SecondsToMs(secs: int): (ms: int)
    ensures TruncRem(ms, MS_PER_SECOND) == 0
    ensures TruncDiv(ms, MS_PER_SECOND) == secs
  {
    TruncRemOfMultiple(secs, MS_PER_SECOND);
    secs * MS_PER_SECOND
  }

  /** Seconds survive the trip through milliseconds unchanged. */
  lemma SecondsRoundTrip(secs: int)
    ensures MsToSeconds(SecondsToMs(secs)) == secs
  {
    TruncRemOfMultiple(secs, MS_PER_SECOND);
  }

  /** Milliseconds lose their sub-second part: the result is no further from
      zero than the original and differs from it by less than a second. */
  lemma MsRoundTrip(ms: int)
    ensures Abs(SecondsToMs(MsToSeconds(ms))) <= Abs(ms)
    ensures Abs(ms - SecondsToMs(MsToSeconds(ms))) < MS_PER_SECOND
    ensures ms >= 0 ==> 0 <= SecondsToMs(MsToSeconds(ms)) <= ms
  {
    TruncDivRem(ms, MS_PER_SECOND);
  }

  /** A seek to any `int` slider value is a valid `qint64` position: the cast
      to 64 bits before multiplying rules out overflow. */
  lemma SeekFitsInt64(value: int)
    requires IsInt32(value)
    ensures IsInt64(SecondsToMs(value))
  {
  }

  /** Seconds obtained from a `qint64` millisecond count can be multiplied back
      by 1000 (as updateDuration does) without leaving `qint64`. */
  lemma ScaleBackFitsInt64(ms: int)
    requires IsInt64(ms)
    ensures IsInt64(SecondsToMs(MsToSeconds(ms)))
  {
    MsRoundTrip(ms);
  }

  /** The arguments of a QTime: hours, minutes, seconds, milliseconds. */
  datatype TimeFields = TimeFields(hours: int, minutes: int, seconds: int, millis: int)

  /** The seconds a set of fields stands for. */
  function TotalSeconds(t: TimeFields): int
  {
    t.hours * 3600 + t.minutes * 60 + t.seconds
  }

  /** `QTime((d / 3600) % 60, (d / 60) % 60, d % 60, (d * 1000) % 1000)` in C++
      arithmetic: every field is below 60 in magnitude, non-negative for a
      non-negative count, and the millisecond field is always zero. */
  function Split(d: int): (t: TimeFields)
    ensures Abs(t.hours) < 60 && Abs(t.minutes) < 60 && Abs(t.seconds) < 60
    ensures d >= 0 ==> t.hours >= 0 && t.minutes >= 0 && t.seconds >= 0
    ensures t.millis == 0
  {
    TruncRemOfMultiple(d, 1000);
    TimeFields(TruncRem(TruncDiv(d, 3600), 60), TruncRem(TruncDiv(d, 60), 60),
               TruncRem(d, 60), TruncRem(d * 1000, 1000))
  }

  /** The fields of a non-negative count add back up to it modulo 60 hours
      (the hour field is itself taken modulo 60). */
  lemma SplitRecomposes(d: int)
    requires d >= 0
    ensures TotalSeconds(Split(d)) == d % 216000
    ensures d < 216000 ==> TotalSeconds(Split(d)) == d
    ensures Split(d).hours == (d / 3600) % 60
    ensures Split(d).minutes * 60 + Split(d).seconds == d % 3600
  {
    var s, q1 := d % 60, d / 60;
    var m, q2 := q1 % 60, q1 / 60;
    var h, q3 := q2 % 60, q2 / 60;
    assert d == q2 * 3600 + (m * 60 + s) by {
      assert q1 * 60 == (q2 * 60 + m) * 60 == q2 * 3600 + m * 60;
    }
    DivUnique(d, 3600, q2, m * 60 + s);
    assert d == q3 * 216000 + (h * 3600 + m * 60 + s) by {
      assert q2 * 3600 == (q3 * 60 + h) * 3600 == q3 * 216000 + h * 3600;
    }
    DivUnique(d, 216000, q3, h * 3600 + m * 60 + s);
    TruncAgreesOnNatural(d, 3600);
    TruncAgreesOnNatural(d, 60);
    TruncAgreesOnNatural(q2, 60);
    TruncAgreesOnNatural(q1, 60);
  }

  /** The two formats updateDuration passes to QTime::toString. */
  datatype TimeFormat = MinSec | HourMinSec

  function FormatText(f: TimeFormat): string
  {
    match f
    case MinSec => "mm:ss"
    case HourMinSec => "hh:mm:ss"
  }

  /** Up to one hour the hour field is 0, except at exactly one hour. */
  lemma HoursUpToAnHour(d: int)
    requires 0 <= d <= 3600
    ensures Split(d).hours == if d == 3600 then 1 else 0
  {
    SplitRecomposes(d);
    if d < 3600 {
      DivUnique(d, 3600, 0, d);
    } else {
      DivUnique(3600, 3600, 1, 0);
    }
  }

  /** The format chosen from the total duration in seconds, as written:
      hours are shown only when the total exceeds 3600, so "mm:ss" hides a
      non-zero hour field for exactly one total, 3600. */
  function FormatFor(total: int): (f: TimeFormat)
    ensures f == HourMinSec <==> total > 3600
    ensures f == MinSec && total >= 0 ==> Split(total).hours == if total == 3600 then 1 else 0
  {
    if total > 3600 then HourMinSec
    else if total < 0 then MinSec
    else HoursUpToAnHour(total); MinSec
  }

  /** The format choice as evidently intended: hours are shown from one hour
      on, so "mm:ss" never hides an hour of a non-negative total. */
  function FormatForCorrected(total: int): (f: TimeFormat)
    ensures f == HourMinSec <==> total >= 3600
    ensures f == MinSec && total >= 0 ==> Split(total).hours == 0
  {
    if total >= 3600 then HourMinSec
    else if total < 0 then MinSec
    else HoursUpToAnHour(total); MinSec
  }

  /** The fields a format puts on screen, most significant first. */
  function DisplayedFields(t: TimeFields, f: TimeFormat): (fs: seq<int>)
    ensures |fs| == if f == HourMinSec then 3 else 2
    ensures fs[|fs| - 1] == t.seconds && fs[|fs| - 2] == t.minutes
    ensures f == HourMinSec ==> fs[0] == t.hours
  {
    match f
    case MinSec => [t.minutes, t.seconds]
    case HourMinSec => [t.hours, t.minutes, t.seconds]
  }

  /** Reading a clock display back as seconds: base 60, most significant
      field first. */
  function ReadBack(fs: seq<int>): int
  {
    if fs == [] then 0 else ReadBack(fs[..|fs| - 1]) * 60 + fs[|fs| - 1]
  }

  /** The seconds a viewer reads off a label showing d in format f. */
  function Shown(d: int, f: TimeFormat): int
  {
    ReadBack(DisplayedFields(Split(d), f))
  }

  /** Under 60 hours, the fields "hh:mm:ss" shows add up to the whole count
      and those "mm:ss" shows drop the full hours. This is about the fields,
      not the rendered text: from 24 hours on QTime is invalid and renders as
      an empty string. */
  lemma ShownValue(d: int, f: TimeFormat)
    requires 0 <= d < 216000
    ensures f == HourMinSec ==> Shown(d, f) == d
    ensures f == MinSec ==> Shown(d, f) == d % 3600
  {
    SplitRecomposes(d);
    var t := Split(d);
    var fs := DisplayedFields(t, f);
    if f == HourMinSec {
      assert fs[..2] == [t.hours, t.minutes];
      assert [t.hours, t.minutes][..1] == [t.hours];
      assert [t.hours][..0] == [];
      assert ReadBack([t.hours]) == t.hours;
      assert ReadBack([t.hours, t.minutes]) == t.hours * 60 + t.minutes;
    } else {
      assert fs[..1] == [t.minutes];
      assert [t.minutes][..0] == [];
      assert ReadBack([t.minutes]) == t.minutes;
    }
  }

  /** As written, the fields of both labels read back correctly for every
      total under 60 hours except exactly one hour (fields, not rendered text,
      from 24 hours on). */
  lemma AsWrittenLabelsReadBack(cur: int, total: int)
    requires 0 <= cur <= total < 216000 && total != 3600
    ensures Shown(cur, FormatFor(total)) == cur
    ensures Shown(total, FormatFor(total)) == total
  {
    ShownValue(cur, FormatFor(total));
    ShownValue(total, FormatFor(total));
  }

  /** As written, a track of exactly one hour shows its total as "00:00",
      the same as an empty track. */
  lemma ExactHourShownAsZero()
    ensures FormatFor(3600) == MinSec
    ensures DisplayedFields(Split(3600), FormatFor(3600)) == [0, 0]
    ensures Shown(3600, FormatFor(3600)) == Shown(0, FormatFor(0)) == 0
  {
    ShownValue(3600, MinSec);
    ShownValue(0, MinSec);
  }

  /** With the corrected format choice the fields of both labels read back
      correctly for every total under 60 hours (fields, not rendered text,
      from 24 hours on). */
  lemma CorrectedLabelsReadBack(cur: int, total: int)
    requires 0 <= cur <= total < 216000
    ensures Shown(cur, FormatForCorrected(total)) == cur
    ensures Shown(total, FormatForCorrected(total)) == total
  {
    ShownValue(cur, FormatForCorrected(total));
    ShownValue(total, FormatForCorrected(total));
  }
}
