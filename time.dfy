/** The time-of-day utilities: a half-hour slot grid from 06:00 to 20:00, conversions
  * between "HH:MM" strings and minutes since midnight, rounding and validation. */
module Time {
  import opened Wrappers
  import opened Text

  /** The operating window, in minutes since midnight (06:00 and 20:00). */
  const WindowStart: int := 6 * 60
  const WindowEnd: int := 20 * 60
  const SlotLength: int := 30
  const SlotCount: nat := 29

  /** JavaScript's `%`: the remainder takes the sign of the dividend. */
  function JsRem(a: int, b: int): (r: int)
    requires b > 0
    ensures a >= 0 ==> r == a % b
    ensures -b < r < b
  {
    if a >= 0 then a % b else -((-a) % b)
  }

  /** `minutesToTime(minutes)`: `Math.floor(minutes / 60)` and `minutes % 60`, each
    * written in decimal and padded to two digits, joined by ':'. */
  function MinutesToTime(minutes: int): string {
    var hours := minutes / 60;  // Euclidean division by a positive divisor is Math.floor
    var mins := JsRem(minutes, 60);
    PadStart(IntToString(hours), 2, '0') + ":" + PadStart(IntToString(mins), 2, '0')
  }

  /** `timeToMinutes(time)`: the first two ':'-separated parts read by `Number`;
    * None is the NaN the source computes when a part is missing or not a number. */
  function TimeToMinutes(time: string): Option<int> {
    var parts := Split(time, ':');
    if |parts| < 2 then None else HoursAndMinutes(Number(parts[0]), Number(parts[1]))
  }

  /** `hours * 60 + minutes`, NaN when either is NaN. */
  function HoursAndMinutes(hours: Option<int>, minutes: Option<int>): Option<int> {
    if hours.Some? && minutes.Some? then Some(hours.value * 60 + minutes.value) else None
  }

  /** `Math.round(minutes / 30) * 30` (halves round up), clamped into the window. */
  function RoundMinutes(minutes: int): (r: int)
    ensures r % SlotLength == 0 && WindowStart <= r <= WindowEnd
    ensures WindowStart <= minutes <= WindowEnd ==> minutes - 15 < r <= minutes + 15
    ensures minutes < WindowStart ==> r == WindowStart
    ensures minutes > WindowEnd ==> r == WindowEnd
  {
    var rounded := ((minutes + 15) / 30) * 30;
    if rounded < WindowStart then WindowStart
    else if rounded > WindowEnd then WindowEnd
    else rounded
  }

  /** Reading "a:b" when neither part holds a ':'. */
  lemma ReadParts(a: string, b: string)
    requires ':' !in a && ':' !in b
    ensures TimeToMinutes(a + [':'] + b) == HoursAndMinutes(Number(a), Number(b))
  {
    SplitAt(a, b, ':');
    SplitWithout(b, ':');
    var parts := Split(a + [':'] + b, ':');
    assert parts == [a, b];
    assert parts[0] == a && parts[1] == b;
  }

  /** `roundToHalfHour(time)`; an unreadable time gives the string the source prints for NaN. */
  function RoundToHalfHour(time: string): string {
    match TimeToMinutes(time)
    case None => "NaN:NaN"
    case Some(m) => MinutesToTime(RoundMinutes(m))
  }

  /** `isValidTimeRange(start, end)`: NaN compares false. */
  predicate IsValidTimeRange(start: string, end: string) {
    match (TimeToMinutes(start), TimeToMinutes(end))
    case (Some(s), Some(e)) => e > s
    case _ => false
  }

  /** `getSlotIndex(time)`: the (possibly fractional) number of half hours since 06:00. */
  function SlotIndex(time: string): Option<real> {
    match TimeToMinutes(time)
    case None => None
    case Some(m) => Some((m - WindowStart) as real / SlotLength as real)
  }

  /** `getEventHeight(start, end)`, in slots. */
  function EventHeight(start: string, end: string): Option<real> {
    match (SlotIndex(start), SlotIndex(end))
    case (Some(s), Some(e)) => Some(e - s)
    case _ => None
  }

  /** `TIME_SLOTS`: the value `generateTimeSlots()` builds. */
  function TimeSlots(): (slots: seq<string>)
    ensures |slots| == SlotCount
  {
    seq(SlotCount, k requires 0 <= k < SlotCount => Label(6 + k / 2, k % 2 * 30))
  }

  /** `generateTimeSlots()`: for each hour from 6 to 20, "HH:00" and, before 20, "HH:30". */
  method GenerateTimeSlots() returns (slots: seq<string>)
    ensures slots == TimeSlots()
  {
    slots := [];
    for hour := 6 to 21
      invariant |slots| == 2 * (hour - 6)
      invariant forall k :: 0 <= k < |slots| ==> slots[k] == TimeSlots()[k]
    {
      var hh := PadStart(IntToString(hour), 2, '0');
      HourSlots(hour);
      slots := slots + [hh + ":00"];
      if hour < 20 {
        slots := slots + [hh + ":30"];
      } else {
        break;
      }
    }
  }

  /** TIME_SLOTS holds "HH:00" at position 2 * (HH - 6) and "HH:30" right after it. */
  lemma HourSlots(hour: nat)
    requires 6 <= hour <= 20
    ensures TimeSlots()[2 * (hour - 6)] == PadStart(IntToString(hour), 2, '0') + ":00"
    ensures hour < 20 ==> TimeSlots()[2 * (hour - 6) + 1] == PadStart(IntToString(hour), 2, '0') + ":30"
  {
    HalfHourSuffixes();
    HourLabel(hour, 0, 2 * (hour - 6), ":00");
    if hour < 20 {
      HourLabel(hour, 30, 2 * (hour - 6) + 1, ":30");
    }
  }

  lemma HalfHourSuffixes()
    ensures ":" + Padded(0) == ":00" && ":" + Padded(30) == ":30"
  {
    TwoDigits(0);
    TwoDigits(30);
  }

  /** The slot of `hour`:`m` holds its label. */
  lemma HourLabel(hour: nat, m: nat, k: nat, suffix: string)
    requires 6 <= hour <= 20 && (m == 0 || (m == 30 && hour < 20))
    requires k == 2 * (hour - 6) + m / 30 && suffix == ":" + Padded(m)
    ensures k < SlotCount && TimeSlots()[k] == PadStart(IntToString(hour), 2, '0') + suffix
  {
    assert k / 2 == hour - 6 && k % 2 * 30 == m;
    LabelText(hour, m, suffix);
  }

  /** The label of `hour`:`m` spelled with the hour as `generateTimeSlots` writes it. */
  lemma LabelText(hour: nat, m: nat, suffix: string)
    requires suffix == ":" + Padded(m)
    ensures Label(hour, m) == PadStart(IntToString(hour), 2, '0') + suffix
  {
  }

  /** Slot `k` is the label of 06:00 plus `k` half hours. */
  lemma SlotAt(k: nat)
    requires k < SlotCount
    ensures TimeSlots()[k] == MinutesToTime(WindowStart + SlotLength * k)
  {
    var h, m := 6 + k / 2, k % 2 * 30;
    assert TimeSlots()[k] == Label(h, m);
    LabelMinutes(WindowStart + SlotLength * k, h, m);
  }

  /** `minutesToTime` writes the label of the hours and minutes it is given. */
  lemma LabelMinutes(x: int, h: nat, m: nat)
    requires m < 60 && x == 60 * h + m
    ensures MinutesToTime(x) == Label(h, m)
  {
    assert x / 60 == h && x % 60 == m;
  }

  /** `n.toString().padStart(2, '0')`. */
  function Padded(n: nat): string {
    PadStart(NatToString(n), 2, '0')
  }

  /** The label `minutesToTime` writes for `hours` and `mins`. */
  function Label(hours: nat, mins: nat): string {
    Padded(hours) + ":" + Padded(mins)
  }

  lemma PaddedPart(n: nat)
    ensures ':' !in Padded(n) && Number(Padded(n)) == Some(n)
  {
    PaddedNumber(n);
    assert AllDigits(Padded(n));
  }

  lemma ReadLabel(hours: nat, mins: nat)
    ensures TimeToMinutes(Label(hours, mins)) == HoursAndMinutes(Some(hours), Some(mins))
  {
    PaddedPart(hours);
    PaddedPart(mins);
    assert Label(hours, mins) == Padded(hours) + [':'] + Padded(mins);
    ReadParts(Padded(hours), Padded(mins));
  }

  lemma Recompose(m: int)
    requires m >= 0
    ensures HoursAndMinutes(Some(m / 60), Some(m % 60)) == Some(m)
  {
  }

  /** `timeToMinutes(minutesToTime(m)) == m` for every non-negative minute count. */
  lemma MinutesRoundTrip(m: int)
    requires m >= 0
    ensures TimeToMinutes(MinutesToTime(m)) == Some(m)
  {
    var h, mi := m / 60, m % 60;
    assert MinutesToTime(m) == Label(h, mi);
    ReadLabel(h, mi);
    Recompose(m);
  }

  /** A zero-padded "HH:MM" string. */
  predicate IsPaddedTime(t: string) {
    |t| == 5 && IsDigit(t[0]) && IsDigit(t[1]) && t[2] == ':' && IsDigit(t[3]) && IsDigit(t[4])
  }

  /** The hours and the minutes a zero-padded "HH:MM" spells. */
  function PaddedHours(t: string): nat
    requires IsPaddedTime(t)
  {
    10 * DigitValue(t[0]) + DigitValue(t[1])
  }

  function PaddedMinutes(t: string): nat
    requires IsPaddedTime(t)
  {
    10 * DigitValue(t[3]) + DigitValue(t[4])
  }

  lemma DigitRoundTrip(c: char)
    requires IsDigit(c)
    ensures DigitChar(DigitValue(c)) == c
  {
  }

  /** Every zero-padded "HH:MM" is the label of its own hours and minutes. */
  lemma PaddedIsLabel(t: string)
    requires IsPaddedTime(t)
    ensures t == Label(PaddedHours(t), PaddedMinutes(t))
  {
    var h, mi := PaddedHours(t), PaddedMinutes(t);
    TwoDigits(h);
    TwoDigits(mi);
    DigitRoundTrip(t[0]);
    DigitRoundTrip(t[1]);
    DigitRoundTrip(t[3]);
    DigitRoundTrip(t[4]);
    assert h / 10 == DigitValue(t[0]) && h % 10 == DigitValue(t[1]);
    assert mi / 10 == DigitValue(t[3]) && mi % 10 == DigitValue(t[4]);
  }

  /** Reading a zero-padded "HH:MM": its hours times 60 plus its minutes. */
  lemma ReadPaddedTime(t: string)
    requires IsPaddedTime(t)
    ensures TimeToMinutes(t) == HoursAndMinutes(Some(PaddedHours(t)), Some(PaddedMinutes(t)))
  {
    PaddedIsLabel(t);
    ReadLabel(PaddedHours(t), PaddedMinutes(t));
  }

  /** The minutes since midnight a zero-padded "HH:MM" denotes. */
  function PaddedValue(t: string): nat
    requires IsPaddedTime(t)
  {
    PaddedHours(t) * 60 + PaddedMinutes(t)
  }

  /** Both directions for every zero-padded "HH:MM" with MM < 60:
    * `timeToMinutes` reads its value and `minutesToTime` writes it back. */
  lemma TimeRoundTrip(t: string)
    requires IsPaddedTime(t) && PaddedMinutes(t) < 60
    ensures TimeToMinutes(t) == Some(PaddedValue(t))
    ensures MinutesToTime(PaddedValue(t)) == t
  {
    ReadPaddedTime(t);
    PaddedValueSplit(t);
    PaddedIsLabel(t);
  }

  lemma PaddedValueSplit(t: string)
    requires IsPaddedTime(t) && PaddedMinutes(t) < 60
    ensures HoursAndMinutes(Some(PaddedHours(t)), Some(PaddedMinutes(t))) == Some(PaddedValue(t))
    ensures MinutesToTime(PaddedValue(t)) == Label(PaddedHours(t), PaddedMinutes(t))
  {
    var h, mi, v := PaddedHours(t), PaddedMinutes(t), PaddedValue(t);
    assert v / 60 == h && v % 60 == mi;
  }

  /** Below 100 hours, `minutesToTime` writes exactly two digits, ':', two digits. */
  lemma DigitForm(m: int)
    requires 0 <= m < 6000
    ensures MinutesToTime(m) == [DigitChar(m / 60 / 10), DigitChar(m / 60 % 10), ':',
                                 DigitChar(m % 60 / 10), DigitChar(m % 60 % 10)]
    ensures IsPaddedTime(MinutesToTime(m))
  {
    TwoDigits(m / 60);
    TwoDigits(m % 60);
  }

  lemma {:induction false} LexLessAfterFirst(a: string, b: string, k: nat)
    requires k < |a| && k < |b| && a[..k] == b[..k] && a[k] < b[k]
    ensures LexLess(a, b)
  {
    if k > 0 {
      assert a[0] == a[..k][0] == b[..k][0] == b[0];
      assert a[1..][..k - 1] == a[..k][1..] == b[..k][1..] == b[1..][..k - 1];
      LexLessAfterFirst(a[1..], b[1..], k - 1);
    }
  }

  /** Below 100 hours, later minute counts give lexicographically greater labels. */
  lemma LabelsOrdered(a: int, b: int)
    requires 0 <= a < b < 6000
    ensures LexLess(MinutesToTime(a), MinutesToTime(b))
  {
    DigitForm(a);
    DigitForm(b);
    var x, y := MinutesToTime(a), MinutesToTime(b);
    var ha, hb, ma, mb := a / 60, b / 60, a % 60, b % 60;
    assert ha <= hb;
    if ha / 10 != hb / 10 {
      assert ha / 10 < hb / 10;
      LexLessAfterFirst(x, y, 0);
    } else if ha % 10 != hb % 10 {
      assert ha % 10 < hb % 10;
      LexLessAfterFirst(x, y, 1);
    } else {
      assert ha == hb && ma < mb;
      if ma / 10 != mb / 10 {
        LexLessAfterFirst(x, y, 3);
      } else {
        assert ma % 10 < mb % 10;
        LexLessAfterFirst(x, y, 4);
      }
    }
  }

  /** The grid: 29 strictly increasing zero-padded labels from "06:00" to "20:00". */
  lemma TimeSlotsGrid()
    ensures |TimeSlots()| == 29
    ensures TimeSlots()[0] == "06:00" && TimeSlots()[28] == "20:00"
    ensures forall k :: 0 <= k < |TimeSlots()| ==> IsPaddedTime(TimeSlots()[k])
    ensures forall i, j :: 0 <= i < j < |TimeSlots()| ==> LexLess(TimeSlots()[i], TimeSlots()[j])
  {
    var slots := TimeSlots();
    DigitForm(360);
    DigitForm(1200);
    SlotAt(0);
    SlotAt(28);
    forall k | 0 <= k < |slots| ensures IsPaddedTime(slots[k]) {
      SlotAt(k);
      DigitForm(WindowStart + SlotLength * k);
    }
    forall i, j | 0 <= i < j < |slots| ensures LexLess(slots[i], slots[j]) {
      SlotAt(i);
      SlotAt(j);
      LabelsOrdered(WindowStart + SlotLength * i, WindowStart + SlotLength * j);
    }
  }

  /** Every minute count of the grid has its label in TIME_SLOTS, at position (m - 360) / 30. */
  lemma OnGrid(m: int)
    requires WindowStart <= m <= WindowEnd && m % SlotLength == 0
    ensures MinutesToTime(m) == TimeSlots()[(m - WindowStart) / SlotLength]
  {
    var k := (m - WindowStart) / SlotLength;
    assert WindowStart + SlotLength * k == m;
    SlotOfMinutes(m, k);
  }

  lemma SlotOfMinutes(m: int, k: nat)
    requires k < SlotCount && m == WindowStart + SlotLength * k
    ensures MinutesToTime(m) == TimeSlots()[k]
  {
    SlotAt(k);
  }

  /** `roundToHalfHour` gives a TIME_SLOTS label whenever the input reads as a number,
    * and the NaN label otherwise. */
  lemma RoundLandsOnSlot(t: string)
    ensures TimeToMinutes(t).Some? ==> RoundToHalfHour(t) in TimeSlots()
    ensures TimeToMinutes(t).Some? ==>
      TimeToMinutes(RoundToHalfHour(t)) == Some(RoundMinutes(TimeToMinutes(t).value))
    ensures TimeToMinutes(t).None? ==> RoundToHalfHour(t) == "NaN:NaN"
  {
    if TimeToMinutes(t).Some? {
      var r := RoundMinutes(TimeToMinutes(t).value);
      OnGrid(r);
      MinutesRoundTrip(r);
    }
  }

  lemma NaNLabelUnreadable()
    ensures TimeToMinutes("NaN:NaN").None?
  {
    assert "NaN:NaN" == "NaN" + [':'] + "NaN";
    ReadParts("NaN", "NaN");
    NumberOfNaN();
  }

  /** `Number("NaN")` is NaN. */
  lemma NumberOfNaN()
    ensures Number("NaN").None?
  {
    TrimOfTrimmed("NaN");
    assert !IsDigit("NaN"[0]);
  }

  /** A minute count on the grid rounds to itself. */
  lemma RoundFixed(m: int)
    requires WindowStart <= m <= WindowEnd && m % SlotLength == 0
    ensures RoundMinutes(m) == m
  {
    assert (m + 15) / 30 == m / 30;
  }

  /** Rounding a rounded time changes nothing. */
  lemma RoundIdempotent(t: string)
    ensures RoundToHalfHour(RoundToHalfHour(t)) == RoundToHalfHour(t)
  {
    RoundLandsOnSlot(t);
    if TimeToMinutes(t).Some? {
      var r := RoundMinutes(TimeToMinutes(t).value);
      RoundFixed(r);
    } else {
      NaNLabelUnreadable();
    }
  }

  lemma RoundExample(t: string, expected: string)
    requires IsPaddedTime(t) && IsPaddedTime(expected)
    requires PaddedMinutes(expected) < 60
    requires PaddedMinutes(t) < 60
    requires RoundMinutes(PaddedValue(t)) == PaddedValue(expected)
    ensures RoundToHalfHour(t) == expected
  {
    TimeRoundTrip(t);
    TimeRoundTrip(expected);
  }

  /** The documented examples: 08:07 rounds down to 08:00, 08:23 up to 08:30, and the
    * quarter hour 08:15 goes up. */
  lemma RoundExamples()
    ensures RoundToHalfHour("08:07") == "08:00"
    ensures RoundToHalfHour("08:23") == "08:30"
    ensures RoundToHalfHour("08:15") == "08:30"
  {
    assert PaddedValue("08:07") == 487 && PaddedValue("08:00") == 480;
    assert PaddedValue("08:23") == 503 && PaddedValue("08:15") == 495;
    assert PaddedValue("08:30") == 510;
    RoundExample("08:07", "08:00");
    RoundExample("08:23", "08:30");
    RoundExample("08:15", "08:30");
  }

  /** `getSlotIndex` of TIME_SLOTS[k] is k, so "06:00" is slot 0 and every half hour adds one. */
  lemma SlotIndexOfGrid(k: nat)
    requires k < SlotCount
    ensures SlotIndex(TimeSlots()[k]) == Some(k as real)
  {
    var t := TimeSlots()[k];
    assert TimeToMinutes(t) == Some(WindowStart + SlotLength * k) by {
      SlotAt(k);
      MinutesRoundTrip(WindowStart + SlotLength * k);
    }
    SlotIndexOfHalfHours(t, k);
  }

  /** A time reading as 06:00 plus `k` half hours is slot `k`. */
  lemma SlotIndexOfHalfHours(t: string, k: int)
    requires TimeToMinutes(t) == Some(WindowStart + SlotLength * k)
    ensures SlotIndex(t) == Some(k as real)
  {
    SlotIndexOf(t, WindowStart + SlotLength * k);
    HalfHours(k);
  }

  lemma SlotIndexOfMinutes(m: int)
    requires m >= 0
    ensures SlotIndex(MinutesToTime(m)) == Some((m - WindowStart) as real / 30.0)
  {
    MinutesRoundTrip(m);
    SlotIndexOf(MinutesToTime(m), m);
  }

  lemma SlotIndexOf(t: string, m: int)
    requires TimeToMinutes(t) == Some(m)
    ensures SlotIndex(t) == Some((m - WindowStart) as real / 30.0)
  {
  }

  lemma HalfHours(k: int)
    ensures (WindowStart + SlotLength * k - WindowStart) as real / 30.0 == k as real
  {
  }

  /** `getSlotIndex` grows by exactly one per 30 minutes. */
  lemma SlotIndexStep(m: int)
    requires m >= 0
    ensures SlotIndex(MinutesToTime(m)).Some? && SlotIndex(MinutesToTime(m + 30)).Some?
    ensures SlotIndex(MinutesToTime(m + 30)).value == SlotIndex(MinutesToTime(m)).value + 1.0
  {
    MinutesRoundTrip(m);
    MinutesRoundTrip(m + 30);
  }

  /** `getEventHeight(s, e)` is the difference of slot indices, positive exactly
    * when `isValidTimeRange(s, e)`. */
  lemma EventHeightSign(start: string, end: string)
    requires TimeToMinutes(start).Some? && TimeToMinutes(end).Some?
    ensures EventHeight(start, end).Some?
    ensures EventHeight(start, end).value
         == (TimeToMinutes(end).value - TimeToMinutes(start).value) as real / 30.0
    ensures EventHeight(start, end).value > 0.0 <==> IsValidTimeRange(start, end)
  {
  }
}
