/** The time field of the intervention form: free text normalised to a half-hour slot of
  * the grid, or a pick from the slot list, optionally limited to slots after a minimum. */
module TimeSelect {
  import opened Wrappers
  import opened Seqs
  import opened Text
  import opened Time

  /** `^\d{1,2}:\d{2}$`: one or two digits, ':', two digits. */
  predicate IsCompleteTime(s: string) {
    && (|s| == 4 || |s| == 5)
    && s[|s| - 3] == ':'
    && AllDigits(s[..|s| - 3])
    && AllDigits(s[|s| - 2..])
  }

  /** The hours in `s[..k]`, ':' at `k`, and at most two digits after it. */
  predicate HoursThenMinutes(s: string, k: nat) {
    && 1 <= k <= 2 && k < |s| && |s| <= k + 3
    && AllDigits(s[..k]) && s[k] == ':' && AllDigits(s[k + 1..])
  }

  /** `^\d{1,2}(:\d{0,2})?$`: one or two digits, optionally ':' and up to two digits. */
  predicate IsBlurPattern(s: string) {
    (1 <= |s| <= 2 && AllDigits(s)) || HoursThenMinutes(s, 1) || HoursThenMinutes(s, 2)
  }

  lemma DigitsHaveNoColon(s: string)
    requires AllDigits(s)
    ensures ':' !in s
  {
  }

  /** A string of the blur pattern that holds a ':' splits into its hours and minutes. */
  lemma SplitHoursMinutes(s: string) returns (k: nat)
    requires IsBlurPattern(s) && ':' in s
    ensures HoursThenMinutes(s, k)
    ensures Split(s, ':') == [s[..k], s[k + 1..]]
  {
    if !(1 <= |s| <= 2 && AllDigits(s)) {
      k := if HoursThenMinutes(s, 1) then 1 else 2;
    } else {
      DigitsHaveNoColon(s);
      assert false;
    }
    DigitsHaveNoColon(s[..k]);
    DigitsHaveNoColon(s[k + 1..]);
    assert s == s[..k] + [':'] + s[k + 1..];
    SplitAt(s[..k], s[k + 1..], ':');
    SplitWithout(s[k + 1..], ':');
  }

  /** The `formatted` string of `handleInputBlur`: bare hours get ":00", a minute part of
    * fewer than two digits is padded on the right (an empty one reads as "0"), and the
    * hours are padded on the left in those two cases. */
  function Formatted(s: string): string
    requires IsBlurPattern(s)
  {
    if ':' !in s then PadStart(s, 2, '0') + ":00"
    else
      var parts := Split(s, ':');
      if |parts| >= 2 && |parts[1]| < 2 then
        PadStart(parts[0], 2, '0') + ":" + PadEnd(if parts[1] == [] then "0" else parts[1], 2, '0')
      else s
  }

  lemma PaddingKeepsDigits(s: string)
    requires AllDigits(s)
    ensures AllDigits(PadStart(s, 2, '0')) && AllDigits(PadEnd(s, 2, '0'))
  {
  }

  /** Whatever the blur pattern accepts, `formatted` reads as a number of minutes. */
  lemma FormattedReads(s: string)
    requires IsBlurPattern(s)
    ensures TimeToMinutes(Formatted(s)).Some?
  {
    var f := Formatted(s);
    if ':' !in s {
      var hh := PadStart(s, 2, '0');
      PaddingKeepsDigits(s);
      assert AllDigits("00");
      DigitsHaveNoColon(hh);
      DigitsHaveNoColon("00");
      assert f == hh + [':'] + "00";
      ReadParts(hh, "00");
      NumberOfDigits(hh);
      NumberOfDigits("00");
    } else {
      var k := SplitHoursMinutes(s);
      var h, m := s[..k], s[k + 1..];
      var a, b := h, m;
      if |m| < 2 {
        var m' := if m == [] then "0" else m;
        assert AllDigits(m');
        PaddingKeepsDigits(h);
        PaddingKeepsDigits(m');
        a, b := PadStart(h, 2, '0'), PadEnd(m', 2, '0');
        assert f == a + [':'] + b;
      } else {
        assert f == s == a + [':'] + b;
      }
      DigitsHaveNoColon(a);
      DigitsHaveNoColon(b);
      ReadParts(a, b);
      NumberOfDigits(a);
      NumberOfDigits(b);
    }
  }

  /** What a blur on accepted text sets the field to and sends to `onChange`. */
  function BlurredTime(s: string): string
    requires IsBlurPattern(s)
  {
    RoundToHalfHour(Formatted(s))
  }

  /** Blurring accepted text always lands on a slot of the grid. */
  lemma BlurLandsOnSlot(s: string)
    requires IsBlurPattern(s)
    ensures BlurredTime(s) in TimeSlots()
    ensures TimeToMinutes(BlurredTime(s)) == Some(RoundMinutes(TimeToMinutes(Formatted(s)).value))
  {
    FormattedReads(s);
    RoundLandsOnSlot(Formatted(s));
  }

  /** A complete time is accepted on blur and left as typed before rounding, so typing it
    * and then leaving the field send the same slot. */
  lemma CompleteTimeAgrees(s: string)
    requires IsCompleteTime(s)
    ensures IsBlurPattern(s) && Formatted(s) == s
    ensures RoundToHalfHour(s) in TimeSlots()
  {
    var k := |s| - 3;
    assert s[..k] == s[..|s| - 3] && s[k + 1..] == s[|s| - 2..];
    assert HoursThenMinutes(s, k);
    var k' := SplitHoursMinutes(s);
    BlurLandsOnSlot(s);
  }

  /** A slot of the grid is accepted on blur and stays as it is: blurring twice is the
    * same as blurring once. */
  lemma BlurIdempotent(s: string)
    requires IsBlurPattern(s)
    ensures IsBlurPattern(BlurredTime(s)) && BlurredTime(BlurredTime(s)) == BlurredTime(s)
  {
    var t := BlurredTime(s);
    BlurLandsOnSlot(s);
    SlotIsComplete(t);
    CompleteTimeAgrees(t);
    RoundIdempotent(Formatted(s));
  }

  /** Every slot of the grid is a complete time. */
  lemma SlotIsComplete(t: string)
    requires t in TimeSlots()
    ensures IsCompleteTime(t)
  {
    SlotPadded(t);
    assert t[..2] == [t[0], t[1]] && t[3..] == [t[3], t[4]];
  }

  lemma SlotPadded(t: string)
    requires t in TimeSlots()
    ensures IsPaddedTime(t)
  {
    TimeSlotsGrid();
  }

  /** "8" becomes "08:00", "8:" becomes "08:00" and "8:3" becomes "08:30". */
  lemma BlurExamples()
    ensures IsBlurPattern("8") && BlurredTime("8") == "08:00"
    ensures IsBlurPattern("8:") && BlurredTime("8:") == "08:00"
    ensures IsBlurPattern("8:3") && BlurredTime("8:3") == "08:30"
  {
    assert AllDigits("8") && AllDigits("3") && AllDigits("");
    assert "8:"[..1] == "8" && "8:"[2..] == "";
    assert "8:3"[..1] == "8" && "8:3"[2..] == "3";
    assert HoursThenMinutes("8:", 1) && HoursThenMinutes("8:3", 1);
    var k := SplitHoursMinutes("8:");
    var k' := SplitHoursMinutes("8:3");
    assert Formatted("8") == "08:00";
    assert Formatted("8:") == "08:00";
    assert Formatted("8:3") == "08:30";
    assert PaddedValue("08:00") == 480 && PaddedValue("08:30") == 510;
    RoundExample("08:00", "08:00");
    RoundExample("08:30", "08:30");
  }

  /** `(t) => t > minTime`. */
  function After(minTime: string): string -> bool {
    (t: string) => LexLess(minTime, t)
  }

  /** `filteredSlots`: every slot without a minimum (absent or empty), otherwise the
    * slots that compare greater than it, in grid order. */
  function FilteredSlots(minTime: Option<string>): (r: seq<string>)
    ensures minTime.None? || minTime.value == [] ==> r == TimeSlots()
    ensures minTime.Some? && minTime.value != [] ==>
      forall t :: t in r <==> t in TimeSlots() && LexLess(minTime.value, t)
    ensures SortedBy(r, LexLess)
  {
    TimeSlotsGrid();
    if minTime.None? || minTime.value == [] then TimeSlots()
    else
      FilterSorted(TimeSlots(), After(minTime.value), LexLess);
      Filter(TimeSlots(), After(minTime.value))
  }

  /** After a slot of the grid, the list shows exactly the slots that follow it. */
  lemma FilteredSlotsAfterSlot(k: nat)
    requires k < |TimeSlots()|
    ensures FilteredSlots(Some(TimeSlots()[k])) == TimeSlots()[k + 1..]
  {
    var slots := TimeSlots();
    var p := After(slots[k]);
    var head, tail := slots[..k + 1], slots[k + 1..];
    assert slots == head + tail;
    SlotPadded(slots[k]);
    FilterAppend(head, tail, p);
    SlotsUpTo(k, head);
    FilterNonePass(head, p);
    SlotsFrom(k, tail);
    FilterAllPass(tail, p);
  }

  /** No slot up to position `k` compares greater than the slot at `k`. */
  lemma SlotsUpTo(k: nat, head: seq<string>)
    requires k < |TimeSlots()| && head == TimeSlots()[..k + 1]
    ensures forall j :: 0 <= j < |head| ==> !After(TimeSlots()[k])(head[j])
  {
    var slots := TimeSlots();
    TimeSlotsGrid();
    forall j | 0 <= j < |head| ensures !After(slots[k])(head[j]) {
      assert head[j] == slots[j];
      LexLessIrreflexive(slots[k]);
      if j < k && LexLess(slots[k], slots[j]) {
        LexLessTransitive(slots[j], slots[k], slots[j]);
        LexLessIrreflexive(slots[j]);
      }
    }
  }

  /** Every slot after position `k` compares greater than the slot at `k`. */
  lemma SlotsFrom(k: nat, tail: seq<string>)
    requires k < |TimeSlots()| && tail == TimeSlots()[k + 1..]
    ensures forall j :: 0 <= j < |tail| ==> After(TimeSlots()[k])(tail[j])
  {
    var slots := TimeSlots();
    TimeSlotsGrid();
    forall j | 0 <= j < |tail| ensures After(slots[k])(tail[j]) {
      assert tail[j] == slots[k + 1 + j];
    }
  }

  /** The field as a component: the text shown and whether the slot list is open. Each
    * handler returns the value it passes to `onChange`, None when it passes none. */
  class TimeField {
    var inputValue: string
    var isOpen: bool

    /** `useState(value)`, the list closed. */
    constructor (value: string)
      ensures inputValue == value && !isOpen
    {
      inputValue := value;
      isOpen := false;
    }

    /** The effect that copies a new `value` into the field. */
    method ValueChanged(value: string)
      modifies this
      ensures inputValue == value && isOpen == old(isOpen)
    {
      inputValue := value;
    }

    /** `handleInputChange`: the text is kept; a complete time sends its rounded slot. */
    method InputChanged(val: string) returns (sent: Option<string>)
      modifies this
      ensures inputValue == val && isOpen == old(isOpen)
      ensures sent.Some? <==> IsCompleteTime(val)
      ensures sent.Some? ==> sent.value == RoundToHalfHour(val) && sent.value in TimeSlots()
    {
      inputValue := val;
      if IsCompleteTime(val) {
        CompleteTimeAgrees(val);
        sent := Some(RoundToHalfHour(val));
      } else {
        sent := None;
      }
    }

    /** `handleInputBlur`: accepted text is padded, rounded, shown and sent; anything else
      * puts back the current `value` and sends nothing. */
    method Blur(value: string) returns (sent: Option<string>)
      modifies this
      ensures isOpen == old(isOpen)
      ensures IsBlurPattern(old(inputValue)) ==>
        sent == Some(BlurredTime(old(inputValue))) && inputValue == sent.value && sent.value in TimeSlots()
      ensures !IsBlurPattern(old(inputValue)) ==> sent == None && inputValue == value
    {
      if IsBlurPattern(inputValue) {
        var formatted := inputValue;
        if ':' !in inputValue {
          formatted := PadStart(inputValue, 2, '0') + ":00";
        } else {
          var k := SplitHoursMinutes(inputValue);
          var parts := Split(inputValue, ':');
          if |parts[1]| < 2 {
            var h, m := parts[0], parts[1];
            formatted := PadStart(h, 2, '0') + ":" + PadEnd(if m == [] then "0" else m, 2, '0');
          }
        }
        assert formatted == Formatted(inputValue);
        BlurLandsOnSlot(inputValue);
        var rounded := RoundToHalfHour(formatted);
        inputValue := rounded;
        sent := Some(rounded);
      } else {
        inputValue := value;
        sent := None;
      }
    }

    /** `handleSelectTime(time)`: the slot is sent and shown, and the list closes. */
    method SelectTime(time: string) returns (sent: Option<string>)
      modifies this
      ensures sent == Some(time) && inputValue == time && !isOpen
    {
      sent := Some(time);
      inputValue := time;
      isOpen := false;
    }
  }
}
