/**
 * The time formatter: renders a number of seconds as "{h}h {m}m {s}s",
 * "{m}m {s}s" or "{s}s", as a pure function and as the C routine that
 * writes the text, NUL-terminated, into a caller's character buffer.
 */
module TimeFormat {
  import opened Wrappers
  import opened CString
  import opened NumericText
  import opened Vocabulary

  /** The buffer size the header documents as the minimum. */
  const DocumentedBufferSize: nat := 16

  /** The buffer size every `unsigned long` input actually needs (text plus NUL). */
  const RequiredBufferSize: nat := 17

  /** A duration split into whole hours, minutes and seconds. */
  datatype Clock = Clock(hours: nat, minutes: nat, seconds: nat)

  /** The split made with `/` and `%`: hours = s/3600, minutes = (s%3600)/60, seconds = s%60. */
  function Split(total: nat): (c: Clock)
    ensures c.minutes < 60 && c.seconds < 60
    ensures c.hours * 3600 + c.minutes * 60 + c.seconds == total
  {
    Clock(total / 3600, (total % 3600) / 60, total % 60)
  }

  /**
   * On a 32-bit target the three parts fit the `int` variables the C code
   * stores them in, so the conversion from `unsigned long` loses nothing.
   */
  lemma SplitFitsInt(total: ULong)
    ensures Split(total).hours <= IntMax
    ensures Split(total).hours <= 1_193_046
  {
  }

  /** No other split keeps minutes and seconds below 60. */
  lemma SplitUnique(total: nat, c: Clock)
    requires c.minutes < 60 && c.seconds < 60
    requires c.hours * 3600 + c.minutes * 60 + c.seconds == total
    ensures c == Split(total)
  {
    var below := c.minutes * 60 + c.seconds;
    assert 0 <= below < 3600;
    assert total / 3600 == c.hours && total % 3600 == below;
  }

  /** One `%d` conversion followed by its unit letter, as in "12m". */
  function Segment(n: nat, unit: char): string
    requires !IsDigit(unit)
  {
    Decimal(n) + [unit]
  }

  /** The only non-digit in a segment is its unit letter. */
  lemma SegmentLetter(n: nat, unit: char, ch: char)
    requires !IsDigit(unit) && !IsDigit(ch)
    ensures ch in Segment(n, unit) <==> ch == unit
  {
    DecimalDigits(n);
    assert ch in Segment(n, unit) <==> ch in Decimal(n) || ch == unit;
  }

  /** Two pieces of text with one space between them. */
  function Join(first: string, second: string): string {
    first + " " + second
  }

  /**
   * The three `sprintf` formats: "{h}h {m}m {s}s" when there are hours,
   * else "{m}m {s}s" when there are minutes, else "{s}s".
   */
  function Render(c: Clock): string {
    if c.hours > 0 then
      Join(Segment(c.hours, 'h'), Join(Segment(c.minutes, 'm'), Segment(c.seconds, 's')))
    else if c.minutes > 0 then
      Join(Segment(c.minutes, 'm'), Segment(c.seconds, 's'))
    else
      Segment(c.seconds, 's')
  }

  /** A letter in a rendering comes from one of its segments. */
  lemma RenderLetter(c: Clock, ch: char)
    requires !IsDigit(ch) && ch != ' '
    ensures ch in Render(c) <==>
      (c.hours > 0 && ch == 'h') || ((c.hours > 0 || c.minutes > 0) && ch == 'm') || ch == 's'
  {
    SegmentLetter(c.hours, 'h', ch);
    SegmentLetter(c.minutes, 'm', ch);
    SegmentLetter(c.seconds, 's', ch);
  }

  /** Which unit letters a rendering holds, and that it ends with the seconds segment. */
  lemma RenderShape(c: Clock)
    ensures var text := Render(c);
      && ('h' in text <==> c.hours > 0)
      && ('m' in text <==> c.hours > 0 || c.minutes > 0)
      && '\0' !in text
      && |Segment(c.seconds, 's')| <= |text|
      && text[|text| - |Segment(c.seconds, 's')|..] == Segment(c.seconds, 's')
  {
    RenderLetter(c, 'h');
    RenderLetter(c, 'm');
    RenderLetter(c, '\0');
    var secs := Segment(c.seconds, 's');
    if c.hours > 0 || c.minutes > 0 {
      var tail := Join(Segment(c.minutes, 'm'), secs);
      assert tail[|tail| - |secs|..] == secs;
      if c.hours > 0 {
        var text := Join(Segment(c.hours, 'h'), tail);
        assert text[|text| - |secs|..] == tail[|tail| - |secs|..];
      }
    } else {
      assert secs[0..] == secs;
    }
  }

  /** `TSE_FormatTime`'s text, without the terminating NUL. */
  function FormatTime(total: ULong): string {
    Render(Split(total))
  }

  /**
   * The text ends with the seconds segment, holds an hours segment exactly
   * from one hour on and a minutes segment exactly from one minute on, and
   * never holds a NUL.
   */
  lemma FormatTimeShape(total: ULong)
    ensures var text := FormatTime(total);
      && text != [] && text[|text| - 1] == 's'
      && |Decimal(total % 60)| < |text|
      && text[|text| - |Decimal(total % 60)| - 1..] == Decimal(total % 60) + "s"
      && ('h' in text <==> total >= 3600)
      && ('m' in text <==> total >= 60)
      && '\0' !in text
  {
    var c := Split(total);
    assert c.seconds == total % 60;
    assert c.hours > 0 <==> total >= 3600;
    assert c.hours > 0 || c.minutes > 0 <==> total >= 60;
    RenderShape(c);
  }

  // ---------------------------------------------------------------- reading the text back

  /** The letters that end a segment. */
  predicate IsUnit(unit: char) {
    unit == 'h' || unit == 'm' || unit == 's'
  }

  /** `count` hours, minutes or seconds, in seconds. */
  function InSeconds(count: nat, unit: char): nat {
    if unit == 'h' then 3600 * count else if unit == 'm' then 60 * count else count
  }

  function Add(d: Option<nat>, n: nat): Option<nat> {
    match d
    case None => None
    case Some(v) => Some(v + n)
  }

  /**
   * The duration a text of space-separated "<digits><unit>" segments
   * denotes, or None when the text is not of that form.
   */
  function ReadDuration(text: string): Option<nat>
    decreases |text|
  {
    var k := DigitRun(text);
    if k == 0 || k == |text| || !IsUnit(text[k]) then None
    else
      var value := InSeconds(DigitsValue(text[..k]), text[k]);
      if k + 1 == |text| then Some(value)
      else if text[k + 1] != ' ' then None
      else Add(ReadDuration(text[k + 2..]), value)
  }

  /** Where the digits of a segment end and what follows them. */
  lemma SegmentLayout(n: nat, unit: char, rest: string)
    requires IsUnit(unit)
    ensures var text := Segment(n, unit) + rest;
      var k := |Decimal(n)|;
      && DigitRun(text) == k && k < |text| && text[k] == unit
      && DigitsValue(text[..k]) == n
      && |text| == k + 1 + |rest|
      && (rest != [] ==> text[k + 1] == rest[0] && text[k + 2..] == rest[1..])
  {
    var text := Segment(n, unit) + rest;
    var d := Decimal(n);
    assert text == d + ([unit] + rest);
    DecimalRoundTrip(n);
    DigitRunOf(d, [unit] + rest);
    assert text[..|d|] == d;
    DecimalRoundTrip(n);
    if rest != [] {
      assert text[|d| + 2..] == rest[1..];
    }
  }

  /** A segment on its own reads as its number of seconds. */
  lemma ReadLastSegment(n: nat, unit: char)
    requires IsUnit(unit)
    ensures ReadDuration(Segment(n, unit)) == Some(InSeconds(n, unit))
  {
    SegmentLayout(n, unit, []);
    assert Segment(n, unit) + [] == Segment(n, unit);
  }

  /** A segment followed by a space adds its seconds to what the rest reads as. */
  lemma ReadJoinedSegment(n: nat, unit: char, tail: string)
    requires IsUnit(unit)
    ensures ReadDuration(Join(Segment(n, unit), tail)) == Add(ReadDuration(tail), InSeconds(n, unit))
  {
    SegmentLayout(n, unit, " " + tail);
    assert Join(Segment(n, unit), tail) == Segment(n, unit) + (" " + tail);
    assert (" " + tail)[1..] == tail;
  }

  /** The same, once what the rest reads as is known. */
  lemma ReadBeforeKnown(n: nat, unit: char, tail: string, rest: nat)
    requires IsUnit(unit) && ReadDuration(tail) == Some(rest)
    ensures ReadDuration(Join(Segment(n, unit), tail)) == Some(InSeconds(n, unit) + rest)
  {
    ReadJoinedSegment(n, unit, tail);
    assert Add(Some(rest), InSeconds(n, unit)) == Some(InSeconds(n, unit) + rest);
  }

  lemma ReadMinutesSeconds(minutes: nat, seconds: nat)
    ensures ReadDuration(Join(Segment(minutes, 'm'), Segment(seconds, 's'))) == Some(minutes * 60 + seconds)
  {
    ReadLastSegment(seconds, 's');
    ReadJoinedSegment(minutes, 'm', Segment(seconds, 's'));
  }

  /** Whatever the clock, its rendering reads back as the seconds it adds up to. */
  lemma RenderRoundTrip(c: Clock, total: nat)
    requires c.hours * 3600 + c.minutes * 60 + c.seconds == total
    ensures ReadDuration(Render(c)) == Some(total)
  {
    if c.hours > 0 {
      RenderHoursRoundTrip(c);
    } else if c.minutes > 0 {
      RenderMinutesRoundTrip(c);
    } else {
      ReadLastSegment(c.seconds, 's');
    }
  }

  lemma RenderHoursRoundTrip(c: Clock)
    requires c.hours > 0
    ensures ReadDuration(Render(c)) == Some(c.hours * 3600 + c.minutes * 60 + c.seconds)
  {
    var tail := Join(Segment(c.minutes, 'm'), Segment(c.seconds, 's'));
    ReadMinutesSeconds(c.minutes, c.seconds);
    ReadBeforeKnown(c.hours, 'h', tail, c.minutes * 60 + c.seconds);
  }

  lemma RenderMinutesRoundTrip(c: Clock)
    requires c.hours == 0 && c.minutes > 0
    ensures ReadDuration(Render(c)) == Some(c.hours * 3600 + c.minutes * 60 + c.seconds)
  {
    ReadMinutesSeconds(c.minutes, c.seconds);
  }

  /** The formatted text reads back as the number of seconds it was made from. */
  lemma FormatTimeRoundTrip(total: ULong)
    ensures ReadDuration(FormatTime(total)) == Some(total)
  {
    RenderRoundTrip(Split(total), total);
  }

  /** Zero seconds still print a seconds segment. */
  lemma FormatTimeZeroExample()
    ensures FormatTime(0) == "0s"
  {
    assert Split(0) == Clock(0, 0, 0);
    assert Segment(0, 's') == "0s";
  }

  lemma FormatTimeSecondsExample()
    ensures FormatTime(45) == "45s"
  {
    assert Split(45) == Clock(0, 0, 45);
    assert Decimal(4) == "4";
    assert Segment(45, 's') == "45s";
  }

  lemma FormatTimeMinutesExample()
    ensures FormatTime(125) == "2m 5s"
  {
    assert Split(125) == Clock(0, 2, 5);
    assert Segment(2, 'm') == "2m" && Segment(5, 's') == "5s";
    assert Render(Clock(0, 2, 5)) == "2m 5s";
  }

  /** With an hours segment the minutes segment is printed even when it is zero. */
  lemma FormatTimeZeroMinutesExample()
    ensures FormatTime(3605) == "1h 0m 5s"
  {
    assert Split(3605) == Clock(1, 0, 5);
    assert Segment(1, 'h') == "1h" && Segment(0, 'm') == "0m" && Segment(5, 's') == "5s";
    assert Join("0m", "5s") == "0m 5s";
    assert Render(Clock(1, 0, 5)) == "1h 0m 5s";
  }

  lemma FormatTimeHoursExample()
    ensures FormatTime(3725) == "1h 2m 5s"
  {
    assert Split(3725) == Clock(1, 2, 5);
    assert Segment(1, 'h') == "1h" && Segment(2, 'm') == "2m" && Segment(5, 's') == "5s";
    assert Join("2m", "5s") == "2m 5s";
    assert Render(Clock(1, 2, 5)) == "1h 2m 5s";
  }

  // ---------------------------------------------------------------- buffer size

  /** Lengths of the three conversions, bounded by the number of digits of each. */
  lemma FormatTimeLength(total: ULong, hourDigits: nat)
    requires 1 <= hourDigits && total / 3600 < Pow10(hourDigits)
    ensures |FormatTime(total)| <= hourDigits + 9
  {
    var c := Split(total);
    assert Pow10(2) == 100;
    DecimalLengthAtMost(c.minutes, 2);
    DecimalLengthAtMost(c.seconds, 2);
    DecimalLengthAtMost(c.hours, hourDigits);
  }

  /** Below 3,600,000,000 seconds the text and its NUL fit the documented 16 characters. */
  lemma FormatTimeFitsDocumentedBuffer(total: ULong)
    requires total < 3_600_000_000
    ensures |FormatTime(total)| + 1 <= DocumentedBufferSize
  {
    assert Pow10(6) == 1_000_000;
    FormatTimeLength(total, 6);
  }

  /** Every `unsigned long` input fits a buffer of 17 characters. */
  lemma FormatTimeFitsBuffer(total: ULong)
    ensures |FormatTime(total)| + 1 <= RequiredBufferSize
  {
    assert Pow10(7) == 10_000_000;
    FormatTimeLength(total, 7);
  }

  /** 3,600,000,610 seconds render as "1000000h 10m 10s": 16 characters plus the NUL. */
  lemma DocumentedBufferTooSmall()
    ensures |FormatTime(3_600_000_610)| + 1 > DocumentedBufferSize
  {
    var c := Split(3_600_000_610);
    assert c == Clock(1_000_000, 10, 10);
    assert Pow10(6) == 1_000_000 && Pow10(1) == 10;
    DecimalLengthAbove(c.hours, 6);
    DecimalLengthAbove(c.minutes, 1);
    DecimalLengthAbove(c.seconds, 1);
  }

  // ---------------------------------------------------------------- the C routine

  /**
   * `TSE_FormatTime(seconds, buffer)`: writes the text and its NUL at the
   * start of `buffer`, leaves the rest of it alone and returns `buffer`.
   * `sprintf` needs room for the text and the NUL, which is what the
   * precondition asks for.
   */
  method FormatTimeInBuffer(total: ULong, buffer: array<char>) returns (result: array<char>)
    requires |FormatTime(total)| < buffer.Length
    modifies buffer
    ensures result == buffer
    ensures buffer[..|FormatTime(total)| + 1] == FormatTime(total) + ['\0']
    ensures buffer[|FormatTime(total)| + 1..] == old(buffer[|FormatTime(total)| + 1..])
    ensures CStringOf(buffer[..]) == FormatTime(total)
  {
    var text := FormatTime(total);
    FormatTimeShape(total);
    ghost var before := buffer[..];
    forall i | 0 <= i < |text| {
      buffer[i] := text[i];
    }
    buffer[|text|] := '\0';
    assert buffer[|text| + 1..] == before[|text| + 1..];
    assert buffer[..] == buffer[..|text| + 1] + buffer[|text| + 1..];
    assert buffer[..|text| + 1] == text + ['\0'];
    CStringOfTerminated(text, buffer[|text| + 1..]);
    result := buffer;
  }
}
