/** The per-second countdown to the event: the time left is clamped at zero,
    split into days, hours, minutes and seconds, each zero-padded to at least
    two characters and written into four display slots; on the tick that
    finds the target reached, the subtitle reads "Event Started" and the
    repeating timer is cleared.

    All times are integer milliseconds, as `Date.now()` and `getTime()`
    return them; they stay far below 2^53, so the source's floating-point
    `Math.floor(a / b)` equals integer division here. */
module Countdown {
  import opened Wrappers

  const Second: nat := 1000
  const Minute: nat := 60_000
  const Hour: nat := 3_600_000
  const Day: nat := 86_400_000

  /** 2025-10-24T00:00:00+05:30, that is 2025-10-23T18:30:00Z, in
      milliseconds since the Unix epoch. */
  const Target: int := 1761244200000

  const StartedMessage: string := "Event Started"

  // ---------------------------------------------------------------------
  // Remaining time and its decomposition

  /** `Math.max(0, target - now)`. */
  function Remaining(target: int, now: int): (diff: nat)
    ensures diff >= target - now
    ensures diff == 0 || diff == target - now
    ensures diff == 0 <==> target - now <= 0
  {
    if target - now > 0 then target - now else 0
  }

  datatype Parts = Parts(days: nat, hours: nat, minutes: nat, seconds: nat)

  /** The milliseconds the four parts stand for. */
  function Millis(p: Parts): (ms: nat)
  {
    p.days * Day + p.hours * Hour + p.minutes * Minute + p.seconds * Second
  }

  /** `p` splits `diff` exactly down to the second: each part below its unit's
      range (days unbounded), and at most 999 ms left over. */
  ghost predicate Splits(diff: nat, p: Parts)
  {
    p.hours < 24 && p.minutes < 60 && p.seconds < 60 &&
    Millis(p) <= diff < Millis(p) + Second
  }

  /** Successive floor division, largest unit first, each remainder feeding
      the next unit. */
  function Decompose(diff: nat): (p: Parts)
  {
    var afterDays := diff % Day;
    var afterHours := afterDays % Hour;
    var afterMinutes := afterHours % Minute;
    Parts(diff / Day, afterDays / Hour, afterHours / Minute, afterMinutes / Second)
  }

  /** The decomposition is exact to the second and each part stays in its
      unit's range; the day count is unbounded. */
  lemma DecomposeSplits(diff: nat)
    ensures Splits(diff, Decompose(diff))
  {
    var p := Decompose(diff);
    var afterDays := diff % Day;
    var afterHours := afterDays % Hour;
    var afterMinutes := afterHours % Minute;
    assert diff == p.days * Day + afterDays;
    assert afterDays == p.hours * Hour + afterHours;
    assert afterHours == p.minutes * Minute + afterMinutes;
    assert afterMinutes == p.seconds * Second + afterMinutes % Second;
  }

  /** The split is unique: any bounded, exact split of `diff` is the one
      `Decompose` computes. */
  lemma DecomposeUnique(diff: nat, p: Parts)
    requires Splits(diff, p)
    ensures p == Decompose(diff)
  {
    var rest := p.hours * Hour + p.minutes * Minute + p.seconds * Second;
    assert rest + Second <= Day;
    assert diff == p.days * Day + (diff - p.days * Day);
    assert diff / Day == p.days;
    assert diff % Day == diff - p.days * Day;
    var afterDays := diff % Day;
    assert afterDays / Hour == p.hours;
    assert afterDays % Hour == afterDays - p.hours * Hour;
    var afterHours := afterDays % Hour;
    assert afterHours / Minute == p.minutes;
    assert afterHours % Minute == afterHours - p.minutes * Minute;
  }

  /** The body of `tick` up to the rendering: subtract each whole unit from
      the remaining milliseconds, largest first. */
  method SplitStepwise(diff: nat) returns (p: Parts)
    ensures p == Decompose(diff)
  {
    var rest: int := diff;
    var d := rest / Day;
    rest := rest - d * Day;
    var h := rest / Hour;
    rest := rest - h * Hour;
    var m := rest / Minute;
    rest := rest - m * Minute;
    var s := rest / Second;
    DecomposeSteps(diff, d, h, m, s);
    p := Parts(d, h, m, s);
  }

  // ---------------------------------------------------------------------
  // Decimal rendering and padding

  function DigitValue(c: char): nat
  {
    if '0' <= c <= '9' then (c - '0') as nat else 0
  }

  function DigitChar(d: nat): (c: char)
    requires d < 10
    ensures '0' <= c <= '9' && DigitValue(c) == d
  {
    ('0' as int + d) as char
  }

  /** `String(n)` for a non-negative integer: its decimal digits, no leading zero. */
  function Decimal(n: nat): (s: string)
    ensures |s| >= 1
  {
    if n < 10 then [DigitChar(n)] else Decimal(n / 10) + [DigitChar(n % 10)]
  }

  /** The number of decimal digits of `n`. */
  function NumDigits(n: nat): nat
  {
    if n < 10 then 1 else 1 + NumDigits(n / 10)
  }

  /** Reads a string of decimal digits, most significant first. */
  function ParseDecimal(s: string): nat
  {
    if s == [] then 0 else ParseDecimal(s[..|s| - 1]) * 10 + DigitValue(s[|s| - 1])
  }

  /** `s.padStart(width, fill)` with a one-character fill. */
  function PadStart(s: string, width: nat, fill: char): (r: string)
    ensures |r| == if |s| < width then width else |s|
  {
    if |s| >= width then s else seq(width - |s|, _ => fill) + s
  }

  /** `String(n).padStart(2, "0")`. */
  function Pad(n: nat): (s: string)
  {
    PadStart(Decimal(n), 2, '0')
  }

  /** `String(n)` is made of decimal digits and has no leading zero. */
  lemma {:induction false} DecimalDigits(n: nat)
    ensures forall i :: 0 <= i < |Decimal(n)| ==> '0' <= Decimal(n)[i] <= '9'
    ensures n >= 10 ==> Decimal(n)[0] != '0'
  {
    if n >= 10 {
      DecimalDigits(n / 10);
      if n / 10 < 10 {
        assert n / 10 != 0;
      }
    }
  }

  /** `padStart` keeps the text whole at the end and fills only in front. */
  lemma PadStartShape(s: string, width: nat, fill: char)
    ensures var r := PadStart(s, width, fill);
            r[|r| - |s|..] == s && forall i :: 0 <= i < |r| - |s| ==> r[i] == fill
  {
  }

  lemma {:induction false} DecimalLength(n: nat)
    ensures |Decimal(n)| == NumDigits(n)
  {
    if n >= 10 {
      DecimalLength(n / 10);
    }
  }

  lemma {:induction false} DecimalRoundTrip(n: nat)
    ensures ParseDecimal(Decimal(n)) == n
  {
    if n >= 10 {
      DecimalRoundTrip(n / 10);
      var s := Decimal(n);
      assert s[..|s| - 1] == Decimal(n / 10);
    }
  }

  /** The padded text is never shorter than two characters and never cuts a
      digit: its length is the larger of 2 and the number of digits. */
  lemma PadLength(n: nat)
    ensures |Pad(n)| == if NumDigits(n) < 2 then 2 else NumDigits(n)
  {
    DecimalLength(n);
  }

  /** Single digits get one leading zero. */
  lemma PadSmall(n: nat)
    requires n < 10
    ensures Pad(n) == ['0', DigitChar(n)]
  {
  }

  /** From 10 on the plain decimal text is kept, so a day count above 99 is
      shown in full. */
  lemma PadLarge(n: nat)
    requires n >= 10
    ensures Pad(n) == Decimal(n)
  {
    DecimalLength(n);
  }

  /** Below 100 the padded text is exactly the tens digit then the units digit. */
  lemma PadTwoDigits(n: nat)
    requires n < 100
    ensures Pad(n) == [DigitChar(n / 10), DigitChar(n % 10)]
  {
    if n >= 10 {
      assert Decimal(n / 10) == [DigitChar(n / 10)];
    }
  }

  /** The padded text reads back as the number it shows. */
  lemma PadRoundTrip(n: nat)
    ensures ParseDecimal(Pad(n)) == n
  {
    if n < 10 {
      var s := Pad(n);
      assert s == ['0', DigitChar(n)];
      assert ParseDecimal(['0']) == 0 by { assert ['0'][..0] == []; }
      assert s[..1] == ['0'];
      assert ParseDecimal(s) == ParseDecimal(s[..1]) * 10 + DigitValue(s[1]);
    } else {
      PadLarge(n);
      DecimalRoundTrip(n);
    }
  }

  // ---------------------------------------------------------------------
  // What the four slots show

  datatype Display = Display(days: string, hours: string, minutes: string, seconds: string)

  const AllZero: Display := Display("00", "00", "00", "00")

  function Render(p: Parts): (d: Display)
  {
    Display(Pad(p.days), Pad(p.hours), Pad(p.minutes), Pad(p.seconds))
  }

  /** What a tick at `now` writes into the slots. */
  function Shows(target: int, now: int): (d: Display)
  {
    Render(Decompose(Remaining(target, now)))
  }

  /** The hours, minutes and seconds slots always hold exactly two digits, and
      the four slots read back as the unique exact split of the time left. */
  lemma ShowsReadsBack(target: int, now: int)
    ensures var d := Shows(target, now);
            |d.hours| == 2 && |d.minutes| == 2 && |d.seconds| == 2 &&
            Splits(Remaining(target, now),
                   Parts(ParseDecimal(d.days), ParseDecimal(d.hours),
                         ParseDecimal(d.minutes), ParseDecimal(d.seconds)))
  {
    var p := Decompose(Remaining(target, now));
    DecomposeSplits(Remaining(target, now));
    PadTwoDigits(p.hours);
    PadTwoDigits(p.minutes);
    PadTwoDigits(p.seconds);
    PadRoundTrip(p.days);
    PadRoundTrip(p.hours);
    PadRoundTrip(p.minutes);
    PadRoundTrip(p.seconds);
  }

  /** At or after the target every slot reads "00". */
  lemma ShowsZeroWhenReached(target: int, now: int)
    requires target - now <= 0
    ensures Remaining(target, now) == 0
    ensures Shows(target, now) == AllZero
  {
    assert Decompose(0) == Parts(0, 0, 0, 0);
    PadSmall(0);
  }

  /** One day, two hours, three minutes and four seconds before the target the
      slots read 01, 02, 03, 04. */
  lemma ShowsExample()
    ensures Shows(Target, Target - (Day + 2 * Hour + 3 * Minute + 4 * Second)) ==
            Display("01", "02", "03", "04")
  {
    var diff := Day + 2 * Hour + 3 * Minute + 4 * Second;
    DecomposeUnique(diff, Parts(1, 2, 3, 4));
    PadSmall(1);
    PadSmall(2);
    PadSmall(3);
    PadSmall(4);
  }

  // ---------------------------------------------------------------------
  // Locating the slots

  /** The four slot elements, or their ids. */
  datatype Slots<E> = Slots(days: E, hours: E, minutes: E, seconds: E)

  /** `document.getElementById(preferred) || document.getElementById(legacy)`. */
  function FirstPresent<E>(preferred: Option<E>, legacy: Option<E>): (r: Option<E>)
    ensures r.Some? <==> preferred.Some? || legacy.Some?
    ensures preferred.Some? ==> r == preferred
    ensures preferred.None? ==> r == legacy
  {
    if preferred.Some? then preferred else legacy
  }

  /** Resolves each slot through its preferred id (`cd-d`, `cd-h`, `cd-m`,
      `cd-s`) and then its legacy id (`cd-days`, ...); the countdown runs only
      when all four resolve. */
  function ResolveSlots<E>(preferred: Slots<Option<E>>, legacy: Slots<Option<E>>): (r: Option<Slots<E>>)
    ensures r.Some? <==>
              (preferred.days.Some? || legacy.days.Some?) &&
              (preferred.hours.Some? || legacy.hours.Some?) &&
              (preferred.minutes.Some? || legacy.minutes.Some?) &&
              (preferred.seconds.Some? || legacy.seconds.Some?)
    ensures r.Some? ==>
              r.value.days == (if preferred.days.Some? then preferred.days.value else legacy.days.value)
    ensures r.Some? ==>
              r.value.hours == (if preferred.hours.Some? then preferred.hours.value else legacy.hours.value)
    ensures r.Some? ==>
              r.value.minutes == (if preferred.minutes.Some? then preferred.minutes.value else legacy.minutes.value)
    ensures r.Some? ==>
              r.value.seconds == (if preferred.seconds.Some? then preferred.seconds.value else legacy.seconds.value)
  {
    var d := FirstPresent(preferred.days, legacy.days);
    var h := FirstPresent(preferred.hours, legacy.hours);
    var m := FirstPresent(preferred.minutes, legacy.minutes);
    var s := FirstPresent(preferred.seconds, legacy.seconds);
    if d.Some? && h.Some? && m.Some? && s.Some? then
      Some(Slots(d.value, h.value, m.value, s.value))
    else
      None
  }

  // ---------------------------------------------------------------------
  // The running countdown

  /** The subtitle after a tick at `now`: replaced by the started message
      once the target is reached, if the element exists. */
  function SubtitleAfter(subtitle: Option<string>, target: int, now: int): (r: Option<string>)
    ensures r.Some? <==> subtitle.Some?
    ensures r.Some? && target - now <= 0 ==> r.value == StartedMessage
    ensures target - now > 0 ==> r == subtitle
  {
    if target - now <= 0 && subtitle.Some? then Some(StartedMessage) else subtitle
  }

  /** The source's step-by-step subtraction computes `Decompose`. */
  lemma DecomposeSteps(total: nat, d: int, h: int, m: int, s: int)
    requires d == total / Day
    requires h == (total - d * Day) / Hour
    requires m == (total - d * Day - h * Hour) / Minute
    requires s == (total - d * Day - h * Hour - m * Minute) / Second
    ensures d >= 0 && h >= 0 && m >= 0 && s >= 0
    ensures Decompose(total) == Parts(d, h, m, s)
  {
    assert total - d * Day == total % Day;
    assert total - d * Day - h * Hour == (total % Day) % Hour;
    assert total - d * Day - h * Hour - m * Minute == ((total % Day) % Hour) % Minute;
  }

  /** The countdown attached once all four slots are found. `subtitle` is the
      text of the `.countdown-subtitle` element, `None` when there is none;
      `intervalActive` says whether a repeating one-second timer is registered
      in the `interval` handle and not cleared. */
  class CountdownTimer {
    const target: int
    var days: string
    var hours: string
    var minutes: string
    var seconds: string
    var subtitle: Option<string>
    var intervalActive: bool

    function Shown(): Display
      reads this
    {
      Display(days, hours, minutes, seconds)
    }

    /** `initial` is what the markup shows before the first tick. */
    constructor (target: int, initial: Display, subtitle: Option<string>)
      ensures this.target == target && Shown() == initial
      ensures this.subtitle == subtitle && !intervalActive
    {
      this.target := target;
      days, hours, minutes, seconds := initial.days, initial.hours, initial.minutes, initial.seconds;
      this.subtitle := subtitle;
      intervalActive := false;
    }

    /** One tick with the clock reading `now`. */
    method Tick(now: int)
      modifies this
      ensures Shown() == Shows(target, now)
      ensures subtitle == SubtitleAfter(old(subtitle), target, now)
      ensures intervalActive == (old(intervalActive) && target - now > 0)
    {
      var diff := if 0 > target - now then 0 else target - now;
      assert diff == Remaining(target, now);
      var parts := SplitStepwise(diff);
      days, hours, minutes, seconds := Pad(parts.days), Pad(parts.hours), Pad(parts.minutes), Pad(parts.seconds);
      assert Shown() == Render(parts);

      if target - now <= 0 {
        if subtitle.Some? {
          subtitle := Some(StartedMessage);
        }
        intervalActive := false;
      }
    }

    /** The repeating timer comes due: `tick` runs only while it is registered. */
    method Fire(now: int)
      modifies this
      ensures old(intervalActive) ==> Shown() == Shows(target, now)
      ensures old(intervalActive) ==> subtitle == SubtitleAfter(old(subtitle), target, now)
      ensures intervalActive == (old(intervalActive) && target - now > 0)
      ensures !old(intervalActive) ==> Shown() == old(Shown()) && subtitle == old(subtitle)
    {
      if intervalActive {
        Tick(now);
      }
    }

    /** The second-aligned start: one more tick, then the repeating timer is
        registered. It is registered even when that tick found the target
        reached, because `interval` is assigned only after the tick. */
    method AlignedStart(now: int)
      modifies this
      ensures Shown() == Shows(target, now) && intervalActive
      ensures subtitle == SubtitleAfter(old(subtitle), target, now)
    {
      Tick(now);
      intervalActive := true;
    }
  }

  /** Once a tick has seen the target reached, every later tick shows the
      same all-zero display. */
  lemma ShowsStableAfterTarget(target: int, now: int, later: int)
    requires target - now <= 0 && now <= later
    ensures Shows(target, later) == Shows(target, now) == AllZero
  {
    ShowsZeroWhenReached(target, now);
    ShowsZeroWhenReached(target, later);
  }

  /** A page opened before the target: the immediate tick, the aligned start,
      and the repeating timer keeps running; the first tick at or after the
      target shows all zeros, sets the subtitle and clears the timer, and a
      further due time changes nothing. The clock readings are in order. */
  method PageBeforeTarget(initial: Display, t0: int, t1: int, t2: int, t3: int, subtitleAtLoad: Option<string>)
    returns (shown: Display, subtitle: Option<string>, running: bool)
    requires t0 <= t1 < Target <= t2 <= t3
    ensures shown == AllZero && !running
    ensures subtitle == (if subtitleAtLoad.Some? then Some(StartedMessage) else None)
  {
    var c := new CountdownTimer(Target, initial, subtitleAtLoad);
    c.Tick(t0);
    c.AlignedStart(t1);
    assert c.intervalActive;
    c.Fire(t2);
    ShowsZeroWhenReached(Target, t2);
    c.Fire(t3);
    shown, subtitle, running := c.Shown(), c.subtitle, c.intervalActive;
  }

  /** A page opened after the target: the timer is still registered by the
      aligned start, and the next due time clears it without changing the
      display or the subtitle. */
  method PageAfterTarget(initial: Display, t0: int, t1: int, t2: int, subtitleAtLoad: Option<string>)
    returns (shownAtStart: Display, runningAtStart: bool, shown: Display, subtitle: Option<string>, running: bool)
    requires Target <= t0 <= t1 <= t2
    ensures shownAtStart == AllZero && runningAtStart
    ensures shown == shownAtStart && !running
    ensures subtitle == (if subtitleAtLoad.Some? then Some(StartedMessage) else None)
  {
    var c := new CountdownTimer(Target, initial, subtitleAtLoad);
    c.Tick(t0);
    c.AlignedStart(t1);
    ShowsStableAfterTarget(Target, t1, t2);
    shownAtStart, runningAtStart := c.Shown(), c.intervalActive;
    c.Fire(t2);
    shown, subtitle, running := c.Shown(), c.subtitle, c.intervalActive;
  }
}
