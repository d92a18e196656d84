/**
 * UTC time kept as a signed offset from the free-running GRTC counter
 * (src/utc_time.c).
 *
 * The module state of the C file, `utc_offset` and `calibrated`, is the
 * class UtcClock; every function of the C file that reads the GRTC takes the
 * reading as a parameter instead. The arithmetic on a reading is given by the
 * pure functions below, and the class's methods are proved against them.
 */
module UtcTime {
  import opened CInt
  import opened DecimalText
  import opened Wrappers

  const US_PER_MS: nat := 1000
  const US_PER_SEC: nat := 1000000

  /**
   * The offset `utc_time_calibrate` stores: `(int64_t)utc - (int64_t)grtc`.
   * Both casts are only defined for values below 2^63, and then the
   * difference cannot overflow int64_t.
   */
  function CalibrationOffset(utcUs: u64, grtc: u64): (offset: i64)
    requires utcUs < TWO_63 && grtc < TWO_63
    ensures grtc + offset == utcUs
  {
    utcUs - grtc
  }

  /** `unix_timestamp * 1000000ULL`, which wraps modulo 2^64 for huge timestamps. */
  function UnixToMicros(unixTimestamp: u64): (us: u64)
    ensures unixTimestamp * US_PER_SEC < TWO_64 ==> us == unixTimestamp * US_PER_SEC
    ensures (unixTimestamp * US_PER_SEC - us) % TWO_64 == 0
  {
    Wrap64(unixTimestamp * US_PER_SEC)
  }

  /**
   * `utc_time_get_us` at GRTC reading `grtc`: the raw reading when not
   * calibrated, otherwise `grtc_time + utc_offset`, where C converts the
   * offset to uint64_t and adds modulo 2^64.
   */
  function MicrosAt(calibrated: bool, offset: i64, grtc: u64): (us: u64)
    ensures !calibrated ==> us == grtc
    ensures calibrated ==> (grtc + offset - us) % TWO_64 == 0
    ensures calibrated && 0 <= grtc + offset < TWO_64 ==> us == grtc + offset
  {
    if calibrated then Wrap64(grtc + ToUnsigned(offset)) else grtc
  }

  /** `us / 1000ULL`: the whole milliseconds in `us`. */
  function Millis(us: u64): (ms: u64)
    ensures ms * US_PER_MS <= us < ms * US_PER_MS + US_PER_MS
  {
    us / US_PER_MS
  }

  /** `us / 1000000ULL`: the whole seconds in `us`. */
  function Seconds(us: u64): (sec: u64)
    ensures sec * US_PER_SEC <= us < sec * US_PER_SEC + US_PER_SEC
  {
    us / US_PER_SEC
  }

  /**
   * `utc_time_diff_us`: `(int64_t)time2 - (int64_t)time1`. The casts are
   * defined only below 2^63; on such operands the subtraction stays in range.
   */
  function DiffUs(time1: u64, time2: u64): (d: i64)
    requires time1 < TWO_63 && time2 < TWO_63
    ensures time1 + d == time2
  {
    time2 - time1
  }

  /** The three numbers `utc_time_format_us` prints. */
  datatype TimeParts = TimeParts(sec: u64, ms: nat, us: nat)

  /** The whole seconds, the milliseconds within the second, the microseconds within the millisecond. */
  function Split(us: u64): (p: TimeParts)
    ensures p.sec * US_PER_SEC + p.ms * US_PER_MS + p.us == us
    ensures p.ms < 1000 && p.us < 1000
  {
    var sec, ms, rest := us / US_PER_SEC, (us / US_PER_MS) % 1000, us % US_PER_MS;
    MillisOfSeconds(us);
    TimeParts(sec, ms, rest)
  }

  /** The milliseconds of `us` are its whole seconds times 1000 plus the milliseconds within the second. */
  lemma MillisOfSeconds(us: nat)
    ensures us / US_PER_MS == (us / US_PER_SEC) * 1000 + (us / US_PER_MS) % 1000
    ensures (us / US_PER_MS) / 1000 == us / US_PER_SEC
  {
  }

  /** The string `snprintf(buffer, size, "%llu.%03llu.%03llu s", sec, ms, remaining_us)` writes. */
  function FormatUs(us: u64): (s: string)
    ensures |s| >= 11
  {
    var p := Split(us);
    Decimal(p.sec) + "." + Pad3(p.ms) + "." + Pad3(p.us) + " s"
  }

  /** Reads back a string of the shape FormatUs produces: digits, '.', 3 digits, '.', 3 digits, " s". */
  function ParseFormatted(s: string): (r: Option<nat>)
    ensures r.Some? ==> |s| >= 11 && s[|s| - 2..] == " s"
  {
    if |s| < 11 then None
    else
      var n := |s|;
      var secText, msText, usText := s[..n - 10], s[n - 9..n - 6], s[n - 5..n - 2];
      if s[n - 10] == '.' && s[n - 6] == '.' && s[n - 2..] == " s"
         && AllDigits(secText) && AllDigits(msText) && AllDigits(usText)
      then Some(Value(secText) * US_PER_SEC + Value(msText) * US_PER_MS + Value(usText))
      else None
  }

  /** The parts of FormatUs(us) are where the format puts them. */
  lemma FormatLayout(us: u64)
    ensures var s, p := FormatUs(us), Split(us);
      var n := |s|;
      && n == |Decimal(p.sec)| + 10
      && s[..n - 10] == Decimal(p.sec)
      && s[n - 10] == '.' && s[n - 6] == '.' && s[n - 2..] == " s"
      && s[n - 9..n - 6] == Pad3(p.ms)
      && s[n - 5..n - 2] == Pad3(p.us)
  {
  }

  /** Formatting loses nothing: the printed text determines the microsecond value. */
  lemma FormatRoundTrip(us: u64)
    ensures ParseFormatted(FormatUs(us)) == Some(us as nat)
  {
    FormatLayout(us);
  }

  /** Two different microsecond values never print the same. */
  lemma FormatInjective(a: u64, b: u64)
    requires FormatUs(a) == FormatUs(b)
    ensures a == b
  {
    FormatRoundTrip(a);
    FormatRoundTrip(b);
  }

  /** The split is the only one with both sub-second parts below 1000. */
  lemma SplitUnique(us: u64, p: TimeParts)
    requires p.sec * US_PER_SEC + p.ms * US_PER_MS + p.us == us
    requires p.ms < 1000 && p.us < 1000
    ensures p == Split(us)
  {
    var msTotal := p.sec * 1000 + p.ms;
    assert us == msTotal * US_PER_MS + p.us;
    DivMod1000(us, msTotal, p.us);
    DivMod1000(msTotal, p.sec, p.ms);
    MillisOfSeconds(us);
  }

  /** Division by 1000 recovers quotient and remainder. */
  lemma DivMod1000(n: nat, q: nat, r: nat)
    requires r < 1000 && n == q * 1000 + r
    ensures n / 1000 == q && n % 1000 == r
  {
  }

  /** The seconds of a reading are its milliseconds divided by 1000, as the fields of utc_time_t agree. */
  lemma SecondsFromMillis(us: u64)
    ensures Seconds(us) == Millis(us) / 1000
  {
  }

  /**
   * Reading the clock at GRTC `now` after calibrating to `utcUs` at GRTC reading
   * `calibratedAt` gives `utcUs + (now - calibratedAt)` modulo 2^64: the calibrated time
   * advances exactly as the counter does.
   */
  lemma ReadAfterCalibration(utcUs: u64, calibratedAt: u64, now: u64)
    requires utcUs < TWO_63 && calibratedAt < TWO_63
    ensures MicrosAt(true, CalibrationOffset(utcUs, calibratedAt), now) == Wrap64(utcUs + (now - calibratedAt))
    ensures calibratedAt <= now && utcUs + (now - calibratedAt) < TWO_64 ==>
      MicrosAt(true, CalibrationOffset(utcUs, calibratedAt), now) == utcUs + (now - calibratedAt)
    ensures now == calibratedAt ==> MicrosAt(true, CalibrationOffset(utcUs, calibratedAt), now) == utcUs
  {
  }

  /** Time differences read from the clock: swapping the operands negates the result. */
  lemma DiffAntisymmetric(time1: u64, time2: u64)
    requires time1 < TWO_63 && time2 < TWO_63
    ensures DiffUs(time1, time2) == -DiffUs(time2, time1)
    ensures DiffUs(time1, time1) == 0
  {
  }

  /** `utc_time_t` (src/utc_time.h), filled in by UtcClock.Get through a pointer. */
  class UtcTimeStruct {
    var microseconds: u64
    var milliseconds: u64
    var seconds: u64
    var calibrated: bool
  }

  /** The module state of src/utc_time.c. */
  class UtcClock {
    var utcOffset: i64
    var calibrated: bool

    /** The static initialisers: no offset, not calibrated. */
    constructor ()
      ensures utcOffset == 0 && !calibrated
    {
      utcOffset := 0;
      calibrated := false;
    }

    /** `utc_time_calibrate`: from now on the clock reads `utcTimestampUs` at GRTC reading `grtc`. */
    method Calibrate(utcTimestampUs: u64, grtc: u64)
      requires utcTimestampUs < TWO_63 && grtc < TWO_63
      modifies this
      ensures calibrated
      ensures utcOffset == CalibrationOffset(utcTimestampUs, grtc)
      ensures MicrosAt(calibrated, utcOffset, grtc) == utcTimestampUs
    {
      utcOffset := utcTimestampUs - grtc;
      calibrated := true;
    }

    /** `utc_time_calibrate_unix`: calibrate with `unixTimestamp * 1000000` reduced modulo 2^64. */
    method CalibrateUnix(unixTimestamp: u64, grtc: u64)
      requires UnixToMicros(unixTimestamp) < TWO_63 && grtc < TWO_63
      modifies this
      ensures calibrated
      ensures utcOffset == CalibrationOffset(UnixToMicros(unixTimestamp), grtc)
      ensures unixTimestamp * US_PER_SEC < TWO_63 ==>
        MicrosAt(calibrated, utcOffset, grtc) == unixTimestamp * US_PER_SEC
    {
      var utcUs := unixTimestamp * 1000000;
      Calibrate(Wrap64(utcUs), grtc);
    }

    /** `utc_time_is_calibrated` */
    method IsCalibrated() returns (b: bool)
      ensures b == calibrated
    {
      b := calibrated;
    }

    /** `utc_time_get_us` at GRTC reading `grtc` */
    method GetUs(grtc: u64) returns (us: u64)
      ensures us == MicrosAt(calibrated, utcOffset, grtc)
      ensures !calibrated ==> us == grtc
    {
      if !calibrated {
        return grtc;
      }
      us := Wrap64(grtc + ToUnsigned(utcOffset));
    }

    /** `utc_time_get_ms` at GRTC reading `grtc` */
    method GetMs(grtc: u64) returns (ms: u64)
      ensures ms == Millis(MicrosAt(calibrated, utcOffset, grtc))
    {
      var us := GetUs(grtc);
      ms := us / 1000;
    }

    /** `utc_time_get_sec` at GRTC reading `grtc` */
    method GetSec(grtc: u64) returns (sec: u64)
      ensures sec == Seconds(MicrosAt(calibrated, utcOffset, grtc))
    {
      var us := GetUs(grtc);
      sec := us / 1000000;
    }

    /**
     * `utc_time_get`: fills `time` from one reading of the clock; with a null
     * pointer nothing is read and nothing changes.
     */
    method Get(time: UtcTimeStruct?, grtc: u64)
      modifies time
      ensures time != null ==>
        && time.microseconds == MicrosAt(calibrated, utcOffset, grtc)
        && time.milliseconds == Millis(time.microseconds)
        && time.seconds == Seconds(time.microseconds)
        && time.calibrated == calibrated
    {
      if time == null {
        return;
      }
      var us := GetUs(grtc);
      time.microseconds := us;
      time.milliseconds := us / 1000;
      time.seconds := us / 1000000;
      time.calibrated := calibrated;
    }

    /** `utc_time_format`: the current time at GRTC reading `grtc`, formatted as FormatUs does. */
    method Format(grtc: u64) returns (text: string)
      ensures text == FormatUs(MicrosAt(calibrated, utcOffset, grtc))
      ensures ParseFormatted(text) == Some(MicrosAt(calibrated, utcOffset, grtc) as nat)
    {
      var us := GetUs(grtc);
      text := FormatUs(us);
      FormatRoundTrip(us);
    }
  }
}
