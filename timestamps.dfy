/**
 * The SRT timestamp of the process route: for whole seconds `s`,
 * `new Date(s * 1000).toISOString()` is `YYYY-MM-DDTHH:MM:SS.000Z`;
 * characters 11 to 22 are the time of day `HH:MM:SS.000`, and replacing the
 * first `.` by `,` gives the SRT form `HH:MM:SS,000`. The time of day depends
 * only on `s` modulo one day, so hours wrap modulo 24.
 */
module Timestamps {
  import opened Wrappers
  import opened Text

  const SecondsPerDay: nat := 86400

  /** `toISOString().substr(11, 12)` for a whole number of seconds since the epoch. */
  function IsoTimeOfDay(s: nat): string {
    Pad2((s / 3600) % 24) + ":" + Pad2((s / 60) % 60) + ":" + Pad2(s % 60) + ".000"
  }

  /** The formatted timestamp `HH:MM:SS,000` written into SRT cue lines. */
  function Timecode(s: nat): (r: string)
    ensures |r| == 12
    ensures r[2] == ':' && r[5] == ':' && r[8] == ',' && r[9..] == "000"
  {
    var iso := IsoTimeOfDay(s);
    forall t: nat | t < 8 ensures !OccursAt(iso, ".", t) {
      assert iso[t..t + 1] == [iso[t]];
    }
    assert OccursAt(iso, ".", 8);
    assert IndexOf(iso, ".") == Some(8);
    ReplaceFirst(iso, ".", ",")
  }

  /**
   * Reads an `HH:MM:SS,000` timestamp back as seconds within the day;
   * `None` for any other text.
   */
  function ParseTimecode(t: string): Option<nat> {
    if |t| == 12 && t[2] == ':' && t[5] == ':' && t[8] == ',' && t[9..] == "000"
       && AllDigits(t[..2]) && AllDigits(t[3..5]) && AllDigits(t[6..8])
       && DecimalValue(t[..2]) < 24 && DecimalValue(t[3..5]) < 60 && DecimalValue(t[6..8]) < 60
    then Some(3600 * DecimalValue(t[..2]) + 60 * DecimalValue(t[3..5]) + DecimalValue(t[6..8]))
    else None
  }

  /** The three two-digit fields of a timestamp are hours mod 24, minutes and seconds. */
  lemma TimecodeFields(s: nat)
    ensures var r := Timecode(s);
      && AllDigits(r[..2]) && AllDigits(r[3..5]) && AllDigits(r[6..8])
      && DecimalValue(r[..2]) == (s / 3600) % 24
      && DecimalValue(r[3..5]) == (s / 60) % 60
      && DecimalValue(r[6..8]) == s % 60
  {
    var r := Timecode(s);
    TimecodeLayout(s);
    assert r[..2] == Pad2((s / 3600) % 24);
    assert r[3..5] == Pad2((s / 60) % 60);
    assert r[6..8] == Pad2(s % 60);
  }

  /** The timestamp is the ISO time of day with its `.` turned into `,`. */
  lemma TimecodeLayout(s: nat)
    ensures Timecode(s) == Pad2((s / 3600) % 24) + ":" + Pad2((s / 60) % 60) + ":" + Pad2(s % 60) + ",000"
  {
  }

  /** Hours, minutes and seconds recombine to the second of the day. */
  lemma ClockArithmetic(s: nat)
    ensures 3600 * ((s / 3600) % 24) + 60 * ((s / 60) % 60) + s % 60 == s % SecondsPerDay
  {
    var q, x := s / 86400, s % 86400;
    var h, within := x / 3600, x % 3600;
    var m, sec := within / 60, within % 60;
    DividedBy(s, 86400, q, x);
    DividedBy(x, 3600, h, within);
    DividedBy(within, 60, m, sec);
    assert h < 24 && m < 60;
    DividedBy(s, 3600, 24 * q + h, within);
    DividedBy(24 * q + h, 24, q, h);
    DividedBy(s, 60, 1440 * q + 60 * h + m, sec);
    DividedBy(1440 * q + 60 * h + m, 60, 24 * q + h, m);
  }

  /** Euclidean division is unique: `q` and `r` are the quotient and remainder of `a` by `d`. */
  lemma DividedBy(a: int, d: int, q: int, r: int)
    requires d == 86400 || d == 3600 || d == 60 || d == 24
    requires 0 <= r < d
    ensures a == d * q + r <==> a / d == q && a % d == r
  {
    if d == 86400 {
    } else if d == 3600 {
    } else if d == 60 {
    } else {
    }
  }

  /** Reading a formatted timestamp back gives the second of the day it was made from. */
  lemma TimecodeRoundTrip(s: nat)
    ensures ParseTimecode(Timecode(s)) == Some(s % SecondsPerDay)
  {
    TimecodeFields(s);
    ClockArithmetic(s);
  }

  /** For times within the first day, the timestamp is exact. */
  lemma TimecodeExactWithinDay(s: nat)
    requires s < SecondsPerDay
    ensures ParseTimecode(Timecode(s)) == Some(s)
  {
    assert s % SecondsPerDay == s;
    TimecodeRoundTrip(s);
  }

  /** Timestamps repeat every day: hours are taken modulo 24. */
  lemma TimecodeWrapsDaily(s: nat)
    ensures Timecode(s + SecondsPerDay) == Timecode(s)
  {
    var t := s + 86400;
    assert t / 3600 == s / 3600 + 24;
    assert t / 60 == s / 60 + 1440;
    assert (t / 3600) % 24 == (s / 3600) % 24;
    assert (t / 60) % 60 == (s / 60) % 60;
    assert t % 60 == s % 60;
  }
}
