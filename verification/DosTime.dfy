/** DOS date and time fields (PKWARE APPNOTE.TXT, section 4.4.6). */
module DosTime {
  import opened ByteCodec

  /** The fields of C's `struct tm` the packing uses: hours, minutes, seconds, years since
      1900, months since January and the day of the month. */
  datatype Tm = Tm(hour: bv16, min: bv16, sec: bv16, year: bv16, mon: bv16, mday: bv16)

  /** What `localtime` can return for a moment DOS can represent; `sec` may be a leap second. */
  predicate ValidTm(t: Tm) {
    && t.hour < 24 && t.min < 60 && t.sec <= 60
    && 80 <= t.year < 208 && t.mon < 12 && 1 <= t.mday <= 31
  }

  function PackTime(t: Tm): bv16 {
    (t.hour << 11) | (t.min << 5) | (t.sec >> 1)
  }

  function PackDate(t: Tm): bv16 {
    ((t.year - 80) << 9) | ((t.mon + 1) << 5) | t.mday
  }

  /** In numbers: hours by 2048 plus minutes by 32 plus half the seconds; years since 1980 by 512
      plus months from 1 by 32 plus days. */
  lemma PackedInNumbers(t: Tm)
    requires ValidTm(t)
    ensures PackTime(t) == t.hour * 2048 + t.min * 32 + t.sec / 2
    ensures PackDate(t) == (t.year - 80) * 512 + (t.mon + 1) * 32 + t.mday
  {
  }

  // What the loader computes from the two fields.

  datatype Fields = Fields(year: bv16, mon: bv16, mday: bv16, hour: bv16, min: bv16, sec: bv16)

  function UnpackFields(time: bv16, date: bv16): Fields {
    Fields(
      ((date & 0xFE00) >> 9) + 1980, (date & 0x01E0) >> 5, date & 0x001F,
      (time & 0xF800) >> 11, (time & 0x07E0) >> 5, (time & 0x001F) * 2)
  }

  /** In numbers, for any two fields. */
  lemma UnpackedInNumbers(time: bv16, date: bv16)
    ensures UnpackFields(time, date) ==
            Fields(date / 512 + 1980, date / 32 % 16, date % 32, time / 2048, time / 32 % 64, time % 32 * 2)
  {
  }

  /** The time fields come back, the seconds rounded down to an even number; the date bit
      fields come back as stored, which leaves the month one too high (it is stored
      one-based and not shifted back) and the year absolute. */
  lemma TimeRoundTrip(t: Tm)
    requires ValidTm(t)
    ensures var f := UnpackFields(PackTime(t), PackDate(t));
            && f.hour == t.hour && f.min == t.min && f.sec == (t.sec >> 1) << 1
            && f.year == t.year + 1900 && f.mon == t.mon + 1 && f.mday == t.mday
  {
  }

  /** Packing keeps the order of times of day: first by hour, then by minute, then by second. */
  lemma PackTimeMonotone(s: Tm, t: Tm)
    requires ValidTm(s) && ValidTm(t)
    ensures s.hour < t.hour ==> PackTime(s) < PackTime(t)
    ensures s.hour == t.hour && s.min < t.min ==> PackTime(s) < PackTime(t)
    ensures s.hour == t.hour && s.min == t.min && s.sec <= t.sec ==> PackTime(s) <= PackTime(t)
  {
    if s.hour < t.hour {
      LaterHour(s, t);
    } else if s.hour == t.hour && s.min < t.min {
      LaterMinute(s, t);
    }
  }

  lemma LaterHour(s: Tm, t: Tm)
    requires ValidTm(s) && ValidTm(t) && s.hour < t.hour
    ensures PackTime(s) < PackTime(t)
  {
  }

  lemma LaterMinute(s: Tm, t: Tm)
    requires ValidTm(s) && ValidTm(t) && s.hour == t.hour && s.min < t.min
    ensures PackTime(s) < PackTime(t)
  {
  }

  // The header fields are 16-bit integers.

  function TimeField(t: Tm): u16 { PackTime(t) as int }
  function DateField(t: Tm): u16 { PackDate(t) as int }

  lemma FieldsRoundTrip(t: Tm)
    requires ValidTm(t)
    ensures UnpackFields(TimeField(t) as bv16, DateField(t) as bv16) ==
            Fields(t.year + 1900, t.mon + 1, t.mday, t.hour, t.min, (t.sec >> 1) << 1)
  {
    hide PackTime, PackDate, UnpackFields;
    TimeRoundTrip(t);
  }

  /** January 2020 comes back as month 1 and year 2020, in fields that count months from 0 and
      years from 1900. */
  lemma JanuaryComesBackAsFebruary()
    ensures var t := Tm(12, 0, 0, 120, 0, 1);
            && ValidTm(t)
            && UnpackFields(TimeField(t) as bv16, DateField(t) as bv16) == Fields(2020, 1, 1, 12, 0, 0)
  {
    FieldsRoundTrip(Tm(12, 0, 0, 120, 0, 1));
  }
}
