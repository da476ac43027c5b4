/**
 Temporal decoding names the same instant as the wire fields did, and refuses, rather than moves,
 an instant it cannot hold.
 */
module Temporals {
  import opened Bytes
  import opened Wrappers
  import opened Values
  import opened Encoder
  import opened Decoder

  /** A count of seconds and a raw count of nanoseconds, as one number of nanoseconds. */
  function Nanoseconds(seconds: int, nanos: int): int {
    seconds * NANOS_PER_SECOND + nanos
  }

  /** The whole seconds of an instant, rounding towards the past. */
  function WholeSeconds(nanoseconds: int): int {
    nanoseconds / NANOS_PER_SECOND
  }

  lemma CarryIsWholeSeconds(seconds: i64, raw: i64)
    ensures seconds + SplitNanos(raw).0 == WholeSeconds(Nanoseconds(seconds, raw))
    ensures Nanoseconds(seconds + SplitNanos(raw).0, SplitNanos(raw).1) == Nanoseconds(seconds, raw)
  {
  }

  lemma LocalDateTimeInstant(s: bytes)
    requires ReadInt(s).Got? && ReadInt(ReadInt(s).rest).Got?
    ensures var wire := Nanoseconds(ReadInt(s).value, ReadInt(ReadInt(s).rest).value);
            && (ReadLocalDateTime(s).Got? <==> FitsI64(WholeSeconds(wire)))
            && (ReadLocalDateTime(s).Got? ==>
                  var v := ReadLocalDateTime(s).value;
                  v.LocalDateTime? && Nanoseconds(v.epochSeconds, v.nanos) == wire && v.nanos < NANOS_PER_SECOND)
  {
  }

  lemma DurationLength(s: bytes)
    requires ReadInt(s).Got? && ReadInt(ReadInt(s).rest).Got?
    requires ReadInt(ReadInt(ReadInt(s).rest).rest).Got?
    requires ReadInt(ReadInt(ReadInt(ReadInt(s).rest).rest).rest).Got?
    ensures var (months, t) := ReadInt(s).Extract();
            var (days, t2) := ReadInt(t).Extract();
            var (seconds, t3) := ReadInt(t2).Extract();
            var wire := Nanoseconds(seconds, ReadInt(t3).value);
            && (ReadDuration(s).Got? <==> FitsI64(WholeSeconds(wire)))
            && (ReadDuration(s).Got? ==>
                  var v := ReadDuration(s).value;
                  && v.Duration? && v.months == months && v.days == days
                  && Nanoseconds(v.seconds, v.durationNanos) == wire && 0 <= v.durationNanos < NANOS_PER_SECOND)
  {
  }

  /** A time of day is taken modulo one day; a `LocalTime` outside the day is refused instead. */
  lemma TimeOfDay(s: bytes)
    requires ReadInt(s).Got?
    ensures var (n, t) := ReadInt(s).Extract();
            && (ReadTime(s).Got? <==>
                  ReadInt(t).Got? && -MAX_TZ_OFFSET_SECONDS <= ReadInt(t).value <= MAX_TZ_OFFSET_SECONDS)
            && (ReadTime(s).Got? ==>
                  var v := ReadTime(s).value;
                  && v.ZonedTime? && v.timeOfDay < NANOS_PER_DAY && (n - v.timeOfDay) % NANOS_PER_DAY == 0
                  && v.timeOffset == ReadInt(t).value && -MAX_TZ_OFFSET_SECONDS <= v.timeOffset <= MAX_TZ_OFFSET_SECONDS)
            && (ReadLocalTime(s).Got? <==> 0 <= n < NANOS_PER_DAY)
            && (ReadLocalTime(s).Got? ==> ReadLocalTime(s).value == LocalTime(n))
  {
  }

  /** The instant a stored zoned date-time denotes: its wall clock less its offset. */
  function ZonedInstant(v: Value): int
    requires v.ZonedDateTime?
  {
    Nanoseconds(v.localSeconds - v.offset, v.localNanos)
  }

  lemma DateTimeInstant(s: bytes)
    requires ReadInt(s).Got? && ReadInt(ReadInt(s).rest).Got?
    requires ReadInt(ReadInt(ReadInt(s).rest).rest).Got?
    ensures var (seconds, t) := ReadInt(s).Extract();
            var (raw, t2) := ReadInt(t).Extract();
            var offset := ReadInt(t2).value;
            var wire := Nanoseconds(seconds, raw);
            && (ReadDateTime(s).Got? <==>
                  && FitsI32(raw) && -MAX_TZ_OFFSET_SECONDS <= offset <= MAX_TZ_OFFSET_SECONDS
                  && FitsI64(WholeSeconds(wire)) && FitsI64(WholeSeconds(wire) + offset))
            && (ReadDateTime(s).Got? ==>
                  var v := ReadDateTime(s).value;
                  && v.ZonedDateTime? && v.zone == [] && v.offset == offset
                  && ZonedInstant(v) == wire && v.localNanos < NANOS_PER_SECOND)
  {
  }

  /** A zone id stands for the offset its rules give at the very instant the wire names. */
  lemma DateTimeZoneIdInstant(h: Host, s: bytes)
    requires ReadInt(s).Got? && ReadInt(ReadInt(s).rest).Got?
    requires ReadString(ReadInt(ReadInt(s).rest).rest).Got?
    ensures var (seconds, t) := ReadInt(s).Extract();
            var (raw, t2) := ReadInt(t).Extract();
            var zone := ReadString(t2).value;
            var wire := Nanoseconds(seconds, raw);
            var utc := WholeSeconds(wire);
            && (ReadDateTimeZoneId(h, s).Got? <==>
                  && FitsI32(raw) && FitsI64(utc)
                  && h.localize(zone, utc).Some? && FitsI64(utc + h.localize(zone, utc).value.1))
            && (ReadDateTimeZoneId(h, s).Got? ==>
                  var v := ReadDateTimeZoneId(h, s).value;
                  && v.ZonedDateTime? && h.localize(zone, utc) == Some((v.zone, v.offset))
                  && ZonedInstant(v) == wire && v.localNanos < NANOS_PER_SECOND)
  {
    hide ReadInt, SplitNanos, ReadString;
    CarryIsWholeSeconds(ReadInt(s).value, ReadInt(ReadInt(s).rest).value);
  }

  /**
   The encoder's `local - offset` is exact for every zoned value a decode can produce: none of
   them reaches the saturation it keeps as a fallback.
   */
  lemma EncoderNeverSaturates(h: Host, tag: byte, s: bytes)
    requires ValidHost(h) && (tag == DATE_TIME || tag == DATE_TIME_ZONE_ID) && ReadTemporal(h, tag, s).Got?
    ensures var v := ReadTemporal(h, tag, s).value;
            v.ZonedDateTime? && ClampI64(v.localSeconds - v.offset) == v.localSeconds - v.offset
  {
  }
}
