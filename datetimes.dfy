/**
 * Python `datetime` values as the date codecs see them: broken-down civil
 * fields plus an optional time zone, and the conversion `astimezone(utc)`.
 */
module DateTimes {
  import opened Wrappers
  import opened Strings
  import opened Calendar
  import opened Tz

  /** A `datetime.datetime`; `tz` is `None` for a naive value. */
  datatype DateTime = DateTime(civil: Civil, tz: Option<TzInfo>)

  /** Python keeps every field of a `datetime` in range. */
  predicate WellFormed(d: DateTime)
  {
    ValidCivil(d.civil)
  }

  /** The offsets `datetime` arithmetic accepts: strictly within one day. */
  predicate ValidOffset(minutes: int)
  {
    -1440 < minutes < 1440
  }

  /**
   * `d.astimezone(utc)` for an aware `d`: the same instant, shown in UTC.
   * A value already in `utc` is returned as it is; an offset of a day or
   * more is a `ValueError`, and a result outside years 1 to 9999 an
   * `OverflowError`.
   */
  function AsUtc(d: DateTime): (r: Result<DateTime>)
    requires WellFormed(d) && d.tz.Some?
    ensures r.Ok? ==> WellFormed(r.value) && r.value.tz == Some(Utc)
    ensures r.Ok? ==> ToInstant(r.value.civil) == ToInstant(d.civil) - UtcOffset(d.tz.value) * 60000000
    ensures r.Err? <==> d.tz != Some(Utc)
                        && (!ValidOffset(UtcOffset(d.tz.value))
                            || !ValidInstant(ToInstant(d.civil) - UtcOffset(d.tz.value) * 60000000))
    ensures r.Err? ==> r.error == (if ValidOffset(UtcOffset(d.tz.value)) then OverflowError else ValueError)
  {
    if d.tz == Some(Utc) then Ok(d)
    else if !ValidOffset(UtcOffset(d.tz.value)) then Err(ValueError)
    else
      var t := ToInstant(d.civil) - UtcOffset(d.tz.value) * 60000000;
      if ValidInstant(t) then
        InstantRoundTrip(t);
        Ok(DateTime(FromInstant(t), Some(Utc)))
      else Err(OverflowError)
  }

  /** Converting to UTC twice is converting once. */
  lemma AsUtcIdempotent(d: DateTime)
    requires WellFormed(d) && d.tz.Some? && AsUtc(d).Ok?
    ensures AsUtc(AsUtc(d).value) == AsUtc(d)
  {
  }

  /**
   * The zone a codec reads back after writing `tz`: a zero offset comes
   * back as `utc`, any other as an unnamed `FixedOffset`.
   */
  function Normalized(tz: TzInfo): (r: TzInfo)
    ensures UtcOffset(r) == UtcOffset(tz)
  {
    if UtcOffset(tz) == 0 then Utc else MakeFixedOffset(UtcOffset(tz), None)
  }

  /** `'{:04d}'.format(n)`: four digits, zero-padded, for every year of the calendar. */
  function Four(n: nat): string
  {
    ZeroPad(NatToString(n), 4)
  }

  lemma {:induction false} FourShape(n: nat)
    requires n < 10000
    ensures |Four(n)| == 4 && AllDigits(Four(n)) && ParseDigits(Four(n)) == n
  {
    NatToStringWidth(n, 4);
    PaddedRoundTrip(n, 4);
  }
}
