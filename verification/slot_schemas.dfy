/** Request schemas for time slots: the `TimeStr` shape, the create schema (both times
    checked, strictly increasing) and the update schema (each check only for present fields). */
module SlotSchemas {
  import opened Common
  import opened SchemaValidators

  const TIME_LENGTH := 5
  const TIME_SHAPE_MESSAGE := "String should match pattern '^\\d{2}:\\d{2}$'"
  const DESCRIPTION_LENGTH_MESSAGE := "String length out of bounds"

  /** The length bounds of `DescriptionStr` (DESCRIPTION_MIN, DESCRIPTION_MAX). */
  datatype LengthBounds = LengthBounds(min: nat, max: nat)

  /** `TimeStr`: whitespace stripped, exactly five characters of the shape `^\d{2}:\d{2}$`. */
  function TimeStr(raw: string): (r: Outcome<string>)
    ensures r.Ok? <==> ClockShape(Strip(raw))
    ensures r.Ok? ==> r.value == Strip(raw)
  {
    var s := Strip(raw);
    if |s| == TIME_LENGTH && ClockShape(s) then Ok(s) else Fail(ValueErr(TIME_SHAPE_MESSAGE))
  }

  /** `DescriptionStr`: whitespace stripped, length within the bounds. */
  function DescriptionStr(raw: string, bounds: LengthBounds): (r: Outcome<string>)
    ensures r.Ok? <==> bounds.min <= |Strip(raw)| <= bounds.max
    ensures r.Ok? ==> r.value == Strip(raw)
  {
    var s := Strip(raw);
    if bounds.min <= |s| <= bounds.max then Ok(s) else Fail(ValueErr(DESCRIPTION_LENGTH_MESSAGE))
  }

  /** A time field: the `TimeStr` constraints, then `validate_time_format`. */
  function TimeField(raw: string): (r: Outcome<string>)
    ensures r.Ok? <==> ClockShape(Strip(raw)) && ParseClock(Strip(raw)).Some?
    ensures r.Ok? ==> r.value == Strip(raw)
  {
    var s :- TimeStr(raw);
    ValidateTimeFormat(s)
  }

  datatype TimeSlotCreate = TimeSlotCreate(startTime: string, endTime: string, description: string)

  /** The times of a create payload that passed validation. */
  predicate ValidTimes(startTime: string, endTime: string) {
    ClockShape(startTime) && ClockShape(endTime)
    && ParseClock(startTime).Some? && ParseClock(endTime).Some?
    && ParseClock(startTime).value < ParseClock(endTime).value
  }

  /** `TimeSlotCreate` validation: both times and the description, then the range check. */
  function ValidateTimeSlotCreate(startRaw: string, endRaw: string, descriptionRaw: string,
                                  bounds: LengthBounds): (r: Outcome<TimeSlotCreate>)
    ensures r.Ok? <==> ValidTimes(Strip(startRaw), Strip(endRaw))
                       && bounds.min <= |Strip(descriptionRaw)| <= bounds.max
    ensures r.Ok? ==> r.value == TimeSlotCreate(Strip(startRaw), Strip(endRaw), Strip(descriptionRaw))
  {
    var startTime :- TimeField(startRaw);
    var endTime :- TimeField(endRaw);
    var description :- DescriptionStr(descriptionRaw, bounds);
    var _ :- ValidateTimeRange(startTime, endTime);
    Ok(TimeSlotCreate(startTime, endTime, description))
  }

  /** Validating an already validated payload gives it back unchanged. */
  lemma CreateValidationIdempotent(startRaw: string, endRaw: string, descriptionRaw: string,
                                   bounds: LengthBounds)
    requires ValidateTimeSlotCreate(startRaw, endRaw, descriptionRaw, bounds).Ok?
    ensures var p := ValidateTimeSlotCreate(startRaw, endRaw, descriptionRaw, bounds).value;
            ValidateTimeSlotCreate(p.startTime, p.endTime, p.description, bounds) == Ok(p)
  {
    var p := ValidateTimeSlotCreate(startRaw, endRaw, descriptionRaw, bounds).value;
    StripIdempotent(startRaw);
    StripIdempotent(endRaw);
    StripIdempotent(descriptionRaw);
    assert Strip(p.startTime) == p.startTime && Strip(p.endTime) == p.endTime;
    assert Strip(p.description) == p.description;
    assert ValidateTimeSlotCreate(p.startTime, p.endTime, p.description, bounds).Ok?;
  }

  /** The times of a validated create payload are the canonical "HH:MM" texts of their values. */
  lemma CreatedTimesCanonical(startRaw: string, endRaw: string, descriptionRaw: string,
                              bounds: LengthBounds)
    requires ValidateTimeSlotCreate(startRaw, endRaw, descriptionRaw, bounds).Ok?
    ensures var p := ValidateTimeSlotCreate(startRaw, endRaw, descriptionRaw, bounds).value;
            FormatClock(ParseClock(p.startTime).value) == p.startTime
            && FormatClock(ParseClock(p.endTime).value) == p.endTime
  {
    FormatParseClock(Strip(startRaw));
    FormatParseClock(Strip(endRaw));
  }

  datatype TimeSlotUpdate = TimeSlotUpdate(
    startTime: Option<string>,
    endTime: Option<string>,
    description: Option<string>,
    isActive: Option<bool>)

  /** An optional field: None passes unchanged, a value goes through `check`. */
  function OptionalField(raw: Option<string>, check: string -> Outcome<string>): (r: Outcome<Option<string>>)
    ensures raw.None? ==> r == Ok(None)
    ensures raw.Some? && check(raw.value).Ok? ==> r == Ok(Some(check(raw.value).value))
    ensures raw.Some? && check(raw.value).Fail? ==> r == Fail(check(raw.value).exc)
  {
    match raw
    case None => Ok(None)
    case Some(v) =>
      var c :- check(v);
      Ok(Some(c))
  }

  /** `TimeSlotUpdate` validation: each time checked only when present, the range only when both are. */
  function ValidateTimeSlotUpdate(startRaw: Option<string>, endRaw: Option<string>,
                                  descriptionRaw: Option<string>, isActive: Option<bool>,
                                  bounds: LengthBounds): (r: Outcome<TimeSlotUpdate>)
    ensures r.Ok? <==>
              (startRaw.Some? ==> TimeField(startRaw.value).Ok?)
              && (endRaw.Some? ==> TimeField(endRaw.value).Ok?)
              && (descriptionRaw.Some? ==> DescriptionStr(descriptionRaw.value, bounds).Ok?)
              && (startRaw.Some? && endRaw.Some? ==>
                    ValidTimes(Strip(startRaw.value), Strip(endRaw.value)))
    ensures r.Ok? ==>
              r.value.startTime == (if startRaw.Some? then Some(Strip(startRaw.value)) else None)
              && r.value.endTime == (if endRaw.Some? then Some(Strip(endRaw.value)) else None)
              && r.value.description == (if descriptionRaw.Some? then Some(Strip(descriptionRaw.value)) else None)
              && r.value.isActive == isActive
  {
    var startTime :- OptionalField(startRaw, TimeField);
    var endTime :- OptionalField(endRaw, TimeField);
    var description :- OptionalField(descriptionRaw, raw => DescriptionStr(raw, bounds));
    if startTime.Some? && endTime.Some? then
      var _ :- ValidateTimeRange(startTime.value, endTime.value);
      Ok(TimeSlotUpdate(startTime, endTime, description, isActive))
    else
      Ok(TimeSlotUpdate(startTime, endTime, description, isActive))
  }

  /** An update that sets neither time nor description always validates. */
  lemma EmptyUpdateValid(isActive: Option<bool>, bounds: LengthBounds)
    ensures ValidateTimeSlotUpdate(None, None, None, isActive, bounds) ==
            Ok(TimeSlotUpdate(None, None, None, isActive))
  {
  }
}
