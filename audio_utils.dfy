/**
 * `validate_segment_times`: the guard run on a segment's times before its
 * audio is cut out. Three checks in a fixed order, each with its own
 * message; a range that passes all three is accepted with an empty message.
 */
module AudioUtils {
  import opened Segments

  /** The default for `max_duration`: five hours. */
  const DEFAULT_MAX_DURATION: real := 18000.0

  /** Which check refused the range, or `Accepted`. */
  datatype Verdict =
    | Accepted
    | StartNegative
    | EndNotAfterStart
    | TooLong(duration: real, maxDuration: real)

  /**
   * The message returned beside the verdict. The third one interpolates
   * the two durations; it is kept as the `TooLong` fields instead.
   */
  function Message(v: Verdict): string {
    match v
    case Accepted => ""
    case StartNegative => "Start time cannot be negative"
    case EndNotAfterStart => "End time must be greater than start time"
    case TooLong(_, _) => "Segment duration exceeds maximum"
  }

  /** The checks in the order they run: a negative start, then an empty or reversed range, then the length. */
  function ValidateSegmentTimes(startTime: real, endTime: real,
                                maxDuration: real := DEFAULT_MAX_DURATION): (r: (bool, Verdict))
    ensures r.0 <==> r.1 == Accepted
    ensures r.0 <==> 0.0 <= startTime && startTime < endTime && endTime - startTime <= maxDuration
    ensures startTime < 0.0 ==> r.1 == StartNegative
    ensures 0.0 <= startTime && endTime <= startTime ==> r.1 == EndNotAfterStart
    ensures r.1.TooLong? <==> 0.0 <= startTime < endTime && endTime - startTime > maxDuration
    ensures r.1.TooLong? ==> r.1.duration == endTime - startTime && r.1.maxDuration == maxDuration
  {
    if startTime < 0.0 then (false, StartNegative)
    else if endTime <= startTime then (false, EndNotAfterStart)
    else
      var duration := endTime - startTime;
      if duration > maxDuration then (false, TooLong(duration, maxDuration))
      else (true, Accepted)
  }

  /**
   * An accepted range is one a `Segment` can be built from, and the
   * segment's duration is positive and within the limit; with the default
   * limit, nothing longer than five hours is accepted.
   */
  lemma AcceptedRangeMakesSegment(startTime: real, endTime: real, maxDuration: real)
    requires ValidateSegmentTimes(startTime, endTime, maxDuration).0
    ensures NewSegment(0, startTime, endTime).Ok?
    ensures 0.0 < NewSegment(0, startTime, endTime).value.duration <= maxDuration
  {
    var s := NewSegment(0, startTime, endTime);
    assert WellFormed(s.value);
  }

  /** The negative start is reported even when the end is invalid too. */
  lemma NegativeStartReportedFirst(startTime: real, endTime: real, maxDuration: real)
    requires startTime < 0.0 && endTime <= startTime
    ensures Message(ValidateSegmentTimes(startTime, endTime, maxDuration).1) == "Start time cannot be negative"
  {
  }
}
