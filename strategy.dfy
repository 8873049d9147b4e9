/**
 * The planning half of `handleSplit`: the two presets, the custom
 * interval and the custom timestamp list, with the three ways a request
 * is refused before any processing starts.
 */
module Strategy {
  import opened Wrappers
  import opened Segments

  /** The keys of `PRESETS`. */
  datatype PresetName = Instagram | TikTok

  /** `PRESETS[name]`, in seconds. */
  function PresetSeconds(name: PresetName): (seconds: nat)
    ensures seconds >= 1
  {
    match name
    case Instagram => 15
    case TikTok => 60
  }

  /**
   * What the user chose. The custom interval carries what `parseInt` made
   * of the text field; `None` stands for `NaN`.
   */
  datatype Strategy =
    | Preset(name: PresetName)
    | CustomInterval(requested: Option<int>)
    | CustomTimestamps(text: string)

  /** The three alerts `handleSplit` can raise instead of processing. */
  datatype PlanError = InvalidInterval | InvalidTimestamps | NoSegments

  /** `!duration || duration < 1` lets the interval through only when it is a number of at least one second. */
  predicate ValidInterval(requested: Option<int>) {
    requested.Some? && requested.value >= 1
  }

  function NonEmpty(segments: seq<Segment>): Result<seq<Segment>, PlanError> {
    if segments == [] then Err(NoSegments) else Ok(segments)
  }

  /** What `handleSplit` hands to `processVideo`, or the alert it raises, for a video of `d` seconds. */
  function PlanOf(strategy: Strategy, d: real): Result<seq<Segment>, PlanError> {
    match strategy
    case Preset(name) => NonEmpty(IntervalPlan(PresetSeconds(name) as real, d))
    case CustomInterval(requested) =>
      if !ValidInterval(requested) then Err(InvalidInterval)
      else NonEmpty(IntervalPlan(requested.value as real, d))
    case CustomTimestamps(text) =>
      match TimestampPlan(text, d)
      case None => Err(InvalidTimestamps)
      case Some(segments) => NonEmpty(segments)
  }

  /** The dispatch of `handleSplit` up to the call of `processVideo`. */
  method PlanSplit(strategy: Strategy, d: real) returns (r: Result<seq<Segment>, PlanError>)
    ensures r == PlanOf(strategy, d)
  {
    var segments: seq<Segment>;
    match strategy {
      case CustomInterval(requested) =>
        if requested.None? || requested.value < 1 {
          return Err(InvalidInterval);
        }
        segments := SegmentsByInterval(requested.value as real, d);
      case CustomTimestamps(text) =>
        var planned := SegmentsByTimestamps(text, d);
        if planned.None? {
          return Err(InvalidTimestamps);
        }
        segments := planned.value;
      case Preset(name) =>
        segments := SegmentsByInterval(PresetSeconds(name) as real, d);
    }
    if |segments| == 0 {
      return Err(NoSegments);
    }
    return Ok(segments);
  }

  /** The strategy's own guard: the interval field or the timestamp field is refused. */
  predicate InputRefused(strategy: Strategy, d: real) {
    match strategy
    case Preset(_) => false
    case CustomInterval(requested) => !ValidInterval(requested)
    case CustomTimestamps(text) => RejectsField(text, d)
  }

  /** An accepted input is planned exactly when the video has positive duration, and the plan is never empty. */
  lemma PlanAccepted(strategy: Strategy, d: real)
    requires !InputRefused(strategy, d)
    ensures PlanOf(strategy, d).Ok? <==> d > 0.0
  {
    match strategy
    case Preset(name) =>
      IntervalCountBound(PresetSeconds(name) as real, d, 0);
    case CustomInterval(requested) =>
      IntervalCountBound(requested.value as real, d, 0);
    case CustomTimestamps(text) =>
      TimestampPlanNonEmpty(text, d);
  }

  /** Each alert is raised exactly in its own case. */
  lemma PlanErrors(strategy: Strategy, d: real)
    ensures PlanOf(strategy, d) == Err(InvalidInterval)
        <==> strategy.CustomInterval? && !ValidInterval(strategy.requested)
    ensures PlanOf(strategy, d) == Err(InvalidTimestamps)
        <==> strategy.CustomTimestamps? && RejectsField(strategy.text, d)
    ensures PlanOf(strategy, d) == Err(NoSegments)
        <==> !InputRefused(strategy, d) && d <= 0.0
  {
    if !InputRefused(strategy, d) {
      PlanAccepted(strategy, d);
    }
  }

  /** Every plan handed on covers the whole video: segments laid end to end from 0 to `d`. */
  lemma PlanTiles(strategy: Strategy, d: real)
    requires PlanOf(strategy, d).Ok?
    ensures Tiles(PlanOf(strategy, d).value, d)
  {
    PlanAccepted(strategy, d);
    match strategy
    case Preset(name) =>
      IntervalPlanTiles(PresetSeconds(name) as real, d);
    case CustomInterval(requested) =>
      IntervalPlanTiles(requested.value as real, d);
    case CustomTimestamps(text) =>
      TimestampPlanTiles(text, d);
  }

  /** A preset cuts the video into ceil(d / seconds) pieces of the preset's length, the last one possibly shorter. */
  lemma PresetPlan(name: PresetName, d: real)
    requires d > 0.0
    ensures var r := PlanOf(Preset(name), d);
      && r.Ok?
      && |r.value| == Ceil(d / PresetSeconds(name) as real)
      && (forall i :: 0 <= i < |r.value| - 1 ==> r.value[i].duration == PresetSeconds(name) as real)
      && r.value[|r.value| - 1].duration <= PresetSeconds(name) as real
  {
    PlanAccepted(Preset(name), d);
    IntervalPlanTiles(PresetSeconds(name) as real, d);
  }
}
