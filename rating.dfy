/** The rating record (`ScoreOutput`) and its validation. */
module Rating {

  import opened Wrappers

  /** The fields of a parsed reply as the validator sees them; `None` is a field the
    * reply does not have (or holds with the wrong type). */
  datatype Candidate = Candidate(
    modelName: Option<string>,
    currentRating: Option<int>,
    futureRating: Option<int>,
    currentConfidence: Option<int>,
    futureConfidence: Option<int>,
    reasoning: Option<seq<string>>,
    timestamp: Option<string>,
    version: Option<string>)

  /** A validated rating. */
  datatype ScoreOutput = ScoreOutput(
    modelName: string,
    currentRating: int,
    futureRating: int,
    currentConfidence: int,
    futureConfidence: int,
    reasoning: seq<string>,
    timestamp: string,
    version: string)

  const DefaultVersion := "1.0"
  const ValidationFailed := "ScoreOutput validation failed"

  predicate RatingInRange(x: int) { 1 <= x <= 9 }
  predicate ConfidenceInRange(x: int) { 0 <= x <= 100 }

  /** The schema's constraints: ratings in [1, 9], confidences in [0, 100], exactly three bullets. */
  predicate Valid(s: ScoreOutput) {
    && RatingInRange(s.currentRating) && RatingInRange(s.futureRating)
    && ConfidenceInRange(s.currentConfidence) && ConfidenceInRange(s.futureConfidence)
    && |s.reasoning| == 3
  }

  /** Every required field is present (only `version` has a default). */
  predicate Complete(c: Candidate) {
    && c.modelName.Some? && c.currentRating.Some? && c.futureRating.Some?
    && c.currentConfidence.Some? && c.futureConfidence.Some?
    && c.reasoning.Some? && c.timestamp.Some?
  }

  /** `ScoreOutput.model_validate`: accepts a complete candidate whose values meet the
    * constraints, keeping its values and defaulting `version`; rejects anything else
    * rather than clamping it. */
  function Validate(c: Candidate): (r: Result<ScoreOutput>)
    ensures r.Ok? <==>
      && Complete(c)
      && RatingInRange(c.currentRating.value) && RatingInRange(c.futureRating.value)
      && ConfidenceInRange(c.currentConfidence.value) && ConfidenceInRange(c.futureConfidence.value)
      && |c.reasoning.value| == 3
    ensures r.Ok? ==> Valid(r.value) && Candidate(
        Some(r.value.modelName), Some(r.value.currentRating), Some(r.value.futureRating),
        Some(r.value.currentConfidence), Some(r.value.futureConfidence),
        Some(r.value.reasoning), Some(r.value.timestamp), c.version) == c
    ensures r.Ok? ==> r.value.version == (if c.version.Some? then c.version.value else DefaultVersion)
  {
    if !Complete(c) then Err(ValidationFailed)
    else
      var s := ScoreOutput(
        c.modelName.value, c.currentRating.value, c.futureRating.value,
        c.currentConfidence.value, c.futureConfidence.value, c.reasoning.value,
        c.timestamp.value, if c.version.Some? then c.version.value else DefaultVersion);
      if Valid(s) then Ok(s) else Err(ValidationFailed)
  }

  /** The client-side overwrite of `model_name` and `timestamp` after validation. */
  function Stamp(s: ScoreOutput, modelName: string, now: string): (r: ScoreOutput)
    ensures r.modelName == modelName && r.timestamp == now
    ensures Valid(s) ==> Valid(r)
    ensures r.(modelName := s.modelName, timestamp := s.timestamp) == s
  {
    s.(modelName := modelName, timestamp := now)
  }

  /** A record with one value out of range is rejected, whatever the other fields hold. */
  lemma OneViolationRejects(c: Candidate)
    requires Complete(c)
    requires !RatingInRange(c.currentRating.value) || !RatingInRange(c.futureRating.value)
          || !ConfidenceInRange(c.currentConfidence.value) || !ConfidenceInRange(c.futureConfidence.value)
          || |c.reasoning.value| != 3
    ensures Validate(c).Err?
  {
  }

  /** What the model claims for `model_name` and `timestamp` does not reach the stamped
    * record: two candidates that differ only there give the same stamped result. */
  lemma StampIgnoresClaims(c: Candidate, claimedName: string, claimedTime: string, modelName: string, now: string)
    requires c.modelName.Some? && c.timestamp.Some?
    ensures var d := c.(modelName := Some(claimedName), timestamp := Some(claimedTime));
      && Validate(d).Ok? == Validate(c).Ok?
      && (Validate(c).Ok? ==> Stamp(Validate(d).value, modelName, now) == Stamp(Validate(c).value, modelName, now))
  {
  }
}
