/** Labels: a tag or class value together with a confidence score. */
module Labels {
  import opened Results

  /**
   * A label. The source's `Label` validates through property setters; here a label
   * is a value and the setters are the functions below, which are the only way the
   * model builds one.
   */
  datatype Label = Label(value: string, score: real)

  /** A confidence score the setter accepts as given. */
  predicate InRange(score: real) {
    0.0 <= score <= 1.0
  }

  /** The label invariant: its score lies in [0, 1]. */
  predicate Valid(l: Label) {
    InRange(l.score)
  }

  /** The score setter: an in-range score is stored, anything else is silently replaced by 1.0. */
  function CoerceScore(score: real): (r: real)
    ensures InRange(r)
    ensures InRange(score) ==> r == score
    ensures !InRange(score) ==> r == 1.0
  {
    if 0.0 <= score <= 1.0 then score else 1.0
  }

  /**
   * `Label(value, score)`: a missing value (`None`) raises `ValueError`; every string,
   * the empty one included, is accepted; the score goes through the score setter.
   */
  function NewLabel(value: Option<string>, score: real := 1.0): (r: Result<Label>)
    ensures r.Failure? <==> value == None
    ensures r.Failure? ==> r.error.ValueError?
    ensures r.Success? ==> Valid(r.value) && r.value.value == value.value && r.value.score == CoerceScore(score)
  {
    match value
    case None => Failure(ValueError("Incorrect label value provided. Label value needs to be set."))
    case Some(v) => Success(Label(v, CoerceScore(score)))
  }

  /** The value setter applied to an existing label: `None` raises, a string replaces the value and keeps the score. */
  function SetValue(l: Label, value: Option<string>): (r: Result<Label>)
    ensures r.Failure? <==> value == None
    ensures r.Success? ==> r.value.value == value.value && r.value.score == l.score
    ensures r.Success? && Valid(l) ==> Valid(r.value)
  {
    match value
    case None => Failure(ValueError("Incorrect label value provided. Label value needs to be set."))
    case Some(v) => Success(l.(value := v))
  }

  /** The score setter applied to an existing label. */
  function SetScore(l: Label, score: real): (r: Label)
    ensures Valid(r) && r.value == l.value
    ensures InRange(score) ==> r.score == score
    ensures !InRange(score) ==> r.score == 1.0
  {
    l.(score := CoerceScore(score))
  }

  /** `Label('')`: the label a token reports for a tag type it does not carry. */
  const EmptyLabel: Label := Label("", 1.0)
}
