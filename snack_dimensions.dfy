/** The dimension flow: the classifier's raw record is cleaned up so that
    only the fields of the detected snack type survive, every dimension the
    area needs is present and positive, the inclination lies in [-90, 90],
    and every failure is the canonical "unknown" record with a message. */
module SnackDimensions {
  import opened Snacks

  /** The classifier's output record; every dimension is nullable. */
  datatype SnackDimensionsOutput = SnackDimensionsOutput(
    snackType: SnackType,
    diameter: Option<real>,
    length: Option<real>,
    width: Option<real>,
    inclination: Option<real>,
    sideA: Option<real>,
    sideB: Option<real>,
    sideC: Option<real>,
    error: Option<string>)

  /** What the prompt call gives back: nothing, a record, or a thrown value. */
  datatype PromptOutcome = NoOutput | Output(output: SnackDimensionsOutput) | PromptThrew(exception: Thrown)

  const NoOutputError: string := "Could not analyze image. The model returned no output."
  const DiameterError: string := "The model could not determine a valid diameter for the parippuvada."
  const VazhaikkapamError: string := "The model could not determine valid dimensions for the vazhaikkapam."
  const SamoosaError: string := "The model could not determine valid dimensions for the samoosa."
  const UnidentifiedError: string := "The model could not identify the snack."
  const UnknownFailure: string := "An unknown error occurred during analysis."
  const FailurePrefix: string := "Could not analyze image: "

  /** The canonical failure record: unknown type, all seven dimensions null. */
  function UnknownRecord(error: string): SnackDimensionsOutput
  {
    SnackDimensionsOutput(Unknown, None, None, None, None, None, None, None, Some(error))
  }

  /** JavaScript's `s || fallback` on a nullable string. */
  function OrElse(s: Option<string>, fallback: string): (r: string)
    ensures Truthy(s) ==> r == s.value
    ensures !Truthy(s) ==> r == fallback
  {
    if Truthy(s) then s.value else fallback
  }

  /** The message carried out of a `catch`: an Error's own message, or a default. */
  function ThrownMessage(e: Thrown): string
  {
    match e
    case ErrorObject(message) => message
    case OtherValue => UnknownFailure
  }

  predicate InclinationInRange(x: real)
  {
    -90.0 <= x <= 90.0
  }

  /** An inclination that is null or outside [-90, 90] is reset to 0. */
  function NormalisedInclination(x: Option<real>): (r: Option<real>)
    ensures r.Some? && InclinationInRange(r.value)
    ensures x.Some? && InclinationInRange(x.value) ==> r == x
  {
    if x.None? || x.value < -90.0 || x.value > 90.0 then Some(0.0) else x
  }

  /** A failure: the canonical unknown record with a non-empty error. */
  predicate IsFailureRecord(r: SnackDimensionsOutput)
  {
    r.snackType == Unknown && Truthy(r.error) &&
    r.diameter.None? && r.length.None? && r.width.None? && r.inclination.None? &&
    r.sideA.None? && r.sideB.None? && r.sideC.None?
  }

  predicate IsParippuvadaRecord(r: SnackDimensionsOutput)
  {
    r.snackType == Parippuvada && r.error.None? &&
    Positive(r.diameter) &&
    r.length.None? && r.width.None? && r.inclination.None? &&
    r.sideA.None? && r.sideB.None? && r.sideC.None?
  }

  predicate IsVazhaikkapamRecord(r: SnackDimensionsOutput)
  {
    r.snackType == Vazhaikkapam && r.error.None? &&
    Positive(r.length) && Positive(r.width) &&
    r.inclination.Some? && InclinationInRange(r.inclination.value) &&
    r.diameter.None? && r.sideA.None? && r.sideB.None? && r.sideC.None?
  }

  predicate IsSamoosaRecord(r: SnackDimensionsOutput)
  {
    r.snackType == Samoosa && r.error.None? &&
    Positive(r.sideA) && Positive(r.sideB) && Positive(r.sideC) &&
    r.diameter.None? && r.length.None? && r.width.None? && r.inclination.None?
  }

  predicate IsSuccessRecord(r: SnackDimensionsOutput)
  {
    IsParippuvadaRecord(r) || IsVazhaikkapamRecord(r) || IsSamoosaRecord(r)
  }

  /** The raw record names a snack type whose needed dimensions are all
      present and positive (the triangle inequality is not part of it). */
  predicate HasDimensions(o: SnackDimensionsOutput)
  {
    match o.snackType
    case Parippuvada => Positive(o.diameter)
    case Vazhaikkapam => Positive(o.length) && Positive(o.width)
    case Samoosa => Positive(o.sideA) && Positive(o.sideB) && Positive(o.sideC)
    case Unknown => false
  }

  /** A successful cleanup keeps the type and the measured values. */
  predicate KeepsMeasurements(o: SnackDimensionsOutput, r: SnackDimensionsOutput)
  {
    r.snackType == o.snackType &&
    match o.snackType
    case Parippuvada => r.diameter == o.diameter
    case Vazhaikkapam =>
      r.length == o.length && r.width == o.width &&
      (o.inclination.Some? && InclinationInRange(o.inclination.value) ==> r.inclination == o.inclination) &&
      (o.inclination.None? || !InclinationInRange(o.inclination.value) ==> r.inclination == Some(0.0))
    case Samoosa => r.sideA == o.sideA && r.sideB == o.sideB && r.sideC == o.sideC
    case Unknown => false
  }

  /** The cleanup of a record the prompt returned. */
  function Clean(o: SnackDimensionsOutput): (r: SnackDimensionsOutput)
    ensures IsFailureRecord(r) || IsSuccessRecord(r)
    ensures Truthy(o.error) ==> r == UnknownRecord(o.error.value)
    ensures IsSuccessRecord(r) <==> !Truthy(o.error) && HasDimensions(o)
    ensures IsSuccessRecord(r) ==> KeepsMeasurements(o, r)
    ensures !Truthy(o.error) && o.snackType == Unknown ==> r == UnknownRecord(UnidentifiedError)
  {
    if Truthy(o.error) then UnknownRecord(o.error.value)
    else
      match o.snackType
      case Parippuvada =>
        if Positive(o.diameter)
        then SnackDimensionsOutput(Parippuvada, o.diameter, None, None, None, None, None, None, None)
        else UnknownRecord(DiameterError)
      case Vazhaikkapam =>
        if Positive(o.length) && Positive(o.width)
        then SnackDimensionsOutput(Vazhaikkapam, None, o.length, o.width, NormalisedInclination(o.inclination), None, None, None, None)
        else UnknownRecord(VazhaikkapamError)
      case Samoosa =>
        if Positive(o.sideA) && Positive(o.sideB) && Positive(o.sideC)
        then SnackDimensionsOutput(Samoosa, None, None, None, None, o.sideA, o.sideB, o.sideC, None)
        else UnknownRecord(SamoosaError)
      case Unknown => UnknownRecord(UnidentifiedError)
  }

  /** The whole flow, given what the prompt call produced. */
  function DimensionsFlow(p: PromptOutcome): (r: SnackDimensionsOutput)
    ensures IsFailureRecord(r) || IsSuccessRecord(r)
    ensures r.error.Some? ==> IsFailureRecord(r)
    ensures p.NoOutput? ==> r == UnknownRecord(NoOutputError)
    ensures p.PromptThrew? ==> r == UnknownRecord(FailurePrefix + ThrownMessage(p.exception))
  {
    match p
    case NoOutput => UnknownRecord(NoOutputError)
    case Output(o) => Clean(o)
    case PromptThrew(e) => UnknownRecord(FailurePrefix + ThrownMessage(e))
  }

  /** Cleaning a cleaned record changes nothing: failures carry their error
      through, successes already satisfy every rule. */
  lemma {:induction false} CleanIdempotent(o: SnackDimensionsOutput)
    ensures Clean(Clean(o)) == Clean(o)
  {
    var r := Clean(o);
    if IsSuccessRecord(r) {
      assert !Truthy(r.error);
      if r.snackType == Vazhaikkapam {
        assert NormalisedInclination(r.inclination) == r.inclination;
      }
    } else {
      assert Truthy(r.error);
    }
  }

  /** Running the cleanup again on the flow's output returns the same record. */
  lemma FlowIdempotent(p: PromptOutcome)
    ensures Clean(DimensionsFlow(p)) == DimensionsFlow(p)
  {
    if p.Output? {
      CleanIdempotent(p.output);
    }
  }

  /** The flow as the program runs it: the returned record is updated field
      by field and then handed back, or a fresh failure record is returned. */
  method SnackDimensionsFlow(prompt: PromptOutcome) returns (r: SnackDimensionsOutput)
    ensures r == DimensionsFlow(prompt)
  {
    match prompt {
      case PromptThrew(e) =>
        var errorMessage := if e.ErrorObject? then e.message else UnknownFailure;
        return UnknownRecord(FailurePrefix + errorMessage);
      case NoOutput =>
        return UnknownRecord(NoOutputError);
      case Output(o) =>
        var output := o;
        if Truthy(output.error) {
          return UnknownRecord(output.error.value);
        }
        if output.snackType == Parippuvada {
          output := output.(length := None);
          output := output.(width := None);
          output := output.(inclination := None);
          output := output.(sideA := None);
          output := output.(sideB := None);
          output := output.(sideC := None);
          if !Positive(output.diameter) {
            return UnknownRecord(DiameterError);
          }
        } else if output.snackType == Vazhaikkapam {
          output := output.(diameter := None);
          output := output.(sideA := None);
          output := output.(sideB := None);
          output := output.(sideC := None);
          if !Positive(output.length) || !Positive(output.width) {
            return UnknownRecord(VazhaikkapamError);
          }
          if output.inclination.None? || output.inclination.value < -90.0 || output.inclination.value > 90.0 {
            output := output.(inclination := Some(0.0));
          }
        } else if output.snackType == Samoosa {
          output := output.(diameter := None);
          output := output.(length := None);
          output := output.(width := None);
          output := output.(inclination := None);
          if !Positive(output.sideA) || !Positive(output.sideB) || !Positive(output.sideC) {
            return UnknownRecord(SamoosaError);
          }
        } else {
          return UnknownRecord(OrElse(output.error, UnidentifiedError));
        }
        output := output.(error := None);
        return output;
    }
  }
}
