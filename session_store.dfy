/** The server side of the measurer: an append-only list of the snacks
    measured in this session, the "largest so far" query per snack type, and
    the analysis that turns one classified image into an area, compares it
    with the record of its type and stores it. */
module SessionStore {
  import opened Snacks
  import opened SnackDimensions

  /** One stored measurement. The id (a timestamp) and the image are opaque. */
  datatype Snack = Snack(id: string, kind: SnackKind, area: real, imageData: string)

  /** The current record holder of each type, or none. */
  datatype Winners = Winners(parippuvadaWinner: Option<Snack>, vazhaikkapamWinner: Option<Snack>, samoosaWinner: Option<Snack>)

  function WinnerOf(w: Winners, t: SnackKind): Option<Snack>
  {
    match t
    case Parippuvada => w.parippuvadaWinner
    case Vazhaikkapam => w.vazhaikkapamWinner
    case Samoosa => w.samoosaWinner
  }

  /** Every stored snack has a positive area. */
  ghost predicate AllPositive(store: seq<Snack>)
  {
    forall i :: 0 <= i < |store| ==> store[i].area > 0.0
  }

  /** `filter(s => s.type === t)`, order kept. */
  function OfType(store: seq<Snack>, t: SnackKind): (r: seq<Snack>)
    ensures forall x :: x in r <==> x in store && x.kind == t
    ensures |r| <= |store|
  {
    if store == [] then []
    else
      var rest := OfType(store[..|store| - 1], t);
      var last := store[|store| - 1];
      assert forall x :: x in store <==> x in store[..|store| - 1] || x == last by {
        assert store == store[..|store| - 1] + [last];
      }
      if last.kind == t then rest + [last] else rest
  }

  /** `reduce((prev, current) => prev.area > current.area ? prev : current)`:
      a left fold that keeps the accumulator only when it is strictly larger. */
  function Reduce(s: seq<Snack>): (r: Snack)
    requires |s| > 0
    ensures r in s
    ensures forall x :: x in s ==> x.area <= r.area
  {
    if |s| == 1 then s[0]
    else
      var prev := Reduce(s[..|s| - 1]);
      var current := s[|s| - 1];
      assert forall x :: x in s ==> x in s[..|s| - 1] || x == current by {
        assert s == s[..|s| - 1] + [current];
      }
      if prev.area > current.area then prev else current
  }

  /** The tie-break of the fold: the result is the LAST element of largest
      area, since every later element is strictly smaller. */
  lemma {:induction false} ReduceKeepsLastMaximum(s: seq<Snack>)
    requires |s| > 0
    ensures exists k :: 0 <= k < |s| && s[k] == Reduce(s) && forall j :: k < j < |s| ==> s[j].area < s[k].area
  {
    var n := |s| - 1;
    if n == 0 {
      assert s[0] == Reduce(s);
    } else {
      var init := s[..n];
      if Reduce(init).area > s[n].area {
        assert Reduce(s) == Reduce(init);
        ReduceKeepsLastMaximum(init);
        var k :| 0 <= k < n && init[k] == Reduce(init) && forall j :: k < j < n ==> init[j].area < init[k].area;
        assert s[k] == init[k];
        forall j | k < j <= n ensures s[j].area < s[k].area {
          if j < n { assert s[j] == init[j]; }
        }
        assert 0 <= k < |s| && s[k] == Reduce(s) && forall j :: k < j < |s| ==> s[j].area < s[k].area;
      } else {
        assert s[n] == Reduce(s);
      }
    }
  }

  /** `getLargestSnack`. */
  function LargestSnack(store: seq<Snack>, t: SnackKind): (r: Option<Snack>)
    ensures r.None? <==> forall x :: x in store ==> x.kind != t
    ensures r.Some? ==> r.value in store && r.value.kind == t
    ensures r.Some? ==> forall x :: x in store && x.kind == t ==> x.area <= r.value.area
  {
    var snacksOfType := OfType(store, t);
    if |snacksOfType| == 0 then None
    else
      assert snacksOfType[0] in snacksOfType;
      Some(Reduce(snacksOfType))
  }

  /** `getWinners`: a fresh snapshot of the three record holders. */
  function GetWinners(store: seq<Snack>): (w: Winners)
    ensures forall t: SnackKind :: WinnerOf(w, t).None? <==> forall x :: x in store ==> x.kind != t
    ensures forall t: SnackKind :: WinnerOf(w, t).Some? ==> WinnerOf(w, t).value in store && WinnerOf(w, t).value.kind == t
    ensures forall t: SnackKind, x :: WinnerOf(w, t).Some? && x in store && x.kind == t ==> x.area <= WinnerOf(w, t).value.area
  {
    Winners(LargestSnack(store, Parippuvada), LargestSnack(store, Vazhaikkapam), LargestSnack(store, Samoosa))
  }

  /** `!largestSnackBefore || area > largestSnackBefore.area`. */
  predicate IsNewRecord(store: seq<Snack>, t: SnackKind, area: real)
    ensures (forall x :: x in store ==> x.kind != t) ==> IsNewRecord(store, t, area)
    ensures (exists x :: x in store && x.kind == t && x.area == area) ==> !IsNewRecord(store, t, area)
  {
    var before := LargestSnack(store, t);
    before.None? || area > before.value.area
  }

  /** A new record beats every stored snack of its type, strictly; a tie is no record. */
  lemma NewRecordIffBeatsAll(store: seq<Snack>, t: SnackKind, area: real)
    ensures IsNewRecord(store, t, area) <==> forall x :: x in store && x.kind == t ==> area > x.area
  {
  }

  /** Adding a snack leaves the filter of every other type alone. */
  lemma {:induction false} OfTypeAppend(store: seq<Snack>, s: Snack, t: SnackKind)
    ensures OfType(store + [s], t) == if s.kind == t then OfType(store, t) + [s] else OfType(store, t)
  {
    assert (store + [s])[..|store + [s]| - 1] == store;
  }

  /** How the record holder of each type changes when `s` is stored: other
      types keep theirs; the type of `s` gets `s` unless the old holder is
      strictly larger, so an equal area also makes `s` the holder. */
  lemma {:induction false} LargestAfterAppend(store: seq<Snack>, s: Snack, t: SnackKind)
    ensures t != s.kind ==> LargestSnack(store + [s], t) == LargestSnack(store, t)
    ensures t == s.kind ==>
      LargestSnack(store + [s], t) ==
        (var before := LargestSnack(store, t);
         if before.Some? && before.value.area > s.area then before else Some(s))
  {
    OfTypeAppend(store, s, t);
    var f := OfType(store, t);
    if t == s.kind && |f| > 0 {
      assert (f + [s])[..|f + [s]| - 1] == f;
    }
  }

  lemma WinnerOfIsLargest(store: seq<Snack>, t: SnackKind)
    ensures WinnerOf(GetWinners(store), t) == LargestSnack(store, t)
  {
  }

  /** After storing a snack, winners of the other types are unchanged, and
      the snack is its type's winner exactly when its area is at least the
      previous record; in particular when it is a new record. */
  lemma {:induction false} WinnersAfterAppend(store: seq<Snack>, s: Snack)
    ensures forall t: SnackKind :: t != s.kind ==> WinnerOf(GetWinners(store + [s]), t) == WinnerOf(GetWinners(store), t)
    ensures WinnerOf(GetWinners(store + [s]), s.kind) == Some(s) <==>
            (LargestSnack(store, s.kind).None? || s.area >= LargestSnack(store, s.kind).value.area)
    ensures IsNewRecord(store, s.kind, s.area) ==> WinnerOf(GetWinners(store + [s]), s.kind) == Some(s)
  {
    forall t: SnackKind | t != s.kind
      ensures WinnerOf(GetWinners(store + [s]), t) == WinnerOf(GetWinners(store), t)
    {
      WinnerOfIsLargest(store + [s], t);
      WinnerOfIsLargest(store, t);
      LargestAfterAppend(store, s, t);
    }
    WinnerOfIsLargest(store + [s], s.kind);
    LargestAfterAppend(store, s, s.kind);
    var before := LargestSnack(store, s.kind);
    if before.Some? && before.value.area > s.area {
      assert before.value != s;
    }
  }

  // ----- the commentary request -----

  datatype SnackCommentaryInput = SnackCommentaryInput(snackType: SnackKind, newSnackArea: real, largestSnackArea: real)

  /** What the commentary call gives back. */
  datatype CommentaryOutcome = Commented(comment: string) | CommentaryThrew(exception: Thrown)

  /** The request sent to the commentator: the previous record's area, or 0. */
  function CommentaryRequest(store: seq<Snack>, t: SnackKind, area: real): (c: SnackCommentaryInput)
    ensures c.snackType == t && c.newSnackArea == area
    ensures forall x :: x in store && x.kind == t ==> x.area <= c.largestSnackArea
    ensures (exists x :: x in store && x.kind == t) ==> exists x :: x in store && x.kind == t && x.area == c.largestSnackArea
    ensures AllPositive(store) ==> (c.largestSnackArea == 0.0 <==> forall x :: x in store ==> x.kind != t)
  {
    var largestSnackBefore := LargestSnack(store, t);
    var largest := if largestSnackBefore.Some? then largestSnackBefore.value.area else 0.0;
    assert largestSnackBefore.Some? ==> largestSnackBefore.value in store;
    SnackCommentaryInput(t, area, largest)
  }

  // ----- the error taxonomy -----

  const InvalidInputError: string := "Invalid input provided."
  const NotASnackError: string := "Aalae patttikunno? he?"
  const InvalidTriangleError: string := "Invalid samoosa dimensions. The sides do not form a valid triangle."
  const MissingDimensionsError: string := "Could not calculate area due to missing or invalid dimensions."
  const QuotaError: string := "Nammade quota theernnu! We've hit our daily analysis limit. Please try again tomorrow."
  const UnknownError: string := "An unknown error occurred."
  const CatchPrefix: string := "Could not analyze snack image at this time: "
  const RateLimitStatus: string := "429"

  /** `s.includes(sub)`. */
  function Includes(s: string, sub: string): (r: bool)
    ensures r ==> |sub| <= |s|
    ensures |sub| <= |s| && s[..|sub|] == sub ==> r
    decreases |s|
  {
    if |s| < |sub| then false
    else if s[..|sub|] == sub then true
    else Includes(s[1..], sub)
  }

  /** `sub` stands in `s` at index `i`. */
  predicate OccursAt(s: string, sub: string, i: int)
  {
    0 <= i && i + |sub| <= |s| && s[i..i + |sub|] == sub
  }

  /** `includes` finds `sub` exactly when it occurs at some index. */
  lemma {:induction false} IncludesIffOccurs(s: string, sub: string)
    ensures Includes(s, sub) <==> exists i :: OccursAt(s, sub, i)
    decreases |s|
  {
    if |s| < |sub| {
    } else if s[..|sub|] == sub {
      assert OccursAt(s, sub, 0);
    } else {
      IncludesIffOccurs(s[1..], sub);
      if Includes(s, sub) {
        var i :| OccursAt(s[1..], sub, i);
        assert s[1..][i..i + |sub|] == s[i + 1..i + 1 + |sub|];
        assert OccursAt(s, sub, i + 1);
      }
      if exists i :: OccursAt(s, sub, i) {
        var i :| OccursAt(s, sub, i);
        assert i != 0;
        assert s[1..][i - 1..i - 1 + |sub|] == s[i..i + |sub|];
        assert OccursAt(s[1..], sub, i - 1);
      }
    }
  }

  /** The message of the outer `catch`: a quota message when the Error's
      message mentions status 429, else the message itself. */
  function CaughtMessage(e: Thrown): (m: string)
    ensures e.ErrorObject? && Includes(e.message, RateLimitStatus) ==> m == CatchPrefix + QuotaError
    ensures e.ErrorObject? && !Includes(e.message, RateLimitStatus) ==> m == CatchPrefix + e.message
    ensures e.OtherValue? ==> m == CatchPrefix + UnknownError
    ensures CatchPrefix <= m
  {
    var errorMessage :=
      match e
      case ErrorObject(message) => if Includes(message, RateLimitStatus) then QuotaError else message
      case OtherValue => UnknownError;
    CatchPrefix + errorMessage
  }

  // ----- the area -----

  datatype Measurement = Measured(area: real) | InvalidTriangle | NotMeasured

  /** The per-type area, or the reason there is none. The samoosa branch
      only asks that each side be non-null and non-zero before the
      triangle test. */
  function Measure(d: SnackDimensionsOutput, sqrt: real -> real): (m: Measurement)
    ensures m.InvalidTriangle? <==>
      d.snackType == Samoosa && NonZero(d.sideA) && NonZero(d.sideB) && NonZero(d.sideC) &&
      !IsTriangle(d.sideA.value, d.sideB.value, d.sideC.value)
    ensures m.NotMeasured? <==>
      !(d.snackType == Parippuvada && Positive(d.diameter)) &&
      !(d.snackType == Vazhaikkapam && Positive(d.length) && Positive(d.width)) &&
      !(d.snackType == Samoosa && NonZero(d.sideA) && NonZero(d.sideB) && NonZero(d.sideC))
    ensures PositiveOnPositive(sqrt) && m.Measured? ==> m.area > 0.0
  {
    if d.snackType == Parippuvada && Positive(d.diameter) then
      Measured(CircleArea(d.diameter.value))
    else if d.snackType == Vazhaikkapam && Positive(d.length) && Positive(d.width) then
      Measured(EllipseArea(d.length.value, d.width.value))
    else if d.snackType == Samoosa && NonZero(d.sideA) && NonZero(d.sideB) && NonZero(d.sideC) then
      var a, b, c := d.sideA.value, d.sideB.value, d.sideC.value;
      if IsTriangle(a, b, c) then Measured(HeronArea(a, b, c, sqrt)) else InvalidTriangle
    else
      NotMeasured
  }

  // ----- the analysis -----

  /** The request payload; only an object with a string `imageData` passes. */
  datatype Payload = Payload(imageData: string) | Malformed

  /** What `getSnackDimensions` gives back. */
  datatype ClassifierOutcome = Classified(dimensions: SnackDimensionsOutput) | ClassifierThrew(exception: Thrown)

  /** The result of every exit: the dimension record (whose `error` is the
      result's error), and the analysis fields. */
  datatype SnackAnalysisResult = SnackAnalysisResult(
    dimensions: SnackDimensionsOutput,
    area: Option<real>,
    commentary: Option<string>,
    isNewRecord: bool,
    latestSnack: Option<Snack>,
    winners: Winners)

  /** `{...errorResult, error, ...getWinners()}`: nothing measured. */
  function ErrorResult(error: string, winners: Winners): (r: SnackAnalysisResult)
    ensures r.dimensions.error == Some(error) && r.winners == winners
    ensures error != "" ==> IsFailure(r) && IsFailureRecord(r.dimensions)
  {
    SnackAnalysisResult(UnknownRecord(error), None, None, false, None, winners)
  }

  /** `{...errorResult, ...dimensionsResult, error, ...getWinners()}`: the
      classifier's dimensions echoed back with the geometry error. */
  function EchoResult(d: SnackDimensionsOutput, error: string, winners: Winners): (r: SnackAnalysisResult)
    ensures r.dimensions.error == Some(error) && r.winners == winners
    ensures r.dimensions.(error := d.error) == d
    ensures error != "" ==> IsFailure(r)
  {
    SnackAnalysisResult(d.(error := Some(error)), None, None, false, None, winners)
  }

  /** One analysis: the result and the store afterwards. */
  datatype Analysis = Analysis(result: SnackAnalysisResult, store: seq<Snack>)

  predicate IsFailure(r: SnackAnalysisResult)
  {
    Truthy(r.dimensions.error) && !r.isNewRecord && r.latestSnack.None? && r.area.None? && r.commentary.None?
  }

  /** What every exit of the analysis guarantees: a fresh winners snapshot
      of the store afterwards; on failure an error, no snack, no area, no
      record and the store untouched; on success exactly one more snack,
      the one returned, of the detected type, with the returned positive
      area, and a record flag computed against the store before it. */
  predicate Consistent(store: seq<Snack>, imageData: string, id: string, a: Analysis)
  {
    && a.result.winners == GetWinners(a.store)
    && (a.result.latestSnack.None? ==> a.store == store && IsFailure(a.result))
    && (a.result.latestSnack.Some? ==>
          var s := a.result.latestSnack.value;
          && a.store == store + [s]
          && a.result.dimensions.error.None?
          && a.result.dimensions.snackType == s.kind
          && a.result.area == Some(s.area) && s.area > 0.0
          && a.result.isNewRecord == IsNewRecord(store, s.kind, s.area)
          && a.result.commentary.Some?
          && s.imageData == imageData && s.id == id)
  }

  /** The last stage: an area is known; ask for the commentary, then store. */
  function AnalyzeMeasured(store: seq<Snack>, imageData: string, d: SnackDimensionsOutput, area: real,
                           getSnackCommentary: SnackCommentaryInput -> CommentaryOutcome, id: string): (a: Analysis)
    requires d.snackType != Unknown && area > 0.0
    ensures Consistent(store, imageData, id, a)
    ensures a.result.latestSnack.Some? ==> a.result.area == Some(area) && a.result.latestSnack.value.kind == d.snackType
  {
    match getSnackCommentary(CommentaryRequest(store, d.snackType, area))
    case CommentaryThrew(e) => Analysis(ErrorResult(CaughtMessage(e), GetWinners(store)), store)
    case Commented(comment) =>
      var newSnack := Snack(id, d.snackType, area, imageData);
      var after := store + [newSnack];
      Analysis(SnackAnalysisResult(d.(error := None), Some(area), Some(comment),
                                   IsNewRecord(store, d.snackType, area), Some(newSnack), GetWinners(after)),
               after)
  }

  /** The middle stage: the classifier answered with `d`. */
  function AnalyzeClassified(store: seq<Snack>, imageData: string, d: SnackDimensionsOutput,
                             getSnackCommentary: SnackCommentaryInput -> CommentaryOutcome, sqrt: real -> real, id: string): (a: Analysis)
    ensures Consistent(store, imageData, id, a)
  {
    var winners := GetWinners(store);
    if Truthy(d.error) || d.snackType == Unknown then
      Analysis(ErrorResult(OrElse(d.error, NotASnackError), winners), store)
    else
      match Measure(d, sqrt)
      case InvalidTriangle => Analysis(EchoResult(d, InvalidTriangleError, winners), store)
      case NotMeasured => Analysis(EchoResult(d, MissingDimensionsError, winners), store)
      case Measured(area) =>
        if area <= 0.0 then Analysis(EchoResult(d, MissingDimensionsError, winners), store)
        else AnalyzeMeasured(store, imageData, d, area, getSnackCommentary, id)
  }

  /** `analyzeAndCompareSnack` on a store, with the two model calls and
      `Math.sqrt` given as functions and the fresh id given as a value. */
  function Analyze(store: seq<Snack>, data: Payload, getSnackDimensions: string -> ClassifierOutcome,
                   getSnackCommentary: SnackCommentaryInput -> CommentaryOutcome, sqrt: real -> real, id: string): (a: Analysis)
    ensures data.Malformed? ==> a == Analysis(ErrorResult(InvalidInputError, GetWinners(store)), store)
    ensures data.Payload? ==> Consistent(store, data.imageData, id, a)
  {
    match data
    case Malformed => Analysis(ErrorResult(InvalidInputError, GetWinners(store)), store)
    case Payload(imageData) =>
      match getSnackDimensions(imageData)
      case ClassifierThrew(e) => Analysis(ErrorResult(CaughtMessage(e), GetWinners(store)), store)
      case Classified(d) => AnalyzeClassified(store, imageData, d, getSnackCommentary, sqrt, id)
  }

  /** The stored areas stay positive. */
  lemma AnalyzeKeepsAreasPositive(store: seq<Snack>, data: Payload, getSnackDimensions: string -> ClassifierOutcome,
                                  getSnackCommentary: SnackCommentaryInput -> CommentaryOutcome, sqrt: real -> real, id: string)
    requires AllPositive(store)
    ensures AllPositive(Analyze(store, data, getSnackDimensions, getSnackCommentary, sqrt, id).store)
  {
  }

  /** The geometry errors: sides that are not a triangle give the triangle
      message and nothing is stored; missing dimensions of a known type give
      the missing-dimensions message; once an area is measured (which, with
      a positive square root, is positive) the only error left is the one
      caught from the commentator. */
  lemma GeometryErrors(store: seq<Snack>, imageData: string, d: SnackDimensionsOutput,
                       getSnackDimensions: string -> ClassifierOutcome,
                       getSnackCommentary: SnackCommentaryInput -> CommentaryOutcome, sqrt: real -> real, id: string)
    requires getSnackDimensions(imageData) == Classified(d)
    requires !Truthy(d.error) && d.snackType != Unknown
    ensures var a := Analyze(store, Payload(imageData), getSnackDimensions, getSnackCommentary, sqrt, id);
      && (Measure(d, sqrt).InvalidTriangle? ==> a.result == EchoResult(d, InvalidTriangleError, GetWinners(store)) && a.store == store)
      && (Measure(d, sqrt).NotMeasured? ==> a.result == EchoResult(d, MissingDimensionsError, GetWinners(store)) && a.store == store)
      && (PositiveOnPositive(sqrt) && Measure(d, sqrt).Measured? && a.result.dimensions.error.Some? ==>
            CatchPrefix <= a.result.dimensions.error.value)
  {
    if PositiveOnPositive(sqrt) && Measure(d, sqrt).Measured? {
      assert Measure(d, sqrt).area > 0.0;
    }
  }

  /** A classifier that throws, or a commentator that throws after a
      successful measurement, ends in the caught message and stores nothing. */
  lemma CaughtExceptions(store: seq<Snack>, imageData: string,
                         getSnackDimensions: string -> ClassifierOutcome,
                         getSnackCommentary: SnackCommentaryInput -> CommentaryOutcome, sqrt: real -> real, id: string)
    ensures var a := Analyze(store, Payload(imageData), getSnackDimensions, getSnackCommentary, sqrt, id);
      getSnackDimensions(imageData).ClassifierThrew? ==>
        a.store == store &&
        a.result == ErrorResult(CaughtMessage(getSnackDimensions(imageData).exception), GetWinners(store))
    ensures var a := Analyze(store, Payload(imageData), getSnackDimensions, getSnackCommentary, sqrt, id);
      forall d, area, e ::
        && getSnackDimensions(imageData) == Classified(d)
        && !Truthy(d.error) && d.snackType != Unknown
        && Measure(d, sqrt) == Measured(area) && area > 0.0
        && getSnackCommentary(CommentaryRequest(store, d.snackType, area)) == CommentaryThrew(e) ==>
          a.store == store && a.result == ErrorResult(CaughtMessage(e), GetWinners(store))
  {
  }

  /** A classifier answer with an error, or of unknown type, ends in that
      error (or the not-a-snack message when it is empty), with nothing
      stored. */
  lemma ClassifierErrors(store: seq<Snack>, imageData: string, d: SnackDimensionsOutput,
                         getSnackDimensions: string -> ClassifierOutcome,
                         getSnackCommentary: SnackCommentaryInput -> CommentaryOutcome, sqrt: real -> real, id: string)
    requires getSnackDimensions(imageData) == Classified(d)
    requires Truthy(d.error) || d.snackType == Unknown
    ensures var a := Analyze(store, Payload(imageData), getSnackDimensions, getSnackCommentary, sqrt, id);
      a.store == store && a.result == ErrorResult(OrElse(d.error, NotASnackError), GetWinners(store))
  {
  }

  /** A success echoes the classifier's record with the error cleared, the
      area it measured, and the comment the commentator gave for the
      request built from the store before. */
  lemma SuccessEchoes(store: seq<Snack>, imageData: string, d: SnackDimensionsOutput,
                      getSnackCommentary: SnackCommentaryInput -> CommentaryOutcome, sqrt: real -> real, id: string)
    ensures var a := AnalyzeClassified(store, imageData, d, getSnackCommentary, sqrt, id);
      a.result.latestSnack.Some? ==>
        && a.result.dimensions == d.(error := None)
        && Measure(d, sqrt) == Measured(a.result.area.value)
        && getSnackCommentary(CommentaryRequest(store, d.snackType, a.result.area.value)) == Commented(a.result.commentary.value)
  {
  }

  /** Two end-to-end runs: a first parippuvada of
      diameter 10 is a new record and becomes the winner; a second one of
      diameter 8 is smaller, no record, and the winner stays. */
  lemma ParippuvadaScenario(getSnackDimensions: string -> ClassifierOutcome,
                            getSnackCommentary: SnackCommentaryInput -> CommentaryOutcome, sqrt: real -> real)
    requires getSnackDimensions("first") == Classified(SnackDimensionsOutput(Parippuvada, Some(10.0), None, None, None, None, None, None, None))
    requires getSnackDimensions("second") == Classified(SnackDimensionsOutput(Parippuvada, Some(8.0), None, None, None, None, None, None, None))
    requires forall c :: getSnackCommentary(c).Commented?
    ensures var a1 := Analyze([], Payload("first"), getSnackDimensions, getSnackCommentary, sqrt, "t1");
      && a1.result.isNewRecord
      && a1.result.area == Some(CircleArea(10.0))
      && a1.result.winners.parippuvadaWinner == a1.result.latestSnack
      && var a2 := Analyze(a1.store, Payload("second"), getSnackDimensions, getSnackCommentary, sqrt, "t2");
         && !a2.result.isNewRecord
         && a2.result.area == Some(CircleArea(8.0))
         && a2.result.winners.parippuvadaWinner == a1.result.latestSnack
         && |a2.store| == 2
  {
    var a1 := Analyze([], Payload("first"), getSnackDimensions, getSnackCommentary, sqrt, "t1");
    var s1 := a1.result.latestSnack.value;
    WinnersAfterAppend([], s1);
    var a2 := Analyze(a1.store, Payload("second"), getSnackDimensions, getSnackCommentary, sqrt, "t2");
    var s2 := a2.result.latestSnack.value;
    assert CircleArea(8.0) < CircleArea(10.0);
    WinnersAfterAppend(a1.store, s2);
  }

  /** A classifier whose output went through the dimension flow never
      yields the missing-dimensions error: the flow only lets through a
      type together with positive dimensions. */
  lemma CleanedClassifierOutputIsMeasurable(d: SnackDimensionsOutput, p: PromptOutcome, sqrt: real -> real)
    requires d == DimensionsFlow(p)
    requires !Truthy(d.error) && d.snackType != Unknown
    ensures !Measure(d, sqrt).NotMeasured?
  {
  }

  /** The area computation of the action: `area` starts null and is set by
      the branch of the detected type; a samoosa whose sides fail the
      triangle test leaves at once. */
  method ComputeArea(d: SnackDimensionsOutput, sqrt: real -> real) returns (m: Measurement)
    ensures m == Measure(d, sqrt)
  {
    var area: Option<real> := None;
    if d.snackType == Parippuvada && Positive(d.diameter) {
      area := Some(CircleArea(d.diameter.value));
    } else if d.snackType == Vazhaikkapam && Positive(d.length) && Positive(d.width) {
      area := Some(EllipseArea(d.length.value, d.width.value));
    } else if d.snackType == Samoosa && NonZero(d.sideA) && NonZero(d.sideB) && NonZero(d.sideC) {
      var sideA, sideB, sideC := d.sideA.value, d.sideB.value, d.sideC.value;
      if IsTriangle(sideA, sideB, sideC) {
        area := Some(HeronArea(sideA, sideB, sideC, sqrt));
      } else {
        return InvalidTriangle;
      }
    }
    m := if area.Some? then Measured(area.value) else NotMeasured;
  }

  /** Storing a snack of positive area keeps every stored area positive. */
  lemma AppendKeepsPositive(store: seq<Snack>, s: Snack)
    requires AllPositive(store) && s.area > 0.0
    ensures AllPositive(store + [s])
  {
    assert forall i :: 0 <= i < |store| ==> (store + [s])[i] == store[i];
  }

  // ----- the session -----

  /** The module-level `sessionSnacks` array and the action over it. */
  class SnackSession {
    var sessionSnacks: seq<Snack>

    ghost predicate Valid()
      reads this
    {
      AllPositive(sessionSnacks)
    }

    constructor ()
      ensures Valid() && sessionSnacks == []
    {
      sessionSnacks := [];
    }

    /** `analyzeAndCompareSnack`, one step at a time. */
    method AnalyzeAndCompareSnack(data: Payload, getSnackDimensions: string -> ClassifierOutcome,
                                  getSnackCommentary: SnackCommentaryInput -> CommentaryOutcome,
                                  sqrt: real -> real, id: string) returns (r: SnackAnalysisResult)
      requires Valid()
      modifies this
      ensures Valid()
      ensures var a := Analyze(old(sessionSnacks), data, getSnackDimensions, getSnackCommentary, sqrt, id);
        r == a.result && sessionSnacks == a.store
    {
      var errorResult := ErrorResult(InvalidInputError, GetWinners(sessionSnacks));
      if data.Malformed? {
        return errorResult;
      }
      var dimensionsResult: SnackDimensionsOutput;
      match getSnackDimensions(data.imageData) {
        case ClassifierThrew(e) =>
          return ErrorResult(CaughtMessage(e), GetWinners(sessionSnacks));
        case Classified(d) =>
          dimensionsResult := d;
      }
      ghost var expected := AnalyzeClassified(sessionSnacks, data.imageData, dimensionsResult, getSnackCommentary, sqrt, id);
      assert Analyze(sessionSnacks, data, getSnackDimensions, getSnackCommentary, sqrt, id) == expected;
      if Truthy(dimensionsResult.error) || dimensionsResult.snackType == Unknown {
        return ErrorResult(OrElse(dimensionsResult.error, NotASnackError), GetWinners(sessionSnacks));
      }

      var measurement := ComputeArea(dimensionsResult, sqrt);
      if measurement.InvalidTriangle? {
        return EchoResult(dimensionsResult, InvalidTriangleError, GetWinners(sessionSnacks));
      }
      var area: Option<real> := if measurement.Measured? then Some(measurement.area) else None;
      if area.None? || area.value <= 0.0 {
        return EchoResult(dimensionsResult, MissingDimensionsError, GetWinners(sessionSnacks));
      }
      assert expected == AnalyzeMeasured(sessionSnacks, data.imageData, dimensionsResult, area.value, getSnackCommentary, id);

      var largestSnackBefore := LargestSnack(sessionSnacks, dimensionsResult.snackType);
      var isNewRecord := largestSnackBefore.None? || area.value > largestSnackBefore.value.area;
      var commentaryInput := SnackCommentaryInput(dimensionsResult.snackType, area.value,
                                                  if largestSnackBefore.Some? then largestSnackBefore.value.area else 0.0);
      assert commentaryInput == CommentaryRequest(sessionSnacks, dimensionsResult.snackType, area.value);
      var comment: string;
      match getSnackCommentary(commentaryInput) {
        case CommentaryThrew(e) =>
          return ErrorResult(CaughtMessage(e), GetWinners(sessionSnacks));
        case Commented(c) =>
          comment := c;
      }

      var newSnack := Snack(id, dimensionsResult.snackType, area.value, data.imageData);
      AppendKeepsPositive(sessionSnacks, newSnack);
      sessionSnacks := sessionSnacks + [newSnack];
      r := SnackAnalysisResult(dimensionsResult.(error := None), area, Some(comment), isNewRecord, Some(newSnack),
                               GetWinners(sessionSnacks));
    }
  }
}
