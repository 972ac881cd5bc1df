/** Vocabulary shared by every part of the snack measurer: the snack types the
    classifier reports, nullable values, the truthiness tests the program
    applies to them, thrown values, and the three area formulas. */
module Snacks {

  datatype Option<T> = None | Some(value: T)

  /** The snack types of the classifier's output schema, including the
      sentinel for "not a snack we know". */
  datatype SnackType = Parippuvada | Vazhaikkapam | Samoosa | Unknown

  /** The type of a snack that is stored or ranked: never the sentinel. */
  type SnackKind = t: SnackType | t != Unknown witness Parippuvada

  /** The string the program uses for each snack type. */
  function TypeName(t: SnackType): (name: string)
    ensures name != ""
  {
    match t
    case Parippuvada => "parippuvada"
    case Vazhaikkapam => "vazhaikkapam"
    case Samoosa => "samoosa"
    case Unknown => "unknown"
  }

  /** What a `catch` clause may receive: an `Error` object with its message,
      or any other thrown value. */
  datatype Thrown = ErrorObject(message: string) | OtherValue

  /** A nullable string used as a condition: null and the empty string are falsy. */
  predicate Truthy(s: Option<string>)
  {
    s.Some? && s.value != ""
  }

  /** A nullable number used as a condition: null and zero are falsy. */
  predicate NonZero(x: Option<real>)
  {
    x.Some? && x.value != 0.0
  }

  /** The guard `x && x > 0`: present and strictly positive. */
  predicate Positive(x: Option<real>)
  {
    x.Some? && x.value > 0.0
  }

  /** The literal closest to pi that `Math.PI` prints as: the shortest decimal
      that reads back as that double, not the double's exact value. */
  const PI: real := 3.141592653589793

  /** A stand-in for `Math.sqrt` is only assumed to be positive on positive input. */
  ghost predicate PositiveOnPositive(sqrt: real -> real)
  {
    forall x :: x > 0.0 ==> sqrt(x) > 0.0
  }

  /** Area of an ellipse whose axes are `length` and `width`: pi times the
      two semi-axes. */
  function EllipseArea(length: real, width: real): (area: real)
    ensures length > 0.0 && width > 0.0 ==> area > 0.0
  {
    PI * (length / 2.0) * (width / 2.0)
  }

  /** Area of a circle of diameter `d`, pi times the radius squared: the
      ellipse whose two axes are both `d`. */
  function CircleArea(d: real): (area: real)
    ensures d > 0.0 ==> area > 0.0
  {
    EllipseArea(d, d)
  }

  function SemiPerimeter(a: real, b: real, c: real): real
  {
    (a + b + c) / 2.0
  }

  /** The validity test applied before Heron's formula: the semi-perimeter
      exceeds every side, which is the strict triangle inequality on all
      three pairings and forces every side to be positive. */
  predicate IsTriangle(a: real, b: real, c: real)
    ensures IsTriangle(a, b, c) <==> a + b > c && a + c > b && b + c > a
    ensures IsTriangle(a, b, c) ==> a > 0.0 && b > 0.0 && c > 0.0
  {
    var s := SemiPerimeter(a, b, c);
    s > a && s > b && s > c
  }

  /** The quantity under the square root in Heron's formula. */
  function HeronRadicand(a: real, b: real, c: real): (r: real)
    ensures IsTriangle(a, b, c) ==> r > 0.0
  {
    var s := SemiPerimeter(a, b, c);
    assert IsTriangle(a, b, c) ==> s > 0.0 && s - a > 0.0 && s - b > 0.0 && s - c > 0.0;
    s * (s - a) * (s - b) * (s - c)
  }

  /** Heron's formula, with `sqrt` standing for `Math.sqrt`. */
  function HeronArea(a: real, b: real, c: real, sqrt: real -> real): (area: real)
    ensures PositiveOnPositive(sqrt) && IsTriangle(a, b, c) ==> area > 0.0
  {
    sqrt(HeronRadicand(a, b, c))
  }
}
