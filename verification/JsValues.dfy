/** The values a feature property can hold, and the JavaScript conversions the
    engine applies to them. How a number prints and how a text reads as a number
    belong to the language runtime, so both are parameters. */
module JsValues {

  datatype Option<+T> = None | Some(value: T)

  /** `Missing` is JavaScript's `undefined`. */
  datatype Value = Num(n: real) | Str(s: string) | Bool(b: bool) | Null | Missing

  /** `!!v` */
  predicate Truthy(v: Value) {
    match v
    case Num(n) => n != 0.0
    case Str(s) => s != ""
    case Bool(b) => b
    case Null => false
    case Missing => false
  }

  /** White space and line ends (sections 12.2 and 12.3 of ECMA-262). */
  predicate Space(c: char) {
    || '\t' <= c <= '\r' || '\U{2000}' <= c <= '\U{200A}'
    || c in {' ', '\U{A0}', '\U{1680}', '\U{2028}', '\U{2029}', '\U{202F}', '\U{205F}', '\U{3000}', '\U{FEFF}'}
  }

  predicate Blank(s: string) {
    forall c <- s :: Space(c)
  }

  datatype Runtime = Runtime(numberText: real -> string, textNumber: string -> Option<real>) {

    /** `v + ""` */
    function Text(v: Value): string {
      match v
      case Num(n) => numberText(n)
      case Str(s) => s
      case Bool(b) => if b then "true" else "false"
      case Null => "null"
      case Missing => "undefined"
    }

    /** `+v`, with `None` for NaN */
    function Number(v: Value): Option<real> {
      match v
      case Num(n) => Some(n)
      case Str(s) => textNumber(s)
      case Bool(b) => Some(if b then 1.0 else 0.0)
      case Null => Some(0.0)
      case Missing => None
    }

    /** A text that reads as a number and is not blank (JSUtils.isStringNumeric). */
    predicate IsStringNumeric(v: Value) {
      v.Str? && textNumber(v.s).Some? && !Blank(v.s)
    }
  }
}
