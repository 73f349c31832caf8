/**
 The values a request body can carry once express.json has parsed it, plus
 `undefined` for a key that is absent, with the two JavaScript conversions
 the application applies to them: truthiness (`!x`, `x || y`) and ToString
 (what parseInt does first to its argument).
 */
module JsValues {
  import opened JsText
  import opened JsNumbers

  datatype Option<T> = None | Some(value: T)

  datatype Value =
    | Undefined
    | Null
    | Bool(b: bool)
    | Num(n: JsNumber)
    | Str(s: string)
    | Arr(items: seq<Value>)
    | Obj(fields: map<string, Value>)

  /** ToBoolean (section 7.1.2 of ECMA-262): false, 0, NaN, the empty
      string, null and undefined are falsy; every array and object is truthy. */
  predicate Truthy(v: Value) {
    match v
    case Undefined => false
    case Null => false
    case Bool(b) => b
    case Num(n) => n.Finite? && n.value != 0
    case Str(s) => s != []
    case Arr(_) => true
    case Obj(_) => true
  }

  /** `a || b`: the first operand when it is truthy, else the second. */
  function Or(a: Value, b: Value): (r: Value)
    ensures Truthy(a) ==> r == a
    ensures !Truthy(a) ==> r == b
    ensures Truthy(r) <==> Truthy(a) || Truthy(b)
  {
    if Truthy(a) then a else b
  }

  /** Property read on a parsed JSON object: an absent key reads as undefined. */
  function Field(o: map<string, Value>, key: string): (v: Value)
    ensures key in o ==> v == o[key]
    ensures key !in o ==> v == Undefined
  {
    if key in o then o[key] else Undefined
  }

  /** ToString (section 7.1.17 of ECMA-262). An array joins its elements with
      commas, writing null and undefined elements as empty strings; a plain
      object becomes "[object Object]". */
  function ToString(v: Value): string
  {
    match v
    case Undefined => "undefined"
    case Null => "null"
    case Bool(b) => if b then "true" else "false"
    case Num(n) => (match n case NaN => "NaN" case Finite(i) => IntToDecimal(i))
    case Str(s) => s
    case Arr(items) =>
      Join(seq(|items|, k requires 0 <= k < |items| =>
             if items[k].Undefined? || items[k].Null? then [] else ToString(items[k])), ',')
    case Obj(_) => "[object Object]"
  }

  /** parseInt of a number gives the number back, and so does parseInt of
      its decimal text or of a one-element array holding it. */
  lemma ParseIntOfNumber(i: int)
    ensures ParseInt(ToString(Num(Finite(i)))) == Finite(i)
    ensures ParseInt(ToString(Str(IntToDecimal(i)))) == Finite(i)
    ensures ParseInt(ToString(Arr([Num(Finite(i))]))) == Finite(i)
  {
    ParseIntOfDecimal(i);
    var items := [Num(Finite(i))];
    assert seq(|items|, k requires 0 <= k < |items| =>
             if items[k].Undefined? || items[k].Null? then [] else ToString(items[k]))
        == [IntToDecimal(i)];
  }

  /** Booleans, plain objects and the literal names of non-numbers all
      parse as NaN. */
  lemma ParseIntOfNonNumericValues(b: bool, fields: map<string, Value>)
    ensures ParseInt(ToString(Bool(b))) == NaN
    ensures ParseInt(ToString(Obj(fields))) == NaN
    ensures ParseInt(ToString(Null)) == NaN
    ensures ParseInt(ToString(Undefined)) == NaN
    ensures ParseInt(ToString(Num(NaN))) == NaN
  {
    ParseIntOfBooleanText(b);
    ParseIntOfNameText(fields);
  }

  lemma ParseIntOfBooleanText(b: bool)
    ensures ParseInt(ToString(Bool(b))) == NaN
  {
    if b { ParseIntOfNonDigitStart("true"); } else { ParseIntOfNonDigitStart("false"); }
  }

  lemma ParseIntOfNameText(fields: map<string, Value>)
    ensures ParseInt(ToString(Obj(fields))) == NaN
    ensures ParseInt(ToString(Null)) == NaN
    ensures ParseInt(ToString(Undefined)) == NaN
    ensures ParseInt(ToString(Num(NaN))) == NaN
  {
    assert ParseInt(ToString(Obj(fields))) == NaN by { ParseIntOfNonDigitStart("[object Object]"); }
    assert ParseInt(ToString(Null)) == NaN by { ParseIntOfNonDigitStart("null"); }
    assert ParseInt(ToString(Undefined)) == NaN by { ParseIntOfNonDigitStart("undefined"); }
    assert ParseInt(ToString(Num(NaN))) == NaN by { ParseIntOfNonDigitStart("NaN"); }
  }
}
