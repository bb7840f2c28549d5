/**
 * The generic input validators. An untyped JavaScript input is a `JsValue`;
 * HTML escaping and JavaScript's `Number(...)` conversion and number
 * formatting are passed in as functions.
 */
module Validation {
  import opened Wrappers
  import opened Text
  import Security

  datatype JsNumber = NaN | Finite(value: real) | Infinite(positive: bool)

  datatype JsValue = Undefined | Null | Str(s: string) | Num(n: JsNumber) | Arr(items: seq<JsValue>) | Other

  /** What every validator returns: a verdict, the cleaned value and, on failure, a message. */
  datatype Checked<T> = Checked(isValid: bool, value: T, error: Option<string>)

  /** A numeric option is used only when it is truthy: present and not 0. */
  predicate Active(bound: Option<int>) {
    bound.Some? && bound.value != 0
  }

  // ---------------------------------------------------------------------
  // Strings

  datatype StringOptions = StringOptions(
    minLength: Option<int>,
    maxLength: Option<int>,
    required: bool,
    pattern: Option<string -> bool>,
    allowHtml: bool)

  const NoStringOptions := StringOptions(None, None, false, None, false)

  const RequiredMessage := "This field is required"

  predicate RequiredFails(o: StringOptions, s: string) { o.required && |Trim(s)| == 0 }
  predicate MinFails(o: StringOptions, s: string) { Active(o.minLength) && Utf16Length(s) < o.minLength.value }
  predicate MaxFails(o: StringOptions, s: string) { Active(o.maxLength) && Utf16Length(s) > o.maxLength.value }
  predicate PatternFails(o: StringOptions, s: string) { o.pattern.Some? && !o.pattern.value(s) }

  /** `validateString(input, options)` with `sanitize` for `sanitizeInput`. */
  function ValidateString(input: JsValue, o: StringOptions, sanitize: string -> string): (r: Checked<string>)
    ensures !input.Str? ==> r == Checked(false, "", Some("Input must be a string"))
    ensures r.isValid <==> input.Str? && !RequiredFails(o, input.s) && !MinFails(o, input.s) &&
                           !MaxFails(o, input.s) && !PatternFails(o, input.s)
    ensures !r.isValid ==> r.value == "" && r.error.Some?
    ensures r.isValid ==> r.error == None && r.value == if o.allowHtml then input.s else sanitize(input.s)
    ensures input.Str? && RequiredFails(o, input.s) ==> r.error == Some(RequiredMessage)
    ensures input.Str? && !RequiredFails(o, input.s) && MinFails(o, input.s) ==>
            r.error == Some("Minimum length is " + IntToString(o.minLength.value) + " characters")
    ensures input.Str? && !RequiredFails(o, input.s) && !MinFails(o, input.s) && MaxFails(o, input.s) ==>
            r.error == Some("Maximum length is " + IntToString(o.maxLength.value) + " characters")
    ensures (input.Str? && !RequiredFails(o, input.s) && !MinFails(o, input.s) && !MaxFails(o, input.s) &&
             PatternFails(o, input.s)) ==> r.error == Some("Invalid format")
  {
    if !input.Str? then Checked(false, "", Some("Input must be a string"))
    else
      var s := input.s;
      if RequiredFails(o, s) then Checked(false, "", Some(RequiredMessage))
      else if MinFails(o, s) then Checked(false, "", Some("Minimum length is " + IntToString(o.minLength.value) + " characters"))
      else if MaxFails(o, s) then Checked(false, "", Some("Maximum length is " + IntToString(o.maxLength.value) + " characters"))
      else if PatternFails(o, s) then Checked(false, "", Some("Invalid format"))
      else Checked(true, if o.allowHtml then s else sanitize(s), None)
  }

  /** A length bound of 0 behaves exactly like no bound at all. */
  lemma ZeroLengthBoundIsNoBound(input: JsValue, o: StringOptions, sanitize: string -> string)
    ensures ValidateString(input, o.(minLength := Some(0)), sanitize) == ValidateString(input, o.(minLength := None), sanitize)
    ensures ValidateString(input, o.(maxLength := Some(0)), sanitize) == ValidateString(input, o.(maxLength := None), sanitize)
  {
  }

  /** Whitespace-only text passes a length minimum (raw length) but fails `required` (trimmed length). */
  lemma RequiredUsesTrimmedLength(o: StringOptions, sanitize: string -> string)
    requires o.required
    ensures !ValidateString(Str(" "), o, sanitize).isValid
    ensures ValidateString(Str(" "), o, sanitize).error == Some(RequiredMessage)
  {
    assert IsJsWhitespace(' ');
    assert |Trim(" ")| == 0 by {
      assert TrimStart(" ") == [];
    }
  }

  // ---------------------------------------------------------------------
  // Numbers

  datatype NumberOptions = NumberOptions(min: Option<real>, max: Option<real>, required: bool, integer: bool)

  predicate IsInteger(n: JsNumber) {
    n.Finite? && n.value.Floor as real == n.value
  }

  predicate LessThan(n: JsNumber, bound: real) {
    match n
    case NaN => false
    case Finite(x) => x < bound
    case Infinite(positive) => !positive
  }

  predicate GreaterThan(n: JsNumber, bound: real) {
    match n
    case NaN => false
    case Finite(x) => x > bound
    case Infinite(positive) => positive
  }

  predicate IsBlank(input: JsValue) {
    input == Null || input == Undefined || input == Str("")
  }

  /**
   * `validateNumber(input, options)`. `toNumber` is JavaScript's `Number(...)`
   * for inputs that are not already numbers; `show` formats a bound.
   */
  function ValidateNumber(input: JsValue, o: NumberOptions, toNumber: JsValue -> JsNumber, show: real -> string)
    : (r: Checked<JsNumber>)
    ensures IsBlank(input) ==> r == if o.required then Checked(false, Finite(0.0), Some(RequiredMessage)) else Checked(true, Finite(0.0), None)
    ensures !r.isValid ==> r.value == Finite(0.0) && r.error.Some?
    ensures !IsBlank(input) ==>
      var n := if input.Num? then input.n else toNumber(input);
      (r.isValid <==> !n.NaN? && !(o.integer && !IsInteger(n)) &&
                      !(o.min.Some? && LessThan(n, o.min.value)) && !(o.max.Some? && GreaterThan(n, o.max.value))) &&
      (r.isValid ==> r.value == n && r.error == None) &&
      (n.NaN? ==> r.error == Some("Must be a valid number")) &&
      (!n.NaN? && o.integer && !IsInteger(n) ==> r.error == Some("Must be an integer")) &&
      (!n.NaN? && !(o.integer && !IsInteger(n)) && o.min.Some? && LessThan(n, o.min.value) ==>
         r.error == Some("Must be at least " + show(o.min.value))) &&
      ((!n.NaN? && !(o.integer && !IsInteger(n)) && !(o.min.Some? && LessThan(n, o.min.value)) &&
        o.max.Some? && GreaterThan(n, o.max.value)) ==> r.error == Some("Must be at most " + show(o.max.value)))
  {
    if IsBlank(input) then
      if o.required then Checked(false, Finite(0.0), Some(RequiredMessage)) else Checked(true, Finite(0.0), None)
    else
      var n := if input.Num? then input.n else toNumber(input);
      if n.NaN? then Checked(false, Finite(0.0), Some("Must be a valid number"))
      else if o.integer && !IsInteger(n) then Checked(false, Finite(0.0), Some("Must be an integer"))
      else if o.min.Some? && LessThan(n, o.min.value) then Checked(false, Finite(0.0), Some("Must be at least " + show(o.min.value)))
      else if o.max.Some? && GreaterThan(n, o.max.value) then Checked(false, Finite(0.0), Some("Must be at most " + show(o.max.value)))
      else Checked(true, n, None)
  }

  /** The bounds are inclusive: a finite number equal to either bound is accepted. */
  lemma NumberBoundsInclusive(x: real, toNumber: JsValue -> JsNumber, show: real -> string)
    ensures ValidateNumber(Num(Finite(x)), NumberOptions(Some(x), Some(x), true, false), toNumber, show).isValid
  {
  }

  // ---------------------------------------------------------------------
  // E-mail

  /** `validateEmailInput`: the shape test is on the raw input, the value is lower-cased, trimmed and escaped. */
  function ValidateEmailInput(input: JsValue, sanitize: string -> string): (r: Checked<string>)
    ensures !input.Str? ==> r == Checked(false, "", Some("Email must be a string"))
    ensures input.Str? ==> (r.isValid <==> Security.EmailShape(input.s))
    ensures input.Str? && !r.isValid ==> r == Checked(false, "", Some("Invalid email format"))
    ensures r.isValid ==> r.value == sanitize(Trim(ToLower(input.s))) && r.error == None
  {
    if !input.Str? then Checked(false, "", Some("Email must be a string"))
    else if !Security.ValidateEmail(input.s) then Checked(false, "", Some("Invalid email format"))
    else Checked(true, sanitize(Trim(ToLower(input.s))), None)
  }

  // ---------------------------------------------------------------------
  // Arrays

  datatype ArrayOptions = ArrayOptions(
    minLength: Option<int>,
    maxLength: Option<int>,
    required: bool,
    itemValidator: Option<JsValue -> Checked<JsValue>>)

  /** The index of the first item the validator refuses, if any. */
  function FirstInvalid(items: seq<JsValue>, v: JsValue -> Checked<JsValue>): (r: Option<nat>)
    ensures r.Some? ==> r.value < |items| && !v(items[r.value]).isValid
    ensures r.Some? ==> forall j | 0 <= j < r.value :: v(items[j]).isValid
    ensures r.None? ==> forall j | 0 <= j < |items| :: v(items[j]).isValid
  {
    if items == [] then None
    else if !v(items[0]).isValid then Some(0)
    else match FirstInvalid(items[1..], v)
      case None => None
      case Some(k) => Some(k + 1)
  }

  /** The validated value of each item, in input order. */
  function MapValues(items: seq<JsValue>, v: JsValue -> Checked<JsValue>): (r: seq<JsValue>)
    ensures |r| == |items|
    ensures forall j | 0 <= j < |items| :: r[j] == v(items[j]).value
  {
    if items == [] then [] else [v(items[0]).value] + MapValues(items[1..], v)
  }

  predicate TooFewItems(o: ArrayOptions, items: seq<JsValue>) { Active(o.minLength) && |items| < o.minLength.value }
  predicate TooManyItems(o: ArrayOptions, items: seq<JsValue>) { Active(o.maxLength) && |items| > o.maxLength.value }

  /** What `validateArray` promises, stated without its loop. */
  function ArrayVerdict(input: JsValue, o: ArrayOptions): (r: Checked<seq<JsValue>>)
    ensures !input.Arr? ==> r == if o.required then Checked(false, [], Some("Must be an array")) else Checked(true, [], None)
    ensures !r.isValid ==> r.value == []
    ensures input.Arr? && TooFewItems(o, input.items) ==>
            r == Checked(false, [], Some("Must have at least " + IntToString(o.minLength.value) + " items"))
    ensures input.Arr? && !TooFewItems(o, input.items) && TooManyItems(o, input.items) ==>
            r == Checked(false, [], Some("Must have at most " + IntToString(o.maxLength.value) + " items"))
    ensures input.Arr? && !TooFewItems(o, input.items) && !TooManyItems(o, input.items) && o.itemValidator.None? ==>
            r == Checked(true, input.items, None)
  {
    if !input.Arr? then
      if o.required then Checked(false, [], Some("Must be an array")) else Checked(true, [], None)
    else
      var items := input.items;
      if TooFewItems(o, items) then
        Checked(false, [], Some("Must have at least " + IntToString(o.minLength.value) + " items"))
      else if TooManyItems(o, items) then
        Checked(false, [], Some("Must have at most " + IntToString(o.maxLength.value) + " items"))
      else match o.itemValidator
        case None => Checked(true, items, None)
        case Some(v) =>
          match FirstInvalid(items, v)
          case Some(k) => Checked(false, [], v(items[k]).error)
          case None => Checked(true, MapValues(items, v), None)
  }

  /** `validateArray(input, options)`: the item loop stops at the first refused item. */
  method ValidateArray(input: JsValue, o: ArrayOptions) returns (r: Checked<seq<JsValue>>)
    ensures r == ArrayVerdict(input, o)
  {
    if !input.Arr? {
      if o.required {
        return Checked(false, [], Some("Must be an array"));
      }
      return Checked(true, [], None);
    }
    var items := input.items;
    if TooFewItems(o, items) {
      return Checked(false, [], Some("Must have at least " + IntToString(o.minLength.value) + " items"));
    }
    if TooManyItems(o, items) {
      return Checked(false, [], Some("Must have at most " + IntToString(o.maxLength.value) + " items"));
    }
    if o.itemValidator.None? {
      return Checked(true, items, None);
    }
    var v := o.itemValidator.value;
    var validated: seq<JsValue> := [];
    for i := 0 to |items|
      invariant validated == MapValues(items[..i], v)
      invariant forall j | 0 <= j < i :: v(items[j]).isValid
    {
      var result := v(items[i]);
      if !result.isValid {
        assert FirstInvalid(items, v) == Some(i);
        return Checked(false, [], result.error);
      }
      validated := validated + [result.value];
      assert items[..i + 1] == items[..i] + [items[i]];
      MapValuesAppend(items[..i], items[i], v);
    }
    assert items[..|items|] == items;
    r := Checked(true, validated, None);
  }

  lemma {:induction false} MapValuesAppend(items: seq<JsValue>, x: JsValue, v: JsValue -> Checked<JsValue>)
    ensures MapValues(items + [x], v) == MapValues(items, v) + [v(x).value]
  {
    if items != [] {
      assert (items + [x])[1..] == items[1..] + [x];
      MapValuesAppend(items[1..], x, v);
    }
  }

  /**
   * With an item validator, a valid result holds one validated value per
   * input item, in order; an invalid one carries the first refused item's
   * message.
   */
  lemma ArrayItemsValidated(items: seq<JsValue>, o: ArrayOptions)
    requires o.itemValidator.Some?
    requires !TooFewItems(o, items) && !TooManyItems(o, items)
    ensures var r := ArrayVerdict(Arr(items), o);
            var v := o.itemValidator.value;
            (r.isValid <==> forall j | 0 <= j < |items| :: v(items[j]).isValid) &&
            (r.isValid ==> |r.value| == |items| && forall j | 0 <= j < |items| :: r.value[j] == v(items[j]).value) &&
            (!r.isValid ==> exists k | 0 <= k < |items| :: !v(items[k]).isValid && r.error == v(items[k]).error &&
                                      forall j | 0 <= j < k :: v(items[j]).isValid)
  {
    var v := o.itemValidator.value;
    match FirstInvalid(items, v)
    case Some(k) =>
    case None =>
  }
}
