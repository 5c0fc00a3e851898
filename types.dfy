/** The two null-handling helpers of the client utilities that the
    dispatcher uses to reject a call on an absent owner. */
module Types {
  import opened JsValues

  /** `!obj && (obj === null || typeof obj === 'undefined')`: true for the
      two absent values and for nothing else, in particular not for the
      falsy present values 0, NaN, '' and false. */
  function IsNullOrUndefined(obj: JsValue): (r: bool)
    ensures r <==> obj == Null || obj == Undefined
  {
    !Truthy(obj) && (StrictEquals(obj, Null) || TypeOf(obj) == "undefined")
  }

  /** The word that names an absent owner in an error message. Any value
      other than null, present or not, is reported as 'undefined'; for the
      two absent values it is the value's own name, even though `typeof
      null` is 'object'. */
  function InaccessibleTypeToStr(obj: JsValue): (r: string)
    ensures obj == Null ==> r == "null"
    ensures obj != Null ==> r == "undefined"
  {
    if StrictEquals(obj, Null) then "null" else "undefined"
  }

  /** A falsy value is absent exactly when it is null or undefined: the
      `!obj` conjunct alone would also reject 0, NaN, '' and false. */
  lemma FalsyPresentValuesAreNotAbsent(obj: JsValue)
    requires !Truthy(obj)
    ensures IsNullOrUndefined(obj) <==> !(obj == Bool(false) || obj == Num(Finite(0.0)) || obj == Num(NaN) || obj == Str(""))
  {
    FalsyValues(obj);
  }
}
