/** The enumerations of models/enums.py, and the role enumeration used by the auth layer. */
module Enums {
  import opened Common

  datatype DisplayMethod = Sequential | Random

  datatype ResponseMethod = Binary | Gradient

  /** The value of a role; its declaration is not part of this model's sources. */
  datatype Role = Researcher | Staff | Admin

  /** The string value each display method member carries. */
  function DisplayMethodValue(m: DisplayMethod): string
  {
    match m
    case Sequential => "sequential"
    case Random => "random"
  }

  /** `DisplayMethodEnum(s)`: the member whose value is `s`, if any. */
  function ParseDisplayMethod(s: string): (r: Option<DisplayMethod>)
    ensures r.Some? ==> DisplayMethodValue(r.value) == s
  {
    if s == "sequential" then Some(Sequential)
    else if s == "random" then Some(Random)
    else None
  }

  function ResponseMethodValue(m: ResponseMethod): string
  {
    match m
    case Binary => "binary"
    case Gradient => "gradient"
  }

  function ParseResponseMethod(s: string): (r: Option<ResponseMethod>)
    ensures r.Some? ==> ResponseMethodValue(r.value) == s
  {
    if s == "binary" then Some(Binary)
    else if s == "gradient" then Some(Gradient)
    else None
  }

  /** Each member's value parses back to that member, so values are distinct. */
  lemma EnumValuesRoundTrip(d: DisplayMethod, r: ResponseMethod)
    ensures ParseDisplayMethod(DisplayMethodValue(d)) == Some(d)
    ensures ParseResponseMethod(ResponseMethodValue(r)) == Some(r)
  {
  }
}
