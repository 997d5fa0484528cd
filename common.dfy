/**
 * Values shared by every service: optional values, results carrying an HTTP
 * error, identifiers (UUIDs in their 32-character hex form) and the short
 * study code derived from them.
 */
module Common {

  datatype Option<T> = None | Some(value: T)

  /** An HTTP error response: its status code and the detail string the client sees. */
  datatype HttpError = HttpError(status: nat, detail: string)

  /** A value, or the HTTP error a handler raises instead of returning it. */
  datatype Result<T> = Ok(value: T) | Err(error: HttpError)

  /** What the web framework answers for an exception that no handler catches. */
  const InternalServerError := HttpError(500, "Internal Server Error")

  /** The 404 raised for a study that does not exist or is not the caller's. */
  const StudyNotFound := HttpError(404, "Study not found")

  predicate IsLowerHex(c: char)
  {
    '0' <= c <= '9' || 'a' <= c <= 'f'
  }

  predicate IsUuidHex(s: string)
  {
    |s| == 32 && forall i :: 0 <= i < |s| ==> IsLowerHex(s[i])
  }

  /** A UUID, as `uuid.UUID.hex` spells it: 32 lower-case hexadecimal digits. */
  type Uuid = s: string | IsUuidHex(s) witness "00000000000000000000000000000000"

  /** Submission times are opaque values that are only compared. */
  type Timestamp = nat

  /** The six-character study code of an id: `id.hex[-6:]`. */
  function Code(id: Uuid): (code: string)
    ensures |code| == 6
    ensures id[..26] + code == id
    ensures forall i :: 0 <= i < 6 ==> IsLowerHex(code[i])
  {
    id[26..]
  }

  /** `str(id)`: the canonical 8-4-4-4-12 form with hyphens. */
  function Hyphenated(id: Uuid): (h: string)
    ensures |h| == 36
    ensures h[8] == '-' && h[13] == '-' && h[18] == '-' && h[23] == '-'
    ensures forall i :: 0 <= i < 36 && i != 8 && i != 13 && i != 18 && i != 23 ==> IsLowerHex(h[i])
  {
    id[..8] + "-" + id[8..12] + "-" + id[12..16] + "-" + id[16..20] + "-" + id[20..]
  }

  /** Reads the hex form back out of a 36-character hyphenated string. */
  function Unhyphenated(h: string): string
    requires |h| == 36
  {
    h[..8] + h[9..13] + h[14..18] + h[19..23] + h[24..]
  }

  /** The hyphenated form has 36 characters, and removing its hyphens gives the id back. */
  lemma HyphenatedRoundTrip(id: Uuid)
    ensures |Hyphenated(id)| == 36
    ensures Unhyphenated(Hyphenated(id)) == id
  {
    var h := Hyphenated(id);
    assert h[..8] == id[..8];
    assert h[9..13] == id[8..12];
    assert h[14..18] == id[12..16];
    assert h[19..23] == id[16..20];
    assert h[24..] == id[20..];
    assert id == id[..8] + id[8..12] + id[12..16] + id[16..20] + id[20..];
  }

  /**
   * The last six characters of `str(id)` are the study code: the save route
   * answers with `str(id)`, and a code taken from its tail finds the id.
   */
  lemma HyphenatedEndsWithCode(id: Uuid)
    ensures |Hyphenated(id)| == 36
    ensures Hyphenated(id)[30..] == Code(id)
  {
    var h := Hyphenated(id);
    assert h[24..] == id[20..];
    assert h[30..] == h[24..][6..];
  }

  function DigitChar(d: nat): (c: char)
    requires d < 10
    ensures '0' <= c <= '9' && c as int - '0' as int == d
  {
    "0123456789"[d]
  }

  /** The number a string of decimal digits denotes, most significant digit first. */
  function DigitsValue(s: string): nat
    requires forall i :: 0 <= i < |s| ==> '0' <= s[i] <= '9'
  {
    if s == [] then 0 else DigitsValue(s[..|s| - 1]) * 10 + (s[|s| - 1] as int - '0' as int)
  }

  /** Decimal notation of a natural number, as `str` writes it: digits that denote `n`. */
  function DecimalString(n: nat): (s: string)
    ensures |s| > 0
    ensures forall i :: 0 <= i < |s| ==> '0' <= s[i] <= '9'
    ensures DigitsValue(s) == n
  {
    if n < 10 then [DigitChar(n)]
    else
      var front := DecimalString(n / 10);
      var s := front + [DigitChar(n % 10)];
      assert s[..|s| - 1] == front;
      s
  }

  /** `str(e)` of an HTTP exception: "<status>: <detail>". */
  function Describe(e: HttpError): (s: string)
    ensures |s| >= |e.detail| + 3
    ensures s[|s| - |e.detail| - 2..] == ": " + e.detail
    ensures forall i :: 0 <= i < |s| - |e.detail| - 2 ==> '0' <= s[i] <= '9'
    ensures DigitsValue(s[..|s| - |e.detail| - 2]) == e.status
  {
    var d := DecimalString(e.status);
    var s := d + ": " + e.detail;
    assert s[..|s| - |e.detail| - 2] == d;
    s
  }
}
