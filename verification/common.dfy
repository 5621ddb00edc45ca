/** Values shared by the services: optional values and results, decimal digit
    strings as JavaScript's parseInt and String(n) read and write them, string
    prefixes and suffixes, the first-match search of Array.prototype.find, and
    the record an item's metadata.json decodes to. */
module Common {

  datatype Option<T> = None | Some(value: T)

  datatype Result<T, E> = Ok(value: T) | Err(error: E)

  /** A JavaScript string value used in a condition: absent and "" are falsy. */
  predicate Truthy(s: Option<string>) {
    s.Some? && s.value != ""
  }

  predicate StartsWith(s: string, prefix: string) {
    |prefix| <= |s| && s[..|prefix|] == prefix
  }

  predicate EndsWith(s: string, suffix: string) {
    |suffix| <= |s| && s[|s| - |suffix|..] == suffix
  }

  predicate Distinct<T(==)>(s: seq<T>) {
    forall i, j :: 0 <= i < j < |s| ==> s[i] != s[j]
  }

  predicate IsDigit(c: char) {
    '0' <= c <= '9'
  }

  predicate AllDigits(s: string) {
    forall i :: 0 <= i < |s| ==> IsDigit(s[i])
  }

  function DigitValue(c: char): (d: nat)
    requires IsDigit(c)
    ensures d < 10
  {
    c as int - '0' as int
  }

  function DigitChar(d: nat): (c: char)
    requires d < 10
    ensures IsDigit(c) && DigitValue(c) == d
  {
    (d + '0' as int) as char
  }

  /** The number a run of decimal digits denotes, most significant digit first. */
  function DecimalValue(s: string): nat
    requires AllDigits(s)
  {
    if s == [] then 0 else 10 * DecimalValue(s[..|s| - 1]) + DigitValue(s[|s| - 1])
  }

  /** The decimal notation of n that String(n) produces. */
  function DecimalString(n: nat): (s: string)
    ensures 1 <= |s| && AllDigits(s)
  {
    if n < 10 then [DigitChar(n)] else DecimalString(n / 10) + [DigitChar(n % 10)]
  }

  /** Reading back the notation String(n) writes gives n again. */
  lemma {:induction false} DecimalRoundTrip(n: nat)
    ensures DecimalValue(DecimalString(n)) == n
  {
    if n >= 10 {
      DecimalRoundTrip(n / 10);
      var s := DecimalString(n);
      assert s[..|s| - 1] == DecimalString(n / 10);
    }
  }

  /** The index Array.prototype.find stops at: the first name satisfying p. */
  function FindFirst(names: seq<string>, p: string -> bool): (r: Option<nat>)
    ensures r.Some? ==> r.value < |names| && p(names[r.value])
    ensures r.Some? ==> forall j :: 0 <= j < r.value ==> !p(names[j])
    ensures r.None? ==> forall j :: 0 <= j < |names| ==> !p(names[j])
  {
    if names == [] then None
    else if p(names[0]) then Some(0)
    else
      match FindFirst(names[1..], p)
      case None => None
      case Some(i) => Some(i + 1)
  }

  /** The decoded content of an item's metadata.json. The optional fields are
      those the services read with a fallback; thumbnailPath is also set by
      the upload pipeline when the item holds an image. */
  datatype Metadata = Metadata(
    title: string,
    description: string,
    tags: Option<seq<string>>,
    privacyStatus: Option<string>,
    thumbnailPath: Option<string>)
}
