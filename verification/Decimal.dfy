/** `%d` printing, and the `%d` and `%lf` scanning the tokener asks of `sscanf`. */
module Decimal {
  import opened CTypes
  import opened JsonValue

  function DigitOf(c: char): nat
    requires IsDigit(c)
  {
    c as int - '0' as int
  }

  function DigitChar(d: nat): (c: char)
    requires d < 10
    ensures IsDigit(c) && DigitOf(c) == d
  {
    ('0' as int + d) as char
  }

  function PrintNat(n: nat): (s: string)
    ensures s != "" && forall c :: c in s ==> IsDigit(c)
  {
    if n < 10 then [DigitChar(n)] else PrintNat(n / 10) + [DigitChar(n % 10)]
  }

  function PrintInt(n: int): string {
    if n < 0 then "-" + PrintNat(-n) else PrintNat(n)
  }

  /** Length of the leading run of digits. */
  function DigitRun(s: string): (k: nat)
    ensures k <= |s|
    ensures forall i :: 0 <= i < k ==> IsDigit(s[i])
    ensures k < |s| ==> !IsDigit(s[k])
  {
    if s != "" && IsDigit(s[0]) then 1 + DigitRun(s[1..]) else 0
  }

  function NatValue(s: string): nat
    requires forall c :: c in s ==> IsDigit(c)
  {
    if s == "" then 0 else 10 * NatValue(s[..|s| - 1]) + DigitOf(s[|s| - 1])
  }

  function AfterSign(s: string): string {
    if s != "" && (s[0] == '+' || s[0] == '-') then s[1..] else s
  }

  const INT64_MAX: int := 0x7fff_ffff_ffff_ffff

  /** A value outside `int` is undefined in C; this is the glibc result on a 64-bit machine:
      saturate to a long, keep the low 32 bits. */
  function Truncate(n: int): (r: int32)
    ensures -0x8000_0000 <= n < 0x8000_0000 ==> r == n
  {
    var long := if n > INT64_MAX then INT64_MAX else if n < -INT64_MAX - 1 then -INT64_MAX - 1 else n;
    var low := long % 0x1_0000_0000;
    if low < 0x8000_0000 then low else low - 0x1_0000_0000
  }

  /** `sscanf(s, "%d", &n) == 1`: optional sign, then the longest run of digits; the rest is ignored. */
  function ScanInt(s: string): Option<int32> {
    var body := AfterSign(s);
    var digits := body[..DigitRun(body)];
    if digits == "" then None
    else
      var magnitude: int := NatValue(digits);
      Some(Truncate(if s[0] == '-' then -magnitude else magnitude))
  }

  /** `sscanf(s, "%lf", &d) == 1` on text made of digits, signs, '.', 'e' and 'E'. */
  predicate ScansAsDouble(s: string) {
    var body := AfterSign(s);
    var whole := DigitRun(body);
    var afterWhole := body[whole..];
    var hasPoint := afterWhole != "" && afterWhole[0] == '.';
    var fraction := if hasPoint then DigitRun(afterWhole[1..]) else 0;
    var rest := if hasPoint then afterWhole[1 + fraction..] else afterWhole;
    whole + fraction > 0 &&
    (rest != "" && (rest[0] == 'e' || rest[0] == 'E') ==> DigitRun(AfterSign(rest[1..])) > 0)
  }

  // ----- the texts of numbers

  /** `json_number_chars` */
  predicate IsNumberChar(c: char) {
    IsDigit(c) || c == '.' || c == '+' || c == '-' || c == 'e' || c == 'E'
  }

  /** The tokener takes a number for a double when it holds one of these. */
  predicate DoubleMark(s: string) {
    '.' in s || 'e' in s
  }

  /** A text that the tokener begins to read as a number, and reads to its end. */
  predicate NumberText(s: string) {
    s != "" && (IsDigit(s[0]) || s[0] == '-') && forall c :: c in s ==> IsNumberChar(c)
  }

  /** A text that is read as a double. */
  predicate DoubleText(s: string) {
    NumberText(s) && DoubleMark(s) && ScansAsDouble(s)
  }

  // ----- `%d` there and back

  lemma {:induction false} NatRoundTrip(n: nat)
    ensures NatValue(PrintNat(n)) == n
  {
    if n >= 10 {
      NatRoundTrip(n / 10);
      var s := PrintNat(n);
      assert s[..|s| - 1] == PrintNat(n / 10);
    }
  }

  lemma {:induction false} AllDigitsRun(s: string)
    requires forall c :: c in s ==> IsDigit(c)
    ensures DigitRun(s) == |s|
  {
    if s != "" {
      AllDigitsRun(s[1..]);
    }
  }

  /** Printing with `%d` and scanning with `%d` is the identity on every 32-bit integer. */
  lemma IntRoundTrip(n: int32)
    ensures ScanInt(PrintInt(n)) == Some(n)
  {
    var magnitude: nat := if n < 0 then -(n as int) else n;
    var digits := PrintNat(magnitude);
    NatRoundTrip(magnitude);
    AllDigitsRun(digits);
    assert digits[0] in digits;
    assert AfterSign(PrintInt(n)) == digits;
    assert digits[..|digits|] == digits;
  }
}
