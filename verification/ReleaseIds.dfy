/** Release and attachment ids travel as decimal strings in `Version.Extra`. */
module ReleaseIds {
  import opened Types

  predicate Int64(n: int) {
    -0x8000_0000_0000_0000 <= n <= 0x7fff_ffff_ffff_ffff
  }

  function Digit(d: int): char
    requires 0 <= d < 10
  {
    "0123456789"[d]
  }

  function DigitValue(c: char): Option<int> {
    if '0' <= c <= '9' then Some(c as int - '0' as int) else None
  }

  function FormatNat(n: nat): string {
    if n < 10 then [Digit(n)] else FormatNat(n / 10) + [Digit(n % 10)]
  }

  function FormatInt(n: int): string {
    if n < 0 then "-" + FormatNat(-n) else FormatNat(n)
  }

  /** The value of a non-empty string of digits. */
  function ParseNat(s: string): Option<nat> {
    if s == "" then None
    else
      var front, last := s[..|s| - 1], DigitValue(s[|s| - 1]);
      if last == None then None
      else if front == "" then Some(last.value)
      else match ParseNat(front) case None => None case Some(n) => Some(10 * n + last.value)
  }

  /** `strconv.ParseInt(s, 10, 64)`: an optional sign, digits, and a range check. */
  function ParseInt(s: string): Option<int> {
    var negative := HasPrefix(s, "-");
    var digits := if negative || HasPrefix(s, "+") then s[1..] else s;
    match ParseNat(digits)
    case None => None
    case Some(n) => var k: int := n; var v := if negative then -k else k; if Int64(v) then Some(v) else None
  }

  /** Numbers are written in decimal: ten times a number and a digit is the number with the digit behind it. */
  lemma FormatAppend(n: int, d: int)
    requires n >= 0 && 0 <= d < 10
    ensures FormatInt(10 * n + d) == (if n == 0 then "" else FormatInt(n)) + ["0123456789"[d]]
    ensures n > 0 ==> FormatInt(-n) == "-" + FormatInt(n)
  {
  }

  /** One more digit at the end. */
  lemma ParseAppend(s: string, n: nat, d: int)
    requires ParseNat(s) == Some(n) && 0 <= d < 10
    ensures ParseNat(s + [Digit(d)]) == Some(10 * n + d)
  {
    DigitRoundTrip(d);
    assert (s + [Digit(d)])[..|s|] == s;
  }

  lemma {:induction false} ParseFormatNat(n: nat)
    ensures ParseNat(FormatNat(n)) == Some(n)
    ensures FormatNat(n) != "" && DigitValue(FormatNat(n)[0]).Some?
  {
    if n < 10 {
      DigitRoundTrip(n);
      assert [Digit(n)][..0] == "";
    } else {
      ParseFormatNat(n / 10);
      ParseAppend(FormatNat(n / 10), n / 10, n % 10);
    }
  }

  lemma DigitRoundTrip(d: int)
    requires 0 <= d < 10
    ensures DigitValue(Digit(d)) == Some(d)
  {
  }

  /** Reading a sign and digits. */
  lemma ParseSigned(digits: string, n: int)
    requires ParseNat(digits).Some? && ParseNat(digits).value == n && digits != "" && DigitValue(digits[0]).Some?
    ensures ParseInt(digits) == if Int64(n) then Some(n) else None
    ensures ParseInt("-" + digits) == if Int64(-n) then Some(-n) else None
  {
    assert ("-" + digits)[1..] == digits;
    assert digits[..1] == [digits[0]];
    assert digits[..1] != "-" && digits[..1] != "+";
  }

  /** Every 64-bit id survives formatting and parsing; nothing outside that range is ever parsed. */
  lemma IdRoundTrip(n: int)
    ensures ParseInt(FormatInt(n)) == if Int64(n) then Some(n) else None
  {
    var m: nat := if n < 0 then -n else n;
    ParseFormatNat(m);
    ParseSigned(FormatNat(m), m);
  }
}
