/**
 * The integer payload of a sysfs scalar file: `strtoul(buf, NULL, 10)` on a
 * 64-bit `unsigned long`, truncated to the `uint32_t` the callers return.
 */
module Payload {
  import opened Sysfs

  const U32Limit: int := 0x1_0000_0000
  const ULongMax: int := 0xFFFF_FFFF_FFFF_FFFF

  type U32 = x: int | 0 <= x < U32Limit

  /** isspace() in the C locale. */
  predicate IsSpace(c: char)
  {
    c == ' ' || c == '\t' || c == '\n' || c == '\U{B}' || c == '\U{C}' || c == '\r'
  }

  predicate IsDigit(c: char)
  {
    '0' <= c <= '9'
  }

  predicate AllDigits(s: string)
  {
    forall k :: 0 <= k < |s| ==> IsDigit(s[k])
  }

  /** The leading white space strtoul skips. */
  function SkipSpace(s: string): (r: string)
    ensures |r| <= |s| && r == s[|s| - |r|..]
    ensures |r| > 0 ==> !IsSpace(r[0])
    ensures |s| > 0 && !IsSpace(s[0]) ==> r == s
  {
    if |s| > 0 && IsSpace(s[0]) then SkipSpace(s[1..]) else s
  }

  /** The longest run of decimal digits at the start of `s`. */
  function DigitRun(s: string): (r: string)
    ensures r <= s && AllDigits(r)
    ensures |r| < |s| ==> !IsDigit(s[|r|])
    ensures AllDigits(s) ==> r == s
  {
    if |s| > 0 && IsDigit(s[0]) then [s[0]] + DigitRun(s[1..]) else ""
  }

  /** The base-10 value of a digit string (most significant digit first). */
  function DecValue(d: string): nat
    requires AllDigits(d)
  {
    if |d| == 0 then 0
    else DecValue(d[..|d| - 1]) * 10 + (d[|d| - 1] as int - '0' as int)
  }

  /**
   * strtoul(s, NULL, 10) with a 64-bit unsigned long: skip white space, take
   * an optional sign, read the digit run; a value past ULONG_MAX saturates,
   * a minus sign negates modulo 2^64.
   */
  function Strtoul(s: string): (r: nat)
    ensures r <= ULongMax
    ensures AllDigits(s) ==> r == if DecValue(s) > ULongMax then ULongMax else DecValue(s)
  {
    var b := SkipSpace(s);
    var negative := |b| > 0 && b[0] == '-';
    var body := if |b| > 0 && (b[0] == '-' || b[0] == '+') then b[1..] else b;
    var v := DecValue(DigitRun(body));
    if v > ULongMax then ULongMax
    else if negative then (ULongMax + 1 - v) % (ULongMax + 1)
    else v
  }

  /** The `uint32_t` the callers return: strtoul's result truncated to 32 bits. */
  function Strtoul32(s: string): (r: U32)
    ensures AllDigits(s) && DecValue(s) < U32Limit ==> r == DecValue(s)
  {
    var v := Strtoul(s);
    if v < U32Limit then v else v % U32Limit
  }

  /**
   * The parse half of sysfs_read_uint and generic_temp_read: a failed or
   * empty read gives 0; otherwise the last byte read is dropped and the rest
   * parsed as base 10.
   */
  function PayloadValue(o: ReadOutcome): (v: U32)
    ensures !o.Bytes? ==> v == 0
  {
    match o
    case Bytes(d) => Strtoul32(Terminated(d))
    case _ => 0
  }

  /** A payload of digits and one trailing byte parses to the digits' value. */
  lemma PayloadOfDigits(d: ReadBytes)
    requires AllDigits(d[..|d| - 1]) && DecValue(d[..|d| - 1]) < U32Limit
    ensures PayloadValue(Bytes(d)) == DecValue(d[..|d| - 1])
  {
    var body := d[..|d| - 1];
    assert forall k :: 0 <= k < |body| ==> body[k] != '\0';
  }

  /** sysfs_read_uint: read a whole scalar file into a 128-byte buffer and parse it. */
  function SysfsReadUint(f: File): (v: U32)
    ensures f.Missing? || f == Present("") ==> v == 0
    ensures f.Present? && 0 < |f.content| <= ScalarCap ==>
      var body := f.content[..|f.content| - 1];
      AllDigits(body) && DecValue(body) < U32Limit ==> v == DecValue(body)
  {
    PayloadValue(ReadFile(f, ScalarCap))
  }

  /** The decimal text the kernel writes for `n` (the encoder a payload inverts). */
  function DecimalDigits(n: nat): (s: string)
    ensures 0 < |s| && AllDigits(s)
    ensures DecValue(s) == n
  {
    var last := ['0' + (n % 10) as char];
    if n < 10 then last
    else
      var prefix := DecimalDigits(n / 10);
      var s := prefix + last;
      assert s[..|s| - 1] == prefix;
      s
  }

  function Pow10(k: nat): nat
  {
    if k == 0 then 1 else 10 * Pow10(k - 1)
  }

  lemma {:induction false} DecimalDigitsLength(n: nat, k: nat)
    requires 0 < k && n < Pow10(k)
    ensures |DecimalDigits(n)| <= k
  {
    if n >= 10 {
      assert k > 1;
      DecimalDigitsLength(n / 10, k - 1);
    }
  }

  /** Every 32-bit value is written with at most ten digits. */
  lemma U32DigitsFit(n: U32)
    ensures |DecimalDigits(n)| <= 10
  {
    assert Pow10(10) == 10_000_000_000;
    DecimalDigitsLength(n, 10);
  }

  /**
   * Round trip: a file holding the decimal text of a 32-bit value and a
   * newline parses back to that value, through any buffer of the sizes used.
   */
  lemma PayloadRoundTrip(n: U32, cap: nat)
    requires cap > 10
    ensures PayloadValue(ReadFile(Present(DecimalDigits(n) + "\n"), cap)) == n
  {
    U32DigitsFit(n);
    var s := DecimalDigits(n) + "\n";
    assert s[..|s| - 1] == DecimalDigits(n);
    PayloadOfDigits(s);
  }

  /** A coretemp tempN_max of "43375\n" reads as 43375 millidegrees. */
  lemma ScalarExample()
    ensures SysfsReadUint(Present("43375\n")) == 43375
  {
    var d := "43375\n";
    assert d[..|d| - 1] == "43375";
    assert DecValue("4") == 4;
    assert DecValue("43") == 43 by { assert "43"[..1] == "4"; }
    assert DecValue("433") == 433 by { assert "433"[..2] == "43"; }
    assert DecValue("4337") == 4337 by { assert "4337"[..3] == "433"; }
    assert DecValue("43375") == 43375 by { assert "43375"[..4] == "4337"; }
    PayloadOfDigits(d);
  }

  /** strtoul negates "-5000" modulo 2^64. */
  lemma StrtoulNegativeExample()
    ensures Strtoul("-5000") == ULongMax + 1 - 5000
  {
    assert SkipSpace("-5000") == "-5000";
    assert "-5000"[1..] == "5000";
    assert DigitRun("5000") == "5000";
    assert DecValue("5000") == 5000 by {
      assert "5000"[..3] == "500";
      assert "500"[..2] == "50";
      assert "50"[..1] == "5";
    }
    assert (ULongMax + 1 - 5000) % (ULongMax + 1) == 18446744073709546616 % 18446744073709551616;
  }

  /**
   * A negative reading: the payload "-5000\n" keeps the low 32 bits of
   * 2^64 - 5000, that is 2^32 - 5000.
   */
  lemma NegativeExample()
    ensures PayloadValue(Bytes("-5000\n")) == U32Limit - 5000
  {
    var d: ReadBytes := "-5000\n";
    assert Terminated(d) == "-5000" by {
      assert d[..|d| - 1] == "-5000";
      assert forall k :: 0 <= k < 5 ==> "-5000"[k] != '\0';
    }
    assert Strtoul32("-5000") == U32Limit - 5000 by {
      StrtoulNegativeExample();
      assert ULongMax + 1 - 5000 == 18446744073709546616;
      assert 18446744073709546616 % 4294967296 == 4294962296;
    }
  }
}
