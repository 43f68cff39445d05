/** ALPN protocol names: crates/common/src/crypto/alpn.rs. */
module Alpn {
  import opened Types
  import Decimal

  const PROTOCOL_CONTROL_PLANE := "T0CP"
  const PROTOCOL_SERVICE := "T0SRV"

  datatype Protocol = ControlPlane | ServiceProxy(id: U64)

  /** `Panicked` is the failing `parse().unwrap()` on the captured digits. */
  datatype ParseResult = Parsed(protocol: Protocol) | NoMatch | Panicked

  function Print(p: Protocol): string {
    match p
    case ControlPlane => PROTOCOL_CONTROL_PLANE
    case ServiceProxy(id) => PROTOCOL_SERVICE + Decimal.Print(id)
  }

  /**
   * The regular expression `^T0SRV(\d+)$`. Its digit class is Unicode's, so `otherDigit` says
   * which characters besides '0'..'9' are decimal digits.
   */
  predicate IsServiceName(s: string, otherDigit: char -> bool) {
    && |PROTOCOL_SERVICE| < |s|
    && s[..|PROTOCOL_SERVICE|] == PROTOCOL_SERVICE
    && forall i :: |PROTOCOL_SERVICE| <= i < |s| ==> Decimal.IsDigit(s[i]) || otherDigit(s[i])
  }

  /** The zeros of the other decimal digit blocks of Unicode. */
  const UNICODE_ZEROS := [
    0x660, 0x6F0, 0x7C0, 0x966, 0x9E6, 0xA66, 0xAE6, 0xB66, 0xBE6, 0xC66, 0xCE6, 0xD66, 0xDE6, 0xE50, 0xED0,
    0xF20, 0x1040, 0x1090, 0x17E0, 0x1810, 0x1946, 0x19D0, 0x1A80, 0x1A90, 0x1B50, 0x1BB0, 0x1C40, 0x1C50,
    0xA620, 0xA8D0, 0xA900, 0xA9D0, 0xA9F0, 0xAA50, 0xABF0, 0xFF10, 0x104A0, 0x10D30, 0x11066, 0x110F0,
    0x11136, 0x111D0, 0x112F0, 0x11450, 0x114D0, 0x11650, 0x116C0, 0x11730, 0x118E0, 0x11950, 0x11C50,
    0x11D50, 0x11DA0, 0x11F50, 0x16A60, 0x16AC0, 0x16B50, 0x1D7CE, 0x1D7D8, 0x1D7E2, 0x1D7EC, 0x1D7F6, 0x1E140,
    0x1E2F0, 0x1E4F0, 0x1E950, 0x1FBF0
  ]

  predicate IsUnicodeDigit(c: char) {
    exists i :: 0 <= i < |UNICODE_ZEROS| && UNICODE_ZEROS[i] <= c as int < UNICODE_ZEROS[i] + 10
  }

  function Parse(s: string, otherDigit: char -> bool): ParseResult {
    if s == PROTOCOL_CONTROL_PLANE then
      Parsed(ControlPlane)
    else if IsServiceName(s, otherDigit) then
      var digits := s[|PROTOCOL_SERVICE|..];
      if Decimal.AllDigits(digits) && Decimal.Value(digits) <= U64_MAX
      then Parsed(ServiceProxy(Decimal.Value(digits)))
      else Panicked
    else
      NoMatch
  }

  /** The prefix followed by digits is a service name and not the control plane's. */
  lemma PrefixedIsServiceName(digits: string, otherDigit: char -> bool)
    requires digits != "" && Decimal.AllDigits(digits)
    ensures var s := PROTOCOL_SERVICE + digits;
            IsServiceName(s, otherDigit) && s != PROTOCOL_CONTROL_PLANE && s[|PROTOCOL_SERVICE|..] == digits
  {
    var s := PROTOCOL_SERVICE + digits;
    assert s[..|PROTOCOL_SERVICE|] == PROTOCOL_SERVICE;
    assert s[2] == 'S' && PROTOCOL_CONTROL_PLANE[2] == 'C';
  }

  /** Parsing the printed form returns the protocol, whatever the Unicode digit table. */
  lemma ParsePrintRoundTrips(p: Protocol, otherDigit: char -> bool)
    ensures Parse(Print(p), otherDigit) == Parsed(p)
  {
    hide IsServiceName, Decimal.Print;
    if p.ServiceProxy? {
      Decimal.PrintRoundTrips(p.id);
      PrefixedIsServiceName(Decimal.Print(p.id), otherDigit);
    }
  }

  lemma PrintInjective(p: Protocol, q: Protocol)
    ensures Print(p) == Print(q) <==> p == q
  {
    ParsePrintRoundTrips(p, _ => false);
    ParsePrintRoundTrips(q, _ => false);
  }

  /** Printed names fit the 1..255 byte bound of section 3.1 of RFC 7301 (they are ASCII). */
  lemma PrintFitsProtocolName(p: Protocol)
    ensures 4 <= |Print(p)| <= 25
    ensures forall i :: 0 <= i < |Print(p)| ==> Print(p)[i] < 128 as char
  {
    hide Decimal.Print, Decimal.Pow10;
    match p
    case ControlPlane =>
    case ServiceProxy(id) =>
      Decimal.Pow10Exceeds64Bits();
      Decimal.PrintLength(id, 20);
      Decimal.PrintRoundTrips(id);
      var s := Print(p);
      forall i | 0 <= i < |s|
        ensures s[i] < 128 as char
      {
        if i >= |PROTOCOL_SERVICE| {
          assert s[i] == Decimal.Print(id)[i - |PROTOCOL_SERVICE|];
        }
      }
  }

  /** A name selects service `id` exactly when it is the prefix followed by ASCII digits of value `id`. */
  lemma ParsedServiceIff(s: string, otherDigit: char -> bool, id: U64)
    ensures Parse(s, otherDigit) == Parsed(ServiceProxy(id))
       <==> exists digits: string :: s == PROTOCOL_SERVICE + digits && digits != "" && Decimal.AllDigits(digits)
                             && Decimal.Value(digits) == id
  {
    if Parse(s, otherDigit) == Parsed(ServiceProxy(id)) {
      var digits := s[|PROTOCOL_SERVICE|..];
      assert s == PROTOCOL_SERVICE + digits;
    }
    if digits: string :| s == PROTOCOL_SERVICE + digits && digits != "" && Decimal.AllDigits(digits)
                         && Decimal.Value(digits) == id {
      PrefixedIsServiceName(digits, otherDigit);
    }
  }

  /** Only its own name selects the control plane. */
  lemma ParsedControlPlaneIff(s: string, otherDigit: char -> bool)
    ensures Parse(s, otherDigit) == Parsed(ControlPlane) <==> s == "T0CP"
  {
    hide IsServiceName;
  }

  /**
   * Parsing is not total: it panics exactly on service names whose digits are not all ASCII or
   * exceed 64 bits.
   */
  lemma ParsePanicsIff(s: string, otherDigit: char -> bool)
    ensures Parse(s, otherDigit) == Panicked
       <==> && IsServiceName(s, otherDigit)
            && (Decimal.AllDigits(s[|PROTOCOL_SERVICE|..]) ==> Decimal.Value(s[|PROTOCOL_SERVICE|..]) > U64_MAX)
    ensures Parse(PROTOCOL_SERVICE + Decimal.Print(U64_MAX + 1), otherDigit) == Panicked
  {
    if IsServiceName(s, otherDigit) {
      assert s[2] == PROTOCOL_SERVICE[2] == 'S' && PROTOCOL_CONTROL_PLANE[2] == 'C';
    }
    Decimal.PrintRoundTrips(U64_MAX + 1);
    PrefixedIsServiceName(Decimal.Print(U64_MAX + 1), otherDigit);
  }

  /** The other way to panic: SEGMENTED DIGIT ONE is a digit to the regular expression but not to `parse`. */
  lemma OtherDigitPanics()
    ensures Parse(PROTOCOL_SERVICE + ['\U{1FBF1}'], IsUnicodeDigit) == Panicked
  {
    var s := PROTOCOL_SERVICE + ['\U{1FBF1}'];
    assert UNICODE_ZEROS[|UNICODE_ZEROS| - 1] == 0x1FBF0;
    assert IsUnicodeDigit('\U{1FBF1}');
    assert s[..|PROTOCOL_SERVICE|] == PROTOCOL_SERVICE && s[|PROTOCOL_SERVICE|..] == ['\U{1FBF1}'];
    assert s[2] == 'S' && PROTOCOL_CONTROL_PLANE[2] == 'C';
    ParsePanicsIff(s, IsUnicodeDigit);
    assert !Decimal.IsDigit(s[|PROTOCOL_SERVICE|..][0]);
  }
}
