/** Conversion between model services and response services: crates/common/src/control/response.rs. */
module ServiceAddress {
  import opened Types
  import Decimal

  datatype ResponseService = ResponseService(id: U64, name: string, transport: Transport, address: Option<string>)

  function ToResponse(s: Service): ResponseService {
    ResponseService(s.id, s.name, s.transport,
                    if s.host != "" then Some(s.host + ":" + Decimal.Print(s.port)) else None)
  }

  /** Puts a character in front of the first part. */
  function Glue(c: char, parts: seq<string>): (r: seq<string>)
    requires parts != []
    ensures |r| == |parts|
  {
    [[c] + parts[0]] + parts[1..]
  }

  function Split(s: string, sep: char): (parts: seq<string>)
    ensures parts != []
  {
    if s == "" then [""]
    else if s[0] == sep then [""] + Split(s[1..], sep)
    else Glue(s[0], Split(s[1..], sep))
  }

  /** `parse::<u16>()`: an optional plus sign, then digits of a value that fits. */
  function ParseU16(s: string): Option<U16> {
    var digits := if s != "" && s[0] == '+' then s[1..] else s;
    if digits != "" && Decimal.AllDigits(digits) && Decimal.Value(digits) <= U16_MAX
    then Some(Decimal.Value(digits)) else None
  }

  function FromResponse(r: ResponseService): Service {
    var parts := match r.address case Some(a) => Split(a, ':') case None => [];
    var (host, port) :=
      if |parts| == 2 then (parts[0], match ParseU16(parts[1]) case Some(p) => p case None => 0) else ("", 0);
    Service(r.id, r.name, r.transport, host, port)
  }

  /** The host that sends `masked` services shows no address. */
  function Prepared(s: Service, mask: bool): ResponseService {
    ToResponse(if mask then s.(host := "", port := 0) else s)
  }

  lemma {:induction false} SplitWithoutSeparator(s: string, sep: char)
    requires sep !in s
    ensures Split(s, sep) == [s]
  {
    if s != "" {
      assert s[0] in s;
      SplitWithoutSeparator(s[1..], sep);
      assert [s[0]] + s[1..] == s;
    }
  }

  lemma GlueAppend(c: char, a: seq<string>, b: seq<string>)
    requires a != []
    ensures Glue(c, a + b) == Glue(c, a) + b
  {
    assert (a + b)[0] == a[0] && (a + b)[1..] == a[1..] + b;
  }

  lemma ConsAppend(x: string, a: seq<string>, b: seq<string>)
    ensures [x] + (a + b) == ([x] + a) + b
  {
  }

  /** Splitting at a separator splits both sides independently. */
  lemma {:induction false} SplitAround(a: string, b: string, sep: char)
    ensures Split(a + [sep] + b, sep) == Split(a, sep) + Split(b, sep)
  {
    var s := a + [sep] + b;
    if a == "" {
      assert s[0] == sep && s[1..] == b;
    } else {
      var tail := a[1..];
      assert s[0] == a[0] && s[1..] == tail + [sep] + b;
      SplitAround(tail, b, sep);
      GlueAppend(a[0], Split(tail, sep), Split(b, sep));
      ConsAppend("", Split(tail, sep), Split(b, sep));
    }
  }

  lemma {:induction false} SplitWithSeparator(s: string, sep: char)
    requires sep in s
    ensures |Split(s, sep)| >= 2
  {
    if s[0] != sep {
      assert s == [s[0]] + s[1..];
      SplitWithSeparator(s[1..], sep);
    }
  }

  lemma {:induction false} SplitCounts(s: string, sep: char)
    ensures |Split(s, sep)| == multiset(s)[sep] + 1
  {
    if s != "" {
      assert s == [s[0]] + s[1..];
      SplitCounts(s[1..], sep);
    }
  }

  /** The parts put together again with the separator between them. */
  function Unsplit(parts: seq<string>, sep: char): string
    requires parts != []
  {
    if |parts| == 1 then parts[0] else parts[0] + [sep] + Unsplit(parts[1..], sep)
  }

  lemma {:induction false} UnsplitSplit(s: string, sep: char)
    ensures Unsplit(Split(s, sep), sep) == s
  {
    if s != "" {
      var parts := Split(s[1..], sep);
      UnsplitSplit(s[1..], sep);
      assert s == [s[0]] + s[1..];
      if s[0] == sep {
        assert ([""] + parts)[1..] == parts;
      } else if |parts| > 1 {
        assert Glue(s[0], parts)[1..] == parts[1..];
        assert [s[0]] + (parts[0] + [sep] + Unsplit(parts[1..], sep))
            == [s[0]] + parts[0] + [sep] + Unsplit(parts[1..], sep);
      }
    }
  }

  /**
   * What is made of an address: with exactly one colon, the host before it and the port after it (0 if
   * that is not a port); with none or several, or without an address, no host and port 0.
   */
  lemma AddressRead(r: ResponseService)
    ensures var t := FromResponse(r);
            && t.id == r.id && t.name == r.name && t.transport == r.transport
            && if r.address.Some? && multiset(r.address.value)[':'] == 1
               then exists digits: string ::
                      && r.address.value == t.host + ":" + digits
                      && t.port == match ParseU16(digits) case Some(p) => p case None => 0
               else t.host == "" && t.port == 0
  {
    if r.address.Some? {
      SplitCounts(r.address.value, ':');
      UnsplitSplit(r.address.value, ':');
      var parts := Split(r.address.value, ':');
      if |parts| == 2 {
        assert parts[1..] == [parts[1]];
        assert Unsplit(parts, ':') == parts[0] + [':'] + parts[1];
        assert r.address.value == FromResponse(r).host + ":" + parts[1];
      }
    }
  }

  /**
   * There and back keeps id, name and transport always, and is the identity exactly for a
   * non-empty host without a colon, or an empty host with port 0.
   */
  lemma RoundTripIff(s: Service)
    ensures var t := FromResponse(ToResponse(s));
            && t.id == s.id && t.name == s.name && t.transport == s.transport
            && (t == s <==> (s.host != "" && ':' !in s.host) || (s.host == "" && s.port == 0))
  {
    if s.host != "" {
      var digits := Decimal.Print(s.port);
      Decimal.PrintRoundTrips(s.port);
      SplitAround(s.host, digits, ':');
      assert ':' !in digits;
      SplitWithoutSeparator(digits, ':');
      if ':' in s.host {
        SplitWithSeparator(s.host, ':');
      } else {
        SplitWithoutSeparator(s.host, ':');
        assert digits[0] != '+';
      }
    }
  }

  /** A host with a colon in it, an IPv6 address say, comes back without host and port. */
  lemma ColonLosesAddress(s: Service)
    requires ':' in s.host
    ensures FromResponse(ToResponse(s)) == s.(host := "", port := 0)
  {
    var digits := Decimal.Print(s.port);
    SplitAround(s.host, digits, ':');
    SplitWithSeparator(s.host, ':');
  }

  /** A masked service comes back without an address but as the same service. */
  lemma MaskedHidesAddress(s: Service)
    ensures var t := FromResponse(Prepared(s, true));
            t == s.(host := "", port := 0) && Prepared(s, true).address == None
    ensures Prepared(s, false) == ToResponse(s)
  {
    RoundTripIff(s.(host := "", port := 0));
  }
}
