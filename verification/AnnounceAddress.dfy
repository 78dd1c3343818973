/** The printed form of a peer's announce address and its parser. Text is UTF-8
    bytes. */
module AnnounceAddress {
  import opened Bytes
  import opened Paths
  import opened Base64

  type u16 = n: nat | n < 0x1_0000
  type u128 = n: nat | n < Pow256(16)

  datatype Ip = V4(bits4: u32) | V6(bits6: u128)

  datatype SocketAddr =
    | SocketV4(ip4: u32, port: u16)
    | SocketV6(ip6: u128, port: u16, flowInfo: u32, scopeId: u32)

  datatype ConnectionDetails = NoNat(addr: SocketAddr) | Asymmetric(addr: SocketAddr) | Symmetric(ip: Ip)

  datatype Address = Address(details: ConnectionDetails, name: Bytes)

  datatype DecodeError = BadLength | UnrecognizedTypeValue | ParseInt | BadBase64 | NoPort

  datatype ParseResult = Parsed(address: Address) | Error(error: DecodeError) | Panic

  // --------------------------------------------------------------- printing

  function IpOf(details: ConnectionDetails): Ip {
    match details
    case Symmetric(ip) => ip
    case NoNat(SocketV4(ip, _)) => V4(ip)
    case Asymmetric(SocketV4(ip, _)) => V4(ip)
    case NoNat(SocketV6(ip, _, _, _)) => V6(ip)
    case Asymmetric(SocketV6(ip, _, _, _)) => V6(ip)
  }

  function PortOf(details: ConnectionDetails): Option<u16> {
    if details.Symmetric? then None else Some(details.addr.port)
  }

  function TypeValue(details: ConnectionDetails): nat {
    (if details.NoNat? then 0 else if details.Symmetric? then 1 else 2) + (if IpOf(details).V6? then 3 else 0)
  }

  function DetailBytes(details: ConnectionDetails): Bytes {
    var ip := IpOf(details);
    var port := PortOf(details);
    (if port.Some? then ToBE(port.value, 2) else []) + (if ip.V4? then ToBE(ip.bits4, 4) else ToBE(ip.bits6, 16))
  }

  /** `Display` */
  function Print(a: Address): Bytes {
    a.name + Encode(DetailBytes(a.details)) + [(48 + TypeValue(a.details)) as byte]
  }

  // ---------------------------------------------------------------- parsing

  /** Bytes in the suffix of each type. */
  function SuffixBytes(typeValue: nat): nat
    requires typeValue <= 5
  {
    if typeValue == 0 || typeValue == 2 then 4 + 2
    else if typeValue == 1 then 4
    else if typeValue == 4 then 16
    else 16 + 2
  }

  function SuffixChars(typeValue: nat): nat
    requires typeValue <= 5
  {
    (SuffixBytes(typeValue) * 8 + 5) / 6
  }

  predicate IsContinuation(c: byte) {
    0x80 <= c < 0xC0
  }

  lemma TwoByteNumber(s: Bytes)
    requires |s| == 2
    ensures FromBE(s) < 0x1_0000
  {
    ToFromBE(s);
    Powers();
  }

  lemma FourByteNumber(s: Bytes)
    requires |s| == 4
    ensures FromBE(s) < 0x1_0000_0000
  {
    ToFromBE(s);
    Powers();
  }

  function Port(s: Bytes): u16
    requires |s| == 2
  {
    TwoByteNumber(s);
    FromBE(s)
  }

  /** The suffix: a port unless the type is symmetric, then the IP address. */
  function ParseDetails(typeValue: nat, input: Bytes): ParseResult
    requires typeValue <= 5
  {
    var ipLen := if typeValue > 2 then 16 else 4;
    var kind := if typeValue > 2 then typeValue - 3 else typeValue;
    if |input| < ipLen then Error(BadLength)
    else if kind != 1 && |input| < ipLen + 2 then Error(BadLength)
    else
      var ipBytes := input[|input| - ipLen..];
      if typeValue > 2 then
        ToFromBE(ipBytes);
        var ip: u128 := FromBE(ipBytes);
        if kind == 1 then Parsed(Address(Symmetric(V6(ip)), []))
        else
          var addr := SocketV6(ip, Port(input[|input| - 18..|input| - 16]), 0, 0);
          Parsed(Address(if kind == 0 then NoNat(addr) else Asymmetric(addr), []))
      else
        FourByteNumber(ipBytes);
        var ip: u32 := FromBE(ipBytes);
        if kind == 1 then Parsed(Address(Symmetric(V4(ip)), []))
        else
          var addr := SocketV4(ip, Port(input[|input| - 6..|input| - 4]));
          Parsed(Address(if kind == 0 then NoNat(addr) else Asymmetric(addr), []))
  }

  /** `from_string`. Slicing before the start of the text or inside a character,
      and a last digit above 5, panic. */
  function Parse(s: Bytes): ParseResult {
    if s == [] then Error(BadLength)
    else
      var last := s[|s| - 1] as nat;
      if last < 48 || last > 57 then Error(ParseInt)
      else
        var typeValue := last - 48;
        if typeValue > 5 then Panic
        else
          var chars := SuffixChars(typeValue);
          if |s| - 1 < chars then Panic
          else if IsContinuation(s[|s| - 1 - chars]) then Panic
          else
            var input := Decode(s[|s| - 1 - chars..|s| - 1]);
            if input.None? then Error(BadBase64)
            else
              var details := ParseDetails(typeValue, input.value);
              if details.Parsed? then Parsed(Address(details.address.details, s[..|s| - 1 - chars])) else details
  }

  // --------------------------------------------------------------- theorems

  /** IPv6 flow information and scope do not appear in the printed form. */
  function WithoutScope(details: ConnectionDetails): ConnectionDetails {
    match details
    case NoNat(SocketV6(ip, port, _, _)) => NoNat(SocketV6(ip, port, 0, 0))
    case Asymmetric(SocketV6(ip, port, _, _)) => Asymmetric(SocketV6(ip, port, 0, 0))
    case _ => details
  }

  predicate HasNoScope(details: ConnectionDetails) {
    !details.Symmetric? && details.addr.SocketV6? ==> details.addr.flowInfo == 0 && details.addr.scopeId == 0
  }

  lemma NumberRoundTrip(n: nat, w: nat)
    requires n < Pow256(w)
    ensures FromBE(ToBE(n, w)) == n
  {
    FromToBE(n, w);
  }

  lemma DetailsRoundTrip(details: ConnectionDetails)
    ensures TypeValue(details) <= 5 && |DetailBytes(details)| == SuffixBytes(TypeValue(details))
    ensures ParseDetails(TypeValue(details), DetailBytes(details)) == Parsed(Address(WithoutScope(details), []))
  {
    var d := DetailBytes(details);
    var ip := IpOf(details);
    if ip.V4? { ShortDetails(details); } else { LongDetails(details); }
  }

  lemma ShortDetails(details: ConnectionDetails)
    requires IpOf(details).V4?
    ensures ParseDetails(TypeValue(details), DetailBytes(details)) == Parsed(Address(details, []))
  {
    var d, ip, port := DetailBytes(details), IpOf(details), PortOf(details);
    Powers();
    NumberRoundTrip(ip.bits4, 4);
    NumberRoundTrip(if port.Some? then port.value else 0, 2);
    assert d[|d| - 4..] == ToBE(ip.bits4, 4);
    if port.Some? { assert d[|d| - 6..|d| - 4] == ToBE(port.value, 2); }
  }

  lemma LongIp(details: ConnectionDetails)
    requires IpOf(details).V6?
    ensures var d := DetailBytes(details);
            |d| >= 16 && FromBE(d[|d| - 16..]) == IpOf(details).bits6
  {
    var d, ip := DetailBytes(details), IpOf(details);
    NumberRoundTrip(ip.bits6, 16);
    assert d[|d| - 16..] == ToBE(ip.bits6, 16);
  }

  lemma LongPort(details: ConnectionDetails)
    requires IpOf(details).V6? && PortOf(details).Some?
    ensures var d := DetailBytes(details);
            |d| == 18 && FromBE(d[..2]) == PortOf(details).value
  {
    var d, port := DetailBytes(details), PortOf(details);
    Powers();
    NumberRoundTrip(port.value, 2);
    assert d[..2] == ToBE(port.value, 2);
  }

  lemma LongDetails(details: ConnectionDetails)
    requires IpOf(details).V6?
    ensures ParseDetails(TypeValue(details), DetailBytes(details)) == Parsed(Address(WithoutScope(details), []))
  {
    hide FromBE, ToBE, Pow256;
    LongIp(details);
    if PortOf(details).Some? { LongPort(details); }
  }

  /** Parsing text whose suffix is the encoding of the right number of bytes. */
  lemma ParseSuffix(name: Bytes, input: Bytes, typeValue: nat)
    requires typeValue <= 5 && |input| == SuffixBytes(typeValue)
    ensures var details := ParseDetails(typeValue, input);
            Parse(name + Encode(input) + [(48 + typeValue) as byte])
              == if details.Parsed? then Parsed(Address(details.address.details, name)) else details
  {
    var code := Encode(input);
    DecodeEncode(input);
    assert |code| == SuffixChars(typeValue);
    assert code[0] in code;
  }

  /** The printed form: the name, the port and address in Base64, most significant byte
      first, and a digit for the kind of NAT and of address. */
  lemma PrintedIs(a: Address)
    ensures var (t, d, ip) := (Print(a), a.details, IpOf(a.details));
            && |t| > |a.name| && t[..|a.name|] == a.name
            && t[|t| - 1] as char == (if ip.V4? then (if d.NoNat? then '0' else if d.Symmetric? then '1' else '2')
                                      else (if d.NoNat? then '3' else if d.Symmetric? then '4' else '5'))
            && Decode(t[|a.name|..|t| - 1]) == Some(DetailBytes(d))
    ensures var (bytes, d, ip) := (DetailBytes(a.details), a.details, IpOf(a.details));
            var skip := if d.Symmetric? then 0 else 2;
            && |bytes| == skip + (if ip.V4? then 4 else 16)
            && (!d.Symmetric? ==> FromBE(bytes[..2]) == d.addr.port)
            && FromBE(bytes[skip..]) == if ip.V4? then ip.bits4 else ip.bits6
  {
    var bytes, t, ip := DetailBytes(a.details), Print(a), IpOf(a.details);
    assert t[|a.name|..|t| - 1] == Encode(bytes);
    DecodeEncode(bytes);
    PrintedNumbers(a.details);
  }

  lemma PrintedNumbers(d: ConnectionDetails)
    ensures var (bytes, ip) := (DetailBytes(d), IpOf(d));
            var skip := if d.Symmetric? then 0 else 2;
            && |bytes| == skip + (if ip.V4? then 4 else 16)
            && (!d.Symmetric? ==> FromBE(bytes[..2]) == d.addr.port)
            && FromBE(bytes[skip..]) == if ip.V4? then ip.bits4 else ip.bits6
  {
    hide Pow256, ToBE, FromBE;
    var bytes, ip, port := DetailBytes(d), IpOf(d), PortOf(d);
    Powers();
    if ip.V4? { NumberRoundTrip(ip.bits4, 4); } else { NumberRoundTrip(ip.bits6, 16); }
    var tail := if ip.V4? then ToBE(ip.bits4, 4) else ToBE(ip.bits6, 16);
    if port.Some? {
      NumberRoundTrip(port.value, 2);
      assert bytes[..2] == ToBE(port.value, 2) && bytes[2..] == tail;
    } else {
      assert bytes[0..] == tail;
    }
  }

  /** What printing and parsing an address gives. */
  lemma ParsePrinted(a: Address)
    ensures Parse(Print(a)) == Parsed(a.(details := WithoutScope(a.details)))
    ensures |Print(a)| == |a.name| + (8 * |DetailBytes(a.details)| + 5) / 6 + 1
  {
    DetailsRoundTrip(a.details);
    ParseSuffix(a.name, DetailBytes(a.details), TypeValue(a.details));
  }

  /** Every address parses back to itself exactly when it carries no IPv6 flow
      information or scope; the name is arbitrary. */
  lemma AddressRoundTripIff(a: Address)
    ensures Parse(Print(a)) == Parsed(a) <==> HasNoScope(a.details)
  {
    ParsePrinted(a);
  }

  lemma DetailsPrintBack(typeValue: nat, input: Bytes)
    requires typeValue <= 5 && |input| == SuffixBytes(typeValue)
    ensures var r := ParseDetails(typeValue, input);
            r.Parsed? && TypeValue(r.address.details) == typeValue && DetailBytes(r.address.details) == input
  {
    var ipLen := if typeValue > 2 then 16 else 4;
    ToFromBE(input[|input| - ipLen..]);
    if typeValue != 1 && typeValue != 4 {
      var port := input[|input| - ipLen - 2..|input| - ipLen];
      ToFromBE(port);
      assert input == port + input[|input| - ipLen..];
    } else {
      assert input == input[|input| - ipLen..];
    }
  }

  /** Text that parses has a suffix that decodes to the number of bytes of its type. */
  lemma ParsedShape(s: Bytes) returns (name: Bytes, input: Bytes, typeValue: nat)
    requires Parse(s).Parsed?
    ensures typeValue <= 5 && |input| == SuffixBytes(typeValue)
    ensures s == name + Encode(input) + [(48 + typeValue) as byte]
  {
    typeValue := s[|s| - 1] as nat - 48;
    var start := |s| - 1 - SuffixChars(typeValue);
    var code := s[start..|s| - 1];
    name, input := s[..start], Decode(code).value;
    EncodeDecode(code);
  }

  /** Any text that parses is the printed form of what it parses to. */
  lemma PrintParsed(s: Bytes)
    requires Parse(s).Parsed?
    ensures Print(Parse(s).address) == s
  {
    var name, input, typeValue := ParsedShape(s);
    ParseSuffix(name, input, typeValue);
    DetailsPrintBack(typeValue, input);
  }

  /** So two addresses with the same printed form agree on all that is printed. */
  lemma PrintInjective(a: Address, b: Address)
    requires Print(a) == Print(b)
    ensures a.name == b.name && WithoutScope(a.details) == WithoutScope(b.details)
  {
    ParsePrinted(a);
    ParsePrinted(b);
  }

  // ----------------------------------------------------------- what fails how

  /** The characters of the suffix before each final digit. */
  function SuffixWidth(digit: char): nat {
    if digit == '0' || digit == '2' then 8
    else if digit == '1' then 6
    else if digit == '4' then 22
    else 24
  }

  /** Where the suffix would start is inside a character, or before the text. */
  predicate CutsCharacter(s: Bytes, width: nat)
    requires s != []
  {
    |s| - 1 < width || 0x80 <= s[|s| - 1 - width] < 0xC0
  }

  /** Text fails to parse exactly if it is empty, does not end in a digit, or has a
      suffix that is not canonical Base64. A final digit above 5, or a suffix that does
      not start at a character, makes the parser panic. */
  lemma ParseFailsIff(s: Bytes)
    requires s != []
    ensures Parse([]) == Error(BadLength)
    ensures var (digit, n) := (s[|s| - 1] as char, |s| - 1);
            var width := SuffixWidth(digit);
            && (Parse(s) == Error(ParseInt) <==> !('0' <= digit <= '9'))
            && (Parse(s).Panic? <==> '6' <= digit <= '9' || ('0' <= digit <= '5' && CutsCharacter(s, width)))
            && ('0' <= digit <= '5' && !CutsCharacter(s, width) ==>
                  if Decode(s[n - width..n]).None? then Parse(s) == Error(BadBase64)
                  else Parse(s).Parsed? && Parse(s).address.name == s[..n - width])
  {
    hide Decode, ParseDetails;
    var digit, n := s[|s| - 1] as nat, |s| - 1;
    if 48 <= digit <= 53 {
      var chars := SuffixChars(digit - 48);
      assert chars == SuffixWidth(digit as char);
      if n >= chars && Decode(s[n - chars..n]).Some? {
        SuffixDecodes(s[n - chars..n], digit - 48);
      }
    }
  }

  lemma SuffixDecodes(code: Bytes, typeValue: nat)
    requires typeValue <= 5 && |code| == SuffixChars(typeValue) && Decode(code).Some?
    ensures ParseDetails(typeValue, Decode(code).value).Parsed?
  {
    var input := Decode(code).value;
    EncodeDecode(code);
    assert |Encode(input)| == (8 * |input| + 5) / 6;
    DetailsPrintBack(typeValue, input);
  }
}
