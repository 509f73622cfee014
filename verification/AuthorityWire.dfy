/** The textual exchange with the authority: printing a response and parsing it. */
module AuthorityWire {
  import opened Basics
  import opened Text
  import opened AuthorizationLease

  const PROTOCOL := "CHATGPT-CUA-AUTH/1"
  const TOKEN_BYTES := 32
  const NONCE_BYTES := 16

  datatype Parsed = Accepted(response: Response) | Rejected(denial: Denial)

  // ---------------------------------------------------------------- hexadecimal fields

  function DecodeHex(n: nat, value: string): (r: Option<seq<Byte>>)
    ensures r.Some? ==> |r.value| == n && Hex(r.value) == value
  {
    if |value| != n * 2 || !AllLowerHex(value) then None
    else HexAfterUnhex(value); Some(Unhex(value))
  }

  /** The digit-by-digit encoder. */
  method EncodeHexLoop(bytes: seq<Byte>) returns (output: string)
    ensures output == Hex(bytes)
  {
    output := "";
    for i := 0 to |bytes|
      invariant output + Hex(bytes[i..]) == Hex(bytes)
    {
      assert bytes[i..][1..] == bytes[i + 1..];
      output := output + [HexDigit(bytes[i] / 16)];
      output := output + [HexDigit(bytes[i] % 16)];
    }
    assert bytes[|bytes|..] == [];
  }

  /** The pair-by-pair decoder, which validates the whole field first. */
  method DecodeHexLoop(n: nat, value: string) returns (r: Option<seq<Byte>>)
    ensures r == DecodeHex(n, value)
  {
    if |value| != n * 2 || !AllLowerHex(value) {
      return None;
    }
    var output: seq<Byte> := [];
    for i := 0 to n
      invariant |output| == i
      invariant output + Unhex(value[2 * i..]) == Unhex(value)
    {
      assert value[2 * i..][2..] == value[2 * (i + 1)..];
      var high, low := HexValue(value[2 * i]), HexValue(value[2 * i + 1]);
      output := output + [16 * high + low];
    }
    assert value[2 * n..] == "";
    assert output + Unhex(value[2 * n..]) == output;
    return Some(output);
  }

  // ---------------------------------------------------------------- responses

  lemma DecimalIsAccepted(value: string)
    ensures forall g: Generation | value == Decimal(g) ::
              value != "" && value[0] != '0' && AllDigits(value) && DecimalValue(value) == g
  {
    forall g: Generation | value == Decimal(g)
      ensures value != "" && value[0] != '0' && AllDigits(value) && DecimalValue(value) == g
    {
      ValueOfDecimal(g);
    }
  }

  /** Exactly the canonical decimals of generations are accepted. */
  function ParseGeneration(value: string): (r: Option<Generation>)
    ensures r.Some? ==> Decimal(r.value) == value
    ensures forall g: Generation :: value == Decimal(g) ==> r == Some(g)
  {
    DecimalIsAccepted(value);
    if value == "" || value[0] == '0' || !AllDigits(value) then None
    else
      DecimalOfValue(value);
      var generation := DecimalValue(value);
      if generation < U64_LIMIT then Some(generation) else None
  }

  function ParseFields(fields: seq<string>, nonce: seq<Byte>): Parsed {
    if |fields| == 5 && fields[1] == "ALLOW" then
      var generation := ParseGeneration(fields[2]);
      var token := DecodeHex(TOKEN_BYTES, fields[3]);
      if generation.None? || token.None? || DecodeHex(NONCE_BYTES, fields[4]) != Some(nonce)
      then Rejected(Invalid)
      else Accepted(Allow(generation.value, token.value))
    else if |fields| == 4 && fields[1] == "DENY" then
      var generation := ParseGeneration(fields[2]);
      if generation.None? || DecodeHex(NONCE_BYTES, fields[3]) != Some(nonce)
      then Rejected(Invalid)
      else Accepted(Deny(generation.value))
    else Rejected(Invalid)
  }

  function ParseResponse(text: string, nonce: seq<Byte>): Parsed {
    if text == "" || text[|text| - 1] != '\n' then Rejected(Invalid)
    else
      var line := text[..|text| - 1];
      if '\n' in line || '\r' in line then Rejected(Invalid)
      else
        var fields := Split(line, ' ');
        if fields[0] != PROTOCOL then Rejected(Invalid) else ParseFields(fields, nonce)
  }

  /** What the authority sends: fields separated by single spaces and one newline. */
  function Fields(response: Response, nonce: seq<Byte>): seq<string> {
    match response
    case Allow(generation, token) => [PROTOCOL, "ALLOW", Decimal(generation), Hex(token), Hex(nonce)]
    case Deny(generation) => [PROTOCOL, "DENY", Decimal(generation), Hex(nonce)]
  }

  function Print(response: Response, nonce: seq<Byte>): string {
    Join(Fields(response, nonce), ' ') + "\n"
  }

  predicate WellSized(response: Response, nonce: seq<Byte>) {
    |nonce| == NONCE_BYTES && (response.Allow? ==> |response.token| == TOKEN_BYTES)
  }

  predicate Plain(s: string) {
    forall i | 0 <= i < |s| :: s[i] != ' ' && s[i] != '\n' && s[i] != '\r'
  }

  lemma FieldsArePlain(response: Response, nonce: seq<Byte>)
    ensures forall i | 0 <= i < |Fields(response, nonce)| :: Plain(Fields(response, nonce)[i])
  {
    UnhexAfterHex(nonce);
    if response.Allow? { UnhexAfterHex(response.token); }
  }

  lemma {:induction false} JoinOfPlain(parts: seq<string>)
    requires forall i | 0 <= i < |parts| :: Plain(parts[i])
    ensures '\n' !in Join(parts, ' ') && '\r' !in Join(parts, ' ')
  {
    if |parts| > 1 { JoinOfPlain(parts[1..]); }
  }

  lemma DecodeHexOfHex(bytes: seq<Byte>)
    ensures DecodeHex(|bytes|, Hex(bytes)) == Some(bytes)
  {
    UnhexAfterHex(bytes);
  }

  /** Every response the authority can print is read back as itself. */
  lemma ParseAfterPrint(response: Response, nonce: seq<Byte>)
    requires WellSized(response, nonce)
    ensures ParseResponse(Print(response, nonce), nonce) == Accepted(response)
  {
    var fields := Fields(response, nonce);
    var line := Join(fields, ' ');
    FieldsArePlain(response, nonce);
    JoinOfPlain(fields);
    SplitAfterJoin(fields, ' ');
    assert Print(response, nonce)[..|line|] == line;
    DecodeHexOfHex(nonce);
    assert ParseGeneration(Decimal(response.generation)) == Some(response.generation);
    if response.Allow? { DecodeHexOfHex(response.token); }
  }

  lemma FieldsAfterParse(fields: seq<string>, nonce: seq<Byte>)
    requires fields != [] && fields[0] == PROTOCOL
    requires ParseFields(fields, nonce).Accepted?
    ensures WellSized(ParseFields(fields, nonce).response, nonce)
    ensures Fields(ParseFields(fields, nonce).response, nonce) == fields
  {
    if |fields| == 5 && fields[1] == "ALLOW" {
      assert fields == [fields[0], fields[1], fields[2], fields[3], fields[4]];
    } else {
      assert fields == [fields[0], fields[1], fields[2], fields[3]];
    }
  }

  /** An accepted text is the one canonical print of the response it carries. */
  lemma PrintAfterParse(text: string, nonce: seq<Byte>)
    requires ParseResponse(text, nonce).Accepted?
    ensures WellSized(ParseResponse(text, nonce).response, nonce)
    ensures Print(ParseResponse(text, nonce).response, nonce) == text
  {
    var line := text[..|text| - 1];
    JoinAfterSplit(line, ' ');
    FieldsAfterParse(Split(line, ' '), nonce);
    assert text == line + [text[|text| - 1]];
  }

  /** Two texts accepted with the same nonce and the same meaning are the same text. */
  lemma AcceptedTextIsUnique(t0: string, t1: string, nonce: seq<Byte>)
    requires ParseResponse(t0, nonce).Accepted?
    requires ParseResponse(t0, nonce) == ParseResponse(t1, nonce)
    ensures t0 == t1
  {
    PrintAfterParse(t0, nonce);
    PrintAfterParse(t1, nonce);
  }
}
