/** The converter page's pure helpers: `convertPunycodeToEmoji`, which
    normalises a domain and decodes its first label with the hand-written
    decoder, and `validateEmojiForDomain`, which reports the first format
    problem of an emoji label. */
module EmojiConverter {
  import opened Wrappers
  import opened JsText
  import opened Bootstring
  import opened DomainFormat

  /** The `message` of the Error the decoder throws. */
  function ErrorMessage(e: DecodeError): (m: JsString)
    ensures m != []
  {
    match e
    case InvalidInput => Units("Invalid input")
    case Overflow => Units("Overflow")
  }

  /** `input.trim().toLowerCase()` with any leading `http://` or `https://`
      removed. */
  function Normalised(input: JsString): JsString {
    StripProtocol(ToLower(Trim(input)))
  }

  /** The first dot-separated label of the normalised domain: a prefix of
      it that holds no dot. */
  function FirstLabel(input: JsString): (first: JsString)
    ensures StartsWith(Normalised(input), first) && Dot !in first
  {
    FirstPiece(Normalised(input), Dot);
    Split(Normalised(input), Dot)[0]
  }

  /** What follows the first label: nothing, or a dot and the other labels. */
  function OtherLabels(input: JsString): (rest: JsString)
    ensures Normalised(input) == FirstLabel(input) + rest
    ensures rest == [] || rest[0] == Dot
  {
    AfterFirstPiece(Normalised(input));
    Normalised(input)[|FirstLabel(input)|..]
  }

  lemma AfterFirstPiece(domain: JsString)
    ensures var first := Split(domain, Dot)[0];
      |first| <= |domain| && domain == first + domain[|first|..]
      && (domain[|first|..] == [] || domain[|first|..][0] == Dot)
  {
    var parts := Split(domain, Dot);
    FirstPiece(domain, Dot);
    if |parts| > 1 {
      assert domain[|parts[0]|..] == [Dot] + Join(parts[1..], Dot);
    }
  }

  /** What the decoder makes of a label after its `xn--` prefix: the string
      `String.fromCodePoint` builds, or the message of what was thrown
      (the decoder's Error, or the RangeError for a code point beyond
      0x10FFFF or below 0, with the message the V8 engine gives it). */
  function DecodeLabel(encoded: JsString): Result<JsString, JsString> {
    match Decoded(encoded)
    case Err(e) => Err(ErrorMessage(e))
    case Ok(cps) =>
      match FromCodePoints(cps)
      case Err(cp) => Err(Units("Invalid code point ") + Decimal(cp))
      case Ok(decoded) => Ok(decoded)
  }

  /** convertPunycodeToEmoji: a blank input gives ''; otherwise the domain
      is normalised and split on '.', and when its first label starts with
      `xn--` the rest of that label is decoded and the other labels are
      joined back after it; a thrown error becomes "Error: " + its message.
      A domain whose first label has no `xn--` prefix comes back normalised
      and otherwise unchanged. */
  function ConvertPunycodeToEmoji(input: JsString): (r: JsString)
    ensures AllWhiteSpace(input) ==> r == []
    ensures !AllWhiteSpace(input) && !StartsWith(FirstLabel(input), Units("xn--")) ==> r == Normalised(input)
  {
    if Trim(input) == [] then []
    else
      var domain := Normalised(input);
      var parts := Split(domain, Dot);
      if StartsWith(parts[0], Units("xn--")) then
        match DecodeLabel(parts[0][4..])
        case Err(message) => Units("Error: ") + message
        case Ok(decoded) => Reattach(decoded, parts)
      else domain
  }

  /** `decoded + '.' + parts.slice(1).join('.')` when there are other
      labels, else `decoded`. */
  function Reattach(decoded: JsString, parts: seq<JsString>): JsString
    requires |parts| >= 1
  {
    if |parts| > 1 then decoded + [Dot] + Join(parts[1..], Dot)
    else decoded
  }

  /** Reattaching the labels of a split keeps everything after the first
      label verbatim. */
  lemma ReattachKeepsRest(decoded: JsString, domain: JsString)
    ensures var parts := Split(domain, Dot);
      StartsWith(domain, parts[0])
      && Reattach(decoded, parts) == decoded + domain[|parts[0]|..]
  {
    FirstPiece(domain, Dot);
    ReattachPieces(decoded, domain, Split(domain, Dot));
  }

  lemma ReattachPieces(decoded: JsString, domain: JsString, parts: seq<JsString>)
    requires |parts| >= 1
    requires |parts| == 1 ==> domain == parts[0]
    requires |parts| > 1 ==> domain == parts[0] + [Dot] + Join(parts[1..], Dot)
    ensures StartsWith(domain, parts[0])
    ensures Reattach(decoded, parts) == decoded + domain[|parts[0]|..]
  {
    if |parts| > 1 {
      var rest := [Dot] + Join(parts[1..], Dot);
      assert domain == parts[0] + rest;
      assert domain[|parts[0]|..] == rest;
      assert decoded + [Dot] + Join(parts[1..], Dot) == decoded + rest;
    } else {
      assert domain[|parts[0]|..] == [];
    }
  }

  /** When the first label has the `xn--` prefix, the decoded text replaces
      that label and everything after it, the dot and the other labels, is
      kept verbatim; a label that fails to decode gives "Error: " and the
      message. */
  lemma ConvertDecodesFirstLabel(input: JsString)
    requires !AllWhiteSpace(input) && StartsWith(FirstLabel(input), Units("xn--"))
    ensures var r := ConvertPunycodeToEmoji(input);
      match DecodeLabel(FirstLabel(input)[4..])
      case Err(message) => r == Units("Error: ") + message
      case Ok(decoded) => r == decoded + OtherLabels(input)
  {
    var domain := Normalised(input);
    match DecodeLabel(FirstLabel(input)[4..])
    case Err(message) =>
    case Ok(decoded) =>
      ReattachKeepsRest(decoded, domain);
  }

  /** Reading the decoded label back as code points gives what the decoder
      computed, unless that holds a lone surrogate value. */
  lemma DecodeLabelReadBack(encoded: JsString)
    requires DecodeLabel(encoded).Ok?
    requires forall j :: 0 <= j < |Decoded(encoded).value| ==> !IsSurrogate(Decoded(encoded).value[j])
    ensures CodePoints(DecodeLabel(encoded).value) == Decoded(encoded).value
  {
    CodePointsFromCodePoints(Decoded(encoded).value);
  }

  /** The result of validateEmojiForDomain. */
  datatype Validation = Validation(valid: bool, message: JsString)

  /** validateEmojiForDomain: a blank input is valid with an empty message;
      otherwise the spaces, invalid-character and length checks are tried
      in that order and the first one that fails gives the message. */
  function ValidateEmojiForDomain(emoji: JsString): (r: Validation)
    ensures AllWhiteSpace(emoji) ==> r == Validation(true, [])
    ensures !AllWhiteSpace(emoji) ==> (r.valid <==> Issues(emoji) == [])
    ensures !AllWhiteSpace(emoji) && Issues(emoji) != [] ==> r.message == Message(Issues(emoji)[0])
    ensures !AllWhiteSpace(emoji) && Issues(emoji) == [] ==> r.message == Units("Valid emoji domain format")
  {
    if Trim(emoji) == [] then Validation(true, [])
    else if HasWhiteSpace(emoji) then Validation(false, Message(Spaces))
    else if HasInvalidChars(emoji) then Validation(false, Message(InvalidCharacters))
    else if TooLong(emoji) then Validation(false, Message(TooLongLabel))
    else Validation(true, Units("Valid emoji domain format"))
  }

  /** The spaces message for 'emoji with spaces', as the component's test
      expects. */
  lemma SpacesExample()
    ensures ValidateEmojiForDomain(Units("emoji with spaces")) == Validation(false, Message(Spaces))
  {
    var s := Units("emoji with spaces");
    assert s[0] == 'e' as int && !IsWhiteSpace(s[0]);
    assert s[5] == ' ' as int && IsWhiteSpace(s[5]);
  }
}
