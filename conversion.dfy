/** The conversion routes: `validateDomainFormat`, the label loop of
    `/punycode-to-emoji`, and the `/bulk` endpoint with its bounds checks,
    per-item loop and summary. The library's `toASCII` and `toUnicode`
    are parameters whose `Err` is the message of what they throw. */
module Conversion {
  import opened Wrappers
  import opened JsText
  import opened DomainFormat
  import Domains
  import EmojiConverter

  const PunycodePrefix := Units("xn--")

  // ---------------------------------------------------------------------
  // validateDomainFormat

  /** `{ valid, issues }` */
  datatype DomainValidation = DomainValidation(valid: bool, issues: seq<JsString>)

  /** The message of each issue, in order. */
  function Messages(issues: seq<FormatIssue>): (ms: seq<JsString>)
    ensures |ms| == |issues|
    ensures forall j :: 0 <= j < |issues| ==> ms[j] == Message(issues[j])
  {
    seq(|issues|, j requires 0 <= j < |issues| => Message(issues[j]))
  }

  /** validateDomainFormat: every check the domain fails contributes its
      message, in check order, and the domain is valid exactly when none
      does. */
  method ValidateDomainFormat(domain: JsString) returns (r: DomainValidation)
    ensures r.issues == Messages(Issues(domain))
    ensures r.valid <==> r.issues == []
  {
    var issues: seq<JsString> := [];
    if HasWhiteSpace(domain) {
      issues := issues + [Message(Spaces)];
    }
    if HasInvalidChars(domain) {
      issues := issues + [Message(InvalidCharacters)];
    }
    if |domain| > MaxLabelLength {
      issues := issues + [Message(TooLongLabel)];
    }
    r := DomainValidation(|issues| == 0, issues);
  }

  /** The reported messages name exactly the failed checks. */
  lemma ValidationMessages(domain: JsString)
    ensures forall m :: m in Messages(Issues(domain)) <==> exists issue :: Fails(domain, issue) && Message(issue) == m
  {
    MessagesOfIssues(Issues(domain));
  }

  /** A message is in the list exactly when one of the issues has it. */
  lemma MessagesOfIssues(issues: seq<FormatIssue>)
    ensures forall m :: m in Messages(issues) <==> exists issue :: issue in issues && Message(issue) == m
  {
    var ms := Messages(issues);
    forall m ensures m in ms <==> exists issue :: issue in issues && Message(issue) == m {
      if m in ms {
        var j :| 0 <= j < |ms| && ms[j] == m;
        assert issues[j] in issues;
      }
      if issue :| issue in issues && Message(issue) == m {
        var j :| 0 <= j < |issues| && issues[j] == issue;
        assert ms[j] == m;
      }
    }
  }

  /** No message is reported twice. */
  lemma ValidationMessagesDistinct(domain: JsString)
    ensures var ms := Messages(Issues(domain));
      forall j, k :: 0 <= j < k < |ms| ==> ms[j] != ms[k]
  {
    var issues := Issues(domain);
    var ms := Messages(issues);
    forall j, k | 0 <= j < k < |ms| ensures ms[j] != ms[k] {
      if ms[j] == ms[k] {
        MessageInjective(issues[j], issues[k]);
      }
    }
  }

  /** The converter page and the conversion route agree on a non-blank
      label: the page is valid exactly when the route reports no issue,
      and otherwise shows the first issue the route reports. */
  lemma PageShowsFirstIssue(domain: JsString)
    requires !AllWhiteSpace(domain)
    ensures var page := EmojiConverter.ValidateEmojiForDomain(domain);
      var ms := Messages(Issues(domain));
      (page.valid <==> ms == [])
      && (ms != [] ==> page.message == ms[0])
  {
  }

  // ---------------------------------------------------------------------
  // POST /punycode-to-emoji: the label loop

  /** `part.startsWith('xn--')` */
  predicate IsPunycodeLabel(part: JsString) {
    StartsWith(part, PunycodePrefix)
  }

  /** The label has the prefix and the library decodes it. */
  predicate Decodes(part: JsString, toUnicode: JsString -> Result<JsString, JsString>) {
    IsPunycodeLabel(part) && toUnicode(part).Ok?
  }

  /** `input.toLowerCase().trim()` with a leading `http://` or `https://`
      removed. */
  function ProcessInput(input: JsString): JsString {
    StripProtocol(Trim(ToLower(input)))
  }

  /** `parts.filter(p => p.startsWith('xn--')).length` */
  function CountPunycodeLabels(parts: seq<JsString>): (count: nat)
    ensures count <= |parts|
    ensures count == 0 <==> forall j :: 0 <= j < |parts| ==> !IsPunycodeLabel(parts[j])
  {
    if parts == [] then 0
    else (if IsPunycodeLabel(parts[0]) then 1 else 0) + CountPunycodeLabels(parts[1..])
  }

  /** The analysis object of the response. */
  datatype Analysis = Analysis(
    inputFormat: JsString,
    partsProcessed: nat,
    punycodeParts: nat,
    containsEmoji: bool,
    conversionMethod: JsString)

  /** What the route returns besides the input and the timestamp. */
  datatype LabelConversion = LabelConversion(output: JsString, analysis: Analysis, domainParts: seq<JsString>)

  /** The labels the loop pushes: a decoded label replaces an `xn--` label
      that the library decodes; every other label, including an `xn--`
      label that fails to decode, is kept as it is. */
  function ConvertedParts(parts: seq<JsString>, toUnicode: JsString -> Result<JsString, JsString>)
    : (r: seq<JsString>)
    ensures |r| == |parts|
    ensures forall j :: 0 <= j < |parts| && Decodes(parts[j], toUnicode) ==> r[j] == toUnicode(parts[j]).value
    ensures forall j :: 0 <= j < |parts| && !Decodes(parts[j], toUnicode) ==> r[j] == parts[j]
  {
    seq(|parts|, j requires 0 <= j < |parts| =>
      if Decodes(parts[j], toUnicode) then toUnicode(parts[j]).value else parts[j])
  }

  /** The loop over the labels: each is pushed converted or kept, and the
      method is set to 'punycode' once some label decodes. */
  method ConvertLabels(parts: seq<JsString>, toUnicode: JsString -> Result<JsString, JsString>)
    returns (domainParts: seq<JsString>, conversionMethod: Option<JsString>)
    ensures domainParts == ConvertedParts(parts, toUnicode)
    ensures conversionMethod.Some? <==> exists j :: 0 <= j < |parts| && Decodes(parts[j], toUnicode)
    ensures conversionMethod.Some? ==> conversionMethod.value == Units("punycode")
  {
    domainParts := [];
    conversionMethod := None;
    var i := 0;
    while i < |parts|
      invariant 0 <= i <= |parts|
      invariant |domainParts| == i
      invariant forall j :: 0 <= j < i ==> domainParts[j] == ConvertedParts(parts, toUnicode)[j]
      invariant conversionMethod.Some? <==> exists j :: 0 <= j < i && Decodes(parts[j], toUnicode)
      invariant conversionMethod.Some? ==> conversionMethod.value == Units("punycode")
    {
      var part := parts[i];
      if StartsWith(part, PunycodePrefix) {
        var decoded := toUnicode(part);
        if decoded.Ok? {
          domainParts := domainParts + [decoded.value];
          conversionMethod := Some(Units("punycode"));
        } else {
          domainParts := domainParts + [part];
        }
      } else {
        domainParts := domainParts + [part];
      }
      i := i + 1;
    }
  }

  /** The `/punycode-to-emoji` route after validation: the processed input
      is split on '.', each label is converted or kept, the labels are
      joined back, and the analysis is computed. */
  method PunycodeToEmoji(input: JsString, toUnicode: JsString -> Result<JsString, JsString>)
    returns (r: LabelConversion)
    ensures var parts := Split(ProcessInput(input), Dot);
      r.domainParts == ConvertedParts(parts, toUnicode)
      && r.output == Join(r.domainParts, Dot)
      && r.analysis.partsProcessed == |parts|
      && r.analysis.punycodeParts == CountPunycodeLabels(parts)
      && r.analysis.containsEmoji == Domains.ContainsEmoji(r.output)
      && (r.analysis.conversionMethod == Units("punycode")
          <==> exists j :: 0 <= j < |parts| && Decodes(parts[j], toUnicode))
      && (r.analysis.conversionMethod != Units("punycode") ==> r.analysis.conversionMethod == Units("none"))
    ensures r.analysis.inputFormat == (if Includes(input, PunycodePrefix) then Units("punycode") else Units("standard"))
  {
    var parts := Split(ProcessInput(input), Dot);
    var domainParts, conversionMethod := ConvertLabels(parts, toUnicode);
    var output := Join(domainParts, Dot);
    var chosen := if conversionMethod.Some? then conversionMethod.value else Units("none");
    assert |Units("none")| != |Units("punycode")|;
    var analysis := Analysis(
      if Includes(input, PunycodePrefix) then Units("punycode") else Units("standard"),
      |parts|,
      CountPunycodeLabels(parts),
      Domains.ContainsEmoji(output),
      chosen);
    r := LabelConversion(output, analysis, domainParts);
  }

  /** When no label decodes, the output is the processed input itself
      (`domain` stands for the processed input). */
  lemma NothingDecodedKeepsInput(domain: JsString, toUnicode: JsString -> Result<JsString, JsString>)
    requires forall j :: 0 <= j < |Split(domain, Dot)| ==> !Decodes(Split(domain, Dot)[j], toUnicode)
    ensures Join(ConvertedParts(Split(domain, Dot), toUnicode), Dot) == domain
  {
    var parts := Split(domain, Dot);
    assert ConvertedParts(parts, toUnicode) == parts;
    JoinSplit(domain, Dot);
  }

  /** When no decoded label holds a dot, the output has exactly the labels
      of the processed input, each converted or kept. */
  lemma OutputLabels(domain: JsString, toUnicode: JsString -> Result<JsString, JsString>)
    requires forall j :: 0 <= j < |Split(domain, Dot)| && Decodes(Split(domain, Dot)[j], toUnicode)
               ==> Dot !in toUnicode(Split(domain, Dot)[j]).value
    ensures var converted := ConvertedParts(Split(domain, Dot), toUnicode);
      Split(Join(converted, Dot), Dot) == converted
  {
    var parts := Split(domain, Dot);
    var converted := ConvertedParts(parts, toUnicode);
    forall j | 0 <= j < |converted| ensures Dot !in converted[j] {
      if Decodes(parts[j], toUnicode) {
        assert converted[j] == toUnicode(parts[j]).value;
      } else {
        assert converted[j] == parts[j];
      }
    }
    SplitJoin(converted, Dot);
  }

  // ---------------------------------------------------------------------
  // POST /bulk

  const EmojiToPunycodeDirection := Units("emoji-to-punycode")
  const PunycodeToEmojiDirection := Units("punycode-to-emoji")
  const MaxBulkInputs := 50

  const NoInputsError := Units("Must provide array of inputs")
  const TooManyInputsError := Units("Maximum 50 conversions per request")
  const DirectionError := Units("Direction must be \"emoji-to-punycode\" or \"punycode-to-emoji\"")

  /** `['emoji-to-punycode', 'punycode-to-emoji'].includes(direction)`;
      `None` is a direction that is absent or not a string. */
  predicate KnownDirection(direction: Option<JsString>) {
    direction == Some(EmojiToPunycodeDirection) || direction == Some(PunycodeToEmojiDirection)
  }

  /** `parts.map(part => part.startsWith('xn--') ? punycode.toUnicode(part) : part)`:
      the first `xn--` label that the library fails on throws out of the
      map with its message. */
  function MapLabels(parts: seq<JsString>, toUnicode: JsString -> Result<JsString, JsString>)
    : (r: Result<seq<JsString>, JsString>)
    ensures r.Ok? <==> forall j :: 0 <= j < |parts| && IsPunycodeLabel(parts[j]) ==> toUnicode(parts[j]).Ok?
    ensures r.Ok? ==> |r.value| == |parts|
                      && forall j :: 0 <= j < |parts| ==>
                           r.value[j] == if IsPunycodeLabel(parts[j]) then toUnicode(parts[j]).value else parts[j]
    ensures r.Err? ==> exists j :: 0 <= j < |parts| && IsPunycodeLabel(parts[j]) && toUnicode(parts[j]) == Err(r.error)
                         && forall m :: 0 <= m < j ==> !IsPunycodeLabel(parts[m]) || toUnicode(parts[m]).Ok?
    decreases |parts|
  {
    if parts == [] then Ok([])
    else
      var head := if IsPunycodeLabel(parts[0]) then toUnicode(parts[0]) else Ok(parts[0]);
      match head
      case Err(message) => Err(message)
      case Ok(first) =>
        match MapLabels(parts[1..], toUnicode)
        case Err(message) =>
          assert forall j :: 1 <= j < |parts| ==> parts[j] == parts[1..][j - 1];
          Err(message)
        case Ok(labels) => Ok([first] + labels)
  }

  /** When every label of the single route decodes where it has the prefix,
      the bulk mapping gives the same labels. */
  lemma MapLabelsAgrees(parts: seq<JsString>, toUnicode: JsString -> Result<JsString, JsString>)
    requires MapLabels(parts, toUnicode).Ok?
    ensures MapLabels(parts, toUnicode).value == ConvertedParts(parts, toUnicode)
  {
  }

  /** The labels the bulk loop maps: the lower-cased input split on '.'. */
  function LowerLabels(input: JsString): seq<JsString> {
    Split(ToLower(input), Dot)
  }

  /** One item of the bulk loop: the library's `toASCII` of the input, or
      the lower-cased input split on '.', mapped label by label and joined
      back. Toward emoji it succeeds exactly when every `xn--` label
      decodes, and then gives the labels the single route's loop gives; it
      fails with the error of the first `xn--` label that does not decode. */
  function ConvertItem(input: JsString, toPunycode: bool,
                       toASCII: JsString -> Result<JsString, JsString>,
                       toUnicode: JsString -> Result<JsString, JsString>): (r: Result<JsString, JsString>)
    ensures toPunycode ==> r == toASCII(input)
    ensures !toPunycode ==>
              (r.Ok? <==> forall j :: 0 <= j < |LowerLabels(input)| && IsPunycodeLabel(LowerLabels(input)[j]) ==>
                                        toUnicode(LowerLabels(input)[j]).Ok?)
    ensures !toPunycode && r.Ok? ==> r.value == Join(ConvertedParts(LowerLabels(input), toUnicode), Dot)
    ensures !toPunycode && r.Err? ==>
              exists j :: 0 <= j < |LowerLabels(input)| && IsPunycodeLabel(LowerLabels(input)[j])
                          && toUnicode(LowerLabels(input)[j]) == Err(r.error)
                          && forall m :: 0 <= m < j ==> !IsPunycodeLabel(LowerLabels(input)[m]) || toUnicode(LowerLabels(input)[m]).Ok?
  {
    if toPunycode then toASCII(input)
    else
      match MapLabels(LowerLabels(input), toUnicode)
      case Err(message) => Err(message)
      case Ok(labels) =>
        MapLabelsAgrees(LowerLabels(input), toUnicode);
        Ok(Join(labels, Dot))
  }

  /** `{ input, output, success, error }`; `None` is `null`. */
  datatype ItemResult = ItemResult(input: JsString, output: Option<JsString>, success: bool, error: Option<JsString>)

  datatype ConversionSummary = ConversionSummary(total: nat, successful: nat, failed: nat)

  datatype BulkConversion = BulkConversion(results: seq<ItemResult>, summary: ConversionSummary, direction: JsString)

  /** The result pushed for an item: its output and no error, or no output
      and the message of what was thrown. */
  function ItemFor(input: JsString, converted: Result<JsString, JsString>): (item: ItemResult)
    ensures item.input == input && (item.success <==> converted.Ok?)
    ensures item.success ==> item.output == Some(converted.value) && item.error == None
    ensures !item.success ==> item.output == None && item.error == Some(converted.error)
  {
    match converted
    case Ok(output) => ItemResult(input, Some(output), true, None)
    case Err(message) => ItemResult(input, None, false, Some(message))
  }

  /** `results.filter(r => r.success).length` */
  function CountSuccessful(results: seq<ItemResult>): (n: nat)
    ensures n <= |results|
  {
    if results == [] then 0
    else (if results[0].success then 1 else 0) + CountSuccessful(results[1..])
  }

  /** `results.filter(r => !r.success).length` */
  function CountFailed(results: seq<ItemResult>): (n: nat)
    ensures n <= |results|
  {
    if results == [] then 0
    else (if results[0].success then 0 else 1) + CountFailed(results[1..])
  }

  /** Every result is either successful or failed. */
  lemma {:induction false} SuccessPartition(results: seq<ItemResult>)
    ensures CountSuccessful(results) + CountFailed(results) == |results|
  {
    if results != [] {
      SuccessPartition(results[1..]);
    }
  }

  /** All items succeed exactly when none fails. */
  lemma {:induction false} NoneFailed(results: seq<ItemResult>)
    ensures CountFailed(results) == 0 <==> forall j :: 0 <= j < |results| ==> results[j].success
  {
    if results != [] {
      NoneFailed(results[1..]);
      assert forall j :: 1 <= j < |results| ==> results[j] == results[1..][j - 1];
    }
  }

  /** The `/bulk` endpoint: the three bounds checks in order, then one
      result per input, in input order, each depending on that input only,
      and a summary whose counts partition the total. */
  method BulkConvert(inputs: Option<seq<JsString>>, direction: Option<JsString>,
                     toASCII: JsString -> Result<JsString, JsString>,
                     toUnicode: JsString -> Result<JsString, JsString>)
    returns (r: Result<BulkConversion, JsString>)
    ensures inputs.None? || inputs.value == [] ==> r == Err(NoInputsError)
    ensures inputs.Some? && |inputs.value| > MaxBulkInputs ==> r == Err(TooManyInputsError)
    ensures (inputs.Some? && 1 <= |inputs.value| <= MaxBulkInputs && !KnownDirection(direction))
              ==> r == Err(DirectionError)
    ensures r.Ok? <==> inputs.Some? && 1 <= |inputs.value| <= MaxBulkInputs && KnownDirection(direction)
    ensures r.Ok? ==>
              var results := r.value.results;
              Some(r.value.direction) == direction
              && |results| == |inputs.value|
              && (forall j :: 0 <= j < |results| ==>
                    results[j] == ItemFor(inputs.value[j],
                                          ConvertItem(inputs.value[j], direction == Some(EmojiToPunycodeDirection),
                                                      toASCII, toUnicode)))
              && r.value.summary.total == |inputs.value|
              && r.value.summary.successful == CountSuccessful(results)
              && r.value.summary.failed == CountFailed(results)
              && r.value.summary.successful + r.value.summary.failed == r.value.summary.total
  {
    if inputs.None? || |inputs.value| == 0 {
      return Err(NoInputsError);
    }
    var items := inputs.value;
    if |items| > MaxBulkInputs {
      return Err(TooManyInputsError);
    }
    if !KnownDirection(direction) {
      return Err(DirectionError);
    }
    var toPunycode := direction.value == EmojiToPunycodeDirection;
    var results: seq<ItemResult> := [];
    for k := 0 to |items|
      invariant |results| == k
      invariant forall j :: 0 <= j < k ==> results[j] == ItemFor(items[j], ConvertItem(items[j], toPunycode, toASCII, toUnicode))
    {
      var converted := ConvertItem(items[k], toPunycode, toASCII, toUnicode);
      results := results + [ItemFor(items[k], converted)];
    }
    SuccessPartition(results);
    var summary := ConversionSummary(|items|, CountSuccessful(results), CountFailed(results));
    r := Ok(BulkConversion(results, summary, direction.value));
  }
}
