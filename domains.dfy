/** The availability routes: `containsEmoji`, `convertEmojiToPunycode`,
    `checkDomainAvailability` over given DNS and WHOIS outcomes, the
    bulk-check aggregation and the suggestion generator. */
module Domains {
  import opened Wrappers
  import opened JsText
  import opened Whois

  // ---------------------------------------------------------------------
  // containsEmoji

  /** The six ranges of the `/u` regex. */
  predicate InEmojiRange(cp: int) {
    (0x1F600 <= cp <= 0x1F64F) || (0x1F300 <= cp <= 0x1F5FF) || (0x1F680 <= cp <= 0x1F6FF)
    || (0x1F1E0 <= cp <= 0x1F1FF) || (0x2600 <= cp <= 0x26FF) || (0x2700 <= cp <= 0x27BF)
  }

  /** `containsEmoji(s)`: some code point of `s` lies in one of the ranges.
      Such an emoji shows in the code units as a high surrogate (the ranges
      above U+FFFF) or as a unit in U+2600..U+27BF. */
  predicate ContainsEmoji(s: JsString): (b: bool)
    ensures b ==> exists m :: 0 <= m < |s| && (IsHighSurrogate(s[m]) || 0x2600 <= s[m] <= 0x27BF)
  {
    CodePointsOrigin(s);
    exists j :: 0 <= j < |CodePoints(s)| && InEmojiRange(CodePoints(s)[j])
  }

  /** An ASCII domain never counts as holding an emoji, so it is looked up
      as it is. */
  lemma AsciiHasNoEmoji(s: JsString)
    requires forall j :: 0 <= j < |s| ==> s[j] < 0x80
    ensures !ContainsEmoji(s)
  {
  }

  /** The emoji of the source's examples, U+1F3E0 HOUSE BUILDING, is found. */
  lemma HouseIsEmoji()
    ensures ContainsEmoji([0xD83C, 0xDFE0])
  {
    var s: JsString := [0xD83C, 0xDFE0];
    assert s[2..] == [];
    assert CodePoints(s)[0] == 0x1F3E0;
  }

  // ---------------------------------------------------------------------
  // convertEmojiToPunycode

  /** `convertEmojiToPunycode(domain)`, with `punycode.toASCII` given as
      `toASCII` (its `Err` is the message of what it throws): the protocol
      is stripped and only the first label is converted. Everything after
      it is kept verbatim, except a lone trailing dot, which is dropped
      because the joined rest is then empty. */
  function ConvertEmojiToPunycode(domain: JsString, toASCII: JsString -> Result<JsString, JsString>)
    : (r: Result<JsString, JsString>)
    ensures var stripped := StripProtocol(domain);
      var first := Split(stripped, Dot)[0];
      |first| <= |stripped| &&
      var rest := stripped[|first|..];
      match toASCII(first)
      case Err(message) => r == Err(Units("Failed to convert domain to punycode: ") + message)
      case Ok(punycoded) => r == Ok(punycoded + if rest == [Dot] then [] else rest)
  {
    ConvertStripped(StripProtocol(domain), toASCII)
  }

  /** convertEmojiToPunycode once the protocol is stripped: `toASCII` of the
      first label, then a dot and the join of the other labels unless that
      join is empty. */
  function ConvertStripped(stripped: JsString, toASCII: JsString -> Result<JsString, JsString>)
    : (r: Result<JsString, JsString>)
    ensures var first := Split(stripped, Dot)[0];
      |first| <= |stripped| &&
      var rest := stripped[|first|..];
      match toASCII(first)
      case Err(message) => r == Err(Units("Failed to convert domain to punycode: ") + message)
      case Ok(punycoded) => r == Ok(punycoded + if rest == [Dot] then [] else rest)
  {
    var parts := Split(stripped, Dot);
    var tld := Join(parts[1..], Dot);
    JoinedRest(stripped);
    match toASCII(parts[0])
    case Err(message) => Err(Units("Failed to convert domain to punycode: ") + message)
    case Ok(punycoded) =>
      AppendJoined(punycoded, tld);
      Ok(if tld != [] then punycoded + [Dot] + tld else punycoded)
  }

  lemma AppendJoined(punycoded: JsString, tld: JsString)
    ensures (if tld != [] then punycoded + [Dot] + tld else punycoded)
            == punycoded + (if tld != [] then [Dot] + tld else [])
  {
    assert punycoded + [Dot] + tld == punycoded + ([Dot] + tld);
    assert punycoded + [] == punycoded;
  }

  /** What the join of the other labels adds back, with its dot, is what
      follows the first label, unless that is a lone dot. */
  lemma JoinedRest(stripped: JsString)
    ensures var parts := Split(stripped, Dot);
      var tld := Join(parts[1..], Dot);
      |parts[0]| <= |stripped| &&
      var rest := stripped[|parts[0]|..];
      (if tld != [] then [Dot] + tld else []) == (if rest == [Dot] then [] else rest)
  {
    var parts := Split(stripped, Dot);
    FirstPiece(stripped, Dot);
    var rest := stripped[|parts[0]|..];
    var tld := Join(parts[1..], Dot);
    if |parts| > 1 {
      assert rest == [Dot] + tld;
      if tld != [] {
        assert |rest| > 1;
      }
    } else {
      assert rest == [] && tld == [];
    }
  }

  // ---------------------------------------------------------------------
  // checkDomainAvailability

  /** What `dns.resolve4` gave: an error with its `code` (possibly
      undefined), or a list of addresses. */
  datatype DnsOutcome = DnsFailed(code: Option<JsString>) | Resolved(addresses: seq<JsString>)

  /** What `whois.lookup` gave: an error with its `message`, or the reply. */
  datatype WhoisOutcome = WhoisFailed(message: JsString) | WhoisReply(text: JsString)

  /** `result.details`; `None` is a property never set. */
  datatype Details = Details(
    dnsRecords: Option<seq<JsString>>,
    dnsError: Option<JsString>,
    whoisSummary: Option<JsString>,
    creationDate: Option<JsString>,
    registrar: Option<JsString>,
    whoisError: Option<JsString>)

  const NoDetails := Details(None, None, None, None, None, None)

  /** The result object; `available` is `true`, `false` or `null` (`None`). */
  datatype CheckResult = CheckResult(
    domain: JsString,
    available: Option<bool>,
    error: Option<JsString>,
    checkMethod: JsString,
    details: Details)

  /** The name that is looked up: the domain with its first label converted
      when it holds an emoji, the domain itself otherwise. */
  function LookupTarget(domain: JsString, toASCII: JsString -> Result<JsString, JsString>)
    : (r: Result<JsString, JsString>)
    ensures !ContainsEmoji(domain) ==> r == Ok(domain)
    ensures ContainsEmoji(domain) ==> r == ConvertEmojiToPunycode(domain, toASCII)
    ensures (forall j :: 0 <= j < |domain| ==> domain[j] < 0x80) ==> r == Ok(domain)
    ensures r.Err? ==> ContainsEmoji(domain)
    ensures ContainsEmoji(domain) ==>
      var stripped := StripProtocol(domain);
      var first := Split(stripped, Dot)[0];
      |first| <= |stripped| &&
      var rest := stripped[|first|..];
      match toASCII(first)
      case Err(message) => r == Err(Units("Failed to convert domain to punycode: ") + message)
      case Ok(punycoded) => r == Ok(punycoded + if rest == [Dot] then [] else rest)
  {
    if ContainsEmoji(domain) then ConvertEmojiToPunycode(domain, toASCII) else Ok(domain)
  }

  /** DNS answers with at least one address. */
  predicate DnsShowsTaken(outcome: DnsOutcome) {
    outcome.Resolved? && |outcome.addresses| > 0
  }

  /** What a DNS answer leaves in `details.dnsError` when it falls through. */
  function DnsErrorCode(outcome: DnsOutcome): Option<JsString> {
    if outcome.DnsFailed? then outcome.code else None
  }

  function Summary(available: Option<bool>): JsString {
    match available
    case Some(true) => Units("Domain appears available")
    case Some(false) => Units("Domain is registered")
    case None => Units("Unable to determine availability")
  }

  /** checkDomainAvailability, with the DNS and WHOIS answers for each name
      given as `dns` and `whois`. The result is built field by field. A
      failed conversion is reported in `error`; at least one DNS address
      settles the check as taken without WHOIS; otherwise the WHOIS reply
      decides, registered indicators first; a WHOIS failure leaves the
      availability unknown and the method 'unknown'. Nothing is thrown. */
  method CheckDomainAvailability(
    domain: JsString,
    toASCII: JsString -> Result<JsString, JsString>,
    dns: JsString -> DnsOutcome,
    whois: JsString -> WhoisOutcome)
    returns (result: CheckResult)
    ensures result.domain == domain
    ensures LookupTarget(domain, toASCII).Err? ==>
              result == CheckResult(domain, None, Some(LookupTarget(domain, toASCII).error), Units("unknown"), NoDetails)
    ensures LookupTarget(domain, toASCII).Ok? && DnsShowsTaken(dns(LookupTarget(domain, toASCII).value)) ==>
              var addresses := dns(LookupTarget(domain, toASCII).value).addresses;
              result == CheckResult(domain, Some(false), None, Units("dns"), NoDetails.(dnsRecords := Some(addresses)))
    ensures LookupTarget(domain, toASCII).Ok? && !DnsShowsTaken(dns(LookupTarget(domain, toASCII).value)) ==>
              var target := LookupTarget(domain, toASCII).value;
              result.details.dnsRecords == None && result.details.dnsError == DnsErrorCode(dns(target))
              && match whois(target)
                 case WhoisFailed(message) =>
                   result.available == None && result.checkMethod == Units("unknown")
                   && result.error == Some(Units("WHOIS lookup failed: ") + message)
                   && result.details.whoisError == Some(message)
                   && result.details.whoisSummary == None
                   && result.details.creationDate == None && result.details.registrar == None
                 case WhoisReply(text) =>
                   var lower := ToLower(text);
                   result.checkMethod == Units("whois") && result.error == None && result.details.whoisError == None
                   && (result.available == Some(true) <==> HasAvailableIndicator(lower) && !HasRegisteredIndicator(lower))
                   && (result.available == Some(false) <==> HasRegisteredIndicator(lower))
                   && (result.available == None <==> !HasAvailableIndicator(lower) && !HasRegisteredIndicator(lower))
                   && result.details.whoisSummary == Some(Summary(result.available))
                   && (HasRegisteredIndicator(lower) ==>
                         result.details.creationDate == CreationDate(text) && result.details.registrar == Registrar(text))
                   && (!HasRegisteredIndicator(lower) ==>
                         result.details.creationDate == None && result.details.registrar == None)
  {
    result := CheckResult(domain, None, None, Units("unknown"), NoDetails);

    var target := LookupTarget(domain, toASCII);
    if target.Err? {
      result := result.(error := Some(target.error));
      return;
    }
    var asciiDomain := target.value;

    match dns(asciiDomain) {
      case Resolved(addresses) =>
        if |addresses| > 0 {
          result := result.(available := Some(false), checkMethod := Units("dns"));
          result := result.(details := result.details.(dnsRecords := Some(addresses)));
          return;
        }
      case DnsFailed(code) =>
        result := result.(details := result.details.(dnsError := code));
    }

    match whois(asciiDomain) {
      case WhoisFailed(message) =>
        result := result.(error := Some(Units("WHOIS lookup failed: ") + message));
        result := result.(details := result.details.(whoisError := Some(message)));
      case WhoisReply(whoisData) =>
        var whoisLower := ToLower(whoisData);
        var hasAvailableIndicator := HasAvailableIndicator(whoisLower);
        var hasRegisteredIndicator := HasRegisteredIndicator(whoisLower);
        if hasAvailableIndicator && !hasRegisteredIndicator {
          result := result.(available := Some(true), checkMethod := Units("whois"));
          result := result.(details := result.details.(whoisSummary := Some(Units("Domain appears available"))));
        } else if hasRegisteredIndicator {
          result := result.(available := Some(false), checkMethod := Units("whois"));
          result := result.(details := result.details.(whoisSummary := Some(Units("Domain is registered"))));
          var creationMatch := CreationDate(whoisData);
          var registrarMatch := Registrar(whoisData);
          if creationMatch.Some? {
            result := result.(details := result.details.(creationDate := creationMatch));
          }
          if registrarMatch.Some? {
            result := result.(details := result.details.(registrar := registrarMatch));
          }
        } else {
          result := result.(available := None, checkMethod := Units("whois"));
          result := result.(details := result.details.(whoisSummary := Some(Units("Unable to determine availability"))));
        }
    }
  }

  /** A reply that says 'not registered' is classified as taken, even though
      the phrase is also an availability indicator. */
  lemma NotRegisteredIsTaken(text: JsString)
    requires Includes(ToLower(text), Units("not registered"))
    ensures HasRegisteredIndicator(ToLower(text))
    ensures !(HasAvailableIndicator(ToLower(text)) && !HasRegisteredIndicator(ToLower(text)))
  {
    NotRegisteredShowsRegistered(ToLower(text));
  }

  // ---------------------------------------------------------------------
  // Bulk check

  /** What `Promise.allSettled` reports for one check: its result, or the
      rejection reason's `message` (`None` when the reason or its message
      is missing). */
  datatype Settled = Fulfilled(value: CheckResult) | Rejected(message: Option<JsString>)

  /** One entry of `processedResults`; `details` is absent for a rejected
      check. */
  datatype BulkEntry = BulkEntry(
    domain: JsString,
    available: Option<bool>,
    error: Option<JsString>,
    checkMethod: JsString,
    details: Option<Details>)

  /** `{ domain: domains[index], ...(fulfilled ? value : failure) }`. */
  function ProcessResult(domain: JsString, settled: Settled): (e: BulkEntry)
    ensures settled.Rejected? ==>
              e.domain == domain && e.available == None && e.checkMethod == Units("failed") && e.details == None
              && e.error.Some? && e.error.value != []
    ensures settled.Rejected? && settled.message.Some? && settled.message.value != [] ==>
              e.error == settled.message
    ensures settled.Fulfilled? ==>
              e.domain == settled.value.domain
              && e.available == settled.value.available && e.checkMethod == settled.value.checkMethod
              && e.error == settled.value.error && e.details == Some(settled.value.details)
  {
    match settled
    case Fulfilled(r) => BulkEntry(r.domain, r.available, r.error, r.checkMethod, Some(r.details))
    case Rejected(message) =>
      var error := if message.Some? && message.value != [] then message.value else Units("Unknown error");
      BulkEntry(domain, None, Some(error), Units("failed"), None)
  }

  datatype BulkSummary = BulkSummary(total: nat, available: nat, taken: nat, errors: nat)

  /** `processedResults.filter(r => r.available === value).length` */
  function CountAvailability(entries: seq<BulkEntry>, value: Option<bool>): (c: nat)
    ensures c <= |entries|
  {
    if entries == [] then 0
    else (if entries[0].available == value then 1 else 0) + CountAvailability(entries[1..], value)
  }

  /** Every entry is counted exactly once: as available, taken or error. */
  lemma {:induction false} CountsPartition(entries: seq<BulkEntry>)
    ensures CountAvailability(entries, Some(true)) + CountAvailability(entries, Some(false))
            + CountAvailability(entries, None) == |entries|
  {
    if entries != [] {
      CountsPartition(entries[1..]);
      match entries[0].available
      case Some(b) => assert b || !b;
      case None =>
    }
  }

  /** The bulk-check route: 1 to 10 domains, else 'Validation failed';
      then one entry per domain, in order, and the summary. */
  function BulkCheck(domains: seq<JsString>, settled: seq<Settled>): (r: Result<(seq<BulkEntry>, BulkSummary), JsString>)
    requires |settled| == |domains|
    ensures r.Err? <==> !(1 <= |domains| <= 10)
    ensures r.Err? ==> r.error == Units("Validation failed")
    ensures r.Ok? ==>
              var (entries, summary) := r.value;
              |entries| == |domains| == summary.total
              && summary.available + summary.taken + summary.errors == summary.total
              && (forall k :: 0 <= k < |domains| ==> entries[k] == ProcessResult(domains[k], settled[k]))
              && summary.available == CountAvailability(entries, Some(true))
              && summary.taken == CountAvailability(entries, Some(false))
              && summary.errors == CountAvailability(entries, None)
  {
    if !(1 <= |domains| <= 10) then Err(Units("Validation failed"))
    else
      var entries := seq(|domains|, k requires 0 <= k < |domains| => ProcessResult(domains[k], settled[k]));
      CountsPartition(entries);
      Ok((entries, BulkSummary(|domains|, CountAvailability(entries, Some(true)),
                               CountAvailability(entries, Some(false)), CountAvailability(entries, None))))
  }

  // ---------------------------------------------------------------------
  // Suggestions

  const Tlds: seq<JsString> := [
    Units(".com"), Units(".io"), Units(".ai"), Units(".ws"),
    Units(".la"), Units(".me"), Units(".co"), Units(".app")
  ]

  /** U+1F31F GLOWING STAR, U+1F48E GEM STONE and U+1F680 ROCKET, as UTF-16. */
  const Star: JsString := [0xD83C, 0xDF1F]
  const Gem: JsString := [0xD83D, 0xDC8E]
  const Rocket: JsString := [0xD83D, 0xDE80]

  const Price := Units("$12-180/year")
  const MaxSuggestions := 20

  function Variations(emoji: JsString): (v: seq<JsString>)
    ensures |v| == 5 && v[0] == emoji
  {
    [emoji, emoji + emoji, emoji + Star, emoji + Gem, Rocket + emoji]
  }

  /** Only the first variation equals the input, since the input is not
      empty. */
  lemma OnlyFirstVariationIsInput(emoji: JsString, v: nat)
    requires emoji != [] && v < 5
    ensures Variations(emoji)[v] == emoji <==> v == 0
  {
    if v > 0 {
      assert |Variations(emoji)[v]| > |emoji|;
    }
  }

  /** The k-th domain the nested loops build: variation-major, TLD-minor. */
  function Candidate(emoji: JsString, k: nat): JsString
    requires k < 40
  {
    Variations(emoji)[k / 8] + Tlds[k % 8]
  }

  lemma CandidateAt(emoji: JsString, v: nat, t: nat, k: nat)
    requires v < 5 && t < 8 && k == 8 * v + t
    ensures k < 40 && Candidate(emoji, k) == Variations(emoji)[v] + Tlds[t]
    ensures (k < 8) == (v == 0)
  {
    assert k / 8 == v && k % 8 == t;
  }

  function Priority(high: bool): JsString {
    if high then Units("high") else Units("medium")
  }

  datatype Suggestion = Suggestion(domain: JsString, punycode: JsString, estimatedPrice: JsString, priority: JsString)

  /** Why no suggestions come back: the input holds no emoji (status 400),
      or a conversion threw (status 500, with its message). */
  datatype SuggestError = NoEmoji | GenerationFailed(message: JsString)

  /** The k-th suggestion, when its conversion succeeds; only the first
      eight, those of the input itself, have priority 'high'. */
  predicate IsSuggestion(emoji: JsString, toASCII: JsString -> Result<JsString, JsString>, k: nat, s: Suggestion) {
    k < 40
    && ConvertEmojiToPunycode(Candidate(emoji, k), toASCII).Ok?
    && s == Suggestion(Candidate(emoji, k), ConvertEmojiToPunycode(Candidate(emoji, k), toASCII).value,
                       Price, Priority(k < 8))
  }

  /** When the suggestions so far were all built and the next conversion
      throws, that is the first conversion that throws. */
  lemma FirstFailure(emoji: JsString, toASCII: JsString -> Result<JsString, JsString>, suggestions: seq<Suggestion>,
                      message: JsString)
    requires |suggestions| < 40
    requires forall m :: 0 <= m < |suggestions| ==> IsSuggestion(emoji, toASCII, m, suggestions[m])
    requires ConvertEmojiToPunycode(Candidate(emoji, |suggestions|), toASCII) == Err(message)
    ensures FirstThrows(emoji, toASCII, |suggestions|, message)
  {
    var k := |suggestions|;
    forall m | 0 <= m < k ensures ConvertEmojiToPunycode(Candidate(emoji, m), toASCII).Ok? {
      assert IsSuggestion(emoji, toASCII, m, suggestions[m]);
    }
  }

  /** When all 40 suggestions were built, no conversion threw. */
  lemma NoFailure(emoji: JsString, toASCII: JsString -> Result<JsString, JsString>, suggestions: seq<Suggestion>)
    requires |suggestions| == 40
    requires forall m :: 0 <= m < |suggestions| ==> IsSuggestion(emoji, toASCII, m, suggestions[m])
    ensures forall k :: 0 <= k < 40 ==> ConvertEmojiToPunycode(Candidate(emoji, k), toASCII).Ok?
  {
    forall k | 0 <= k < 40 ensures ConvertEmojiToPunycode(Candidate(emoji, k), toASCII).Ok? {
      assert IsSuggestion(emoji, toASCII, k, suggestions[k]);
    }
  }

  /** The suggestion the loops build from the v-th variation and the t-th
      TLD is the (8v+t)-th. */
  lemma SuggestionAt(emoji: JsString, toASCII: JsString -> Result<JsString, JsString>, v: nat, t: nat, k: nat,
                     punycode: JsString)
    requires v < 5 && t < 8 && k == 8 * v + t
    requires ConvertEmojiToPunycode(Variations(emoji)[v] + Tlds[t], toASCII) == Ok(punycode)
    ensures IsSuggestion(emoji, toASCII, k, Suggestion(Variations(emoji)[v] + Tlds[t], punycode, Price, Priority(v == 0)))
  {
    CandidateAt(emoji, v, t, k);
  }

  /** Appending the next suggestion keeps every suggestion in its place. */
  lemma AppendSuggestion(emoji: JsString, toASCII: JsString -> Result<JsString, JsString>, built: seq<Suggestion>,
                         s: Suggestion)
    requires forall k :: 0 <= k < |built| ==> IsSuggestion(emoji, toASCII, k, built[k])
    requires IsSuggestion(emoji, toASCII, |built|, s)
    ensures forall k :: 0 <= k < |built + [s]| ==> IsSuggestion(emoji, toASCII, k, (built + [s])[k])
  {
    forall k | 0 <= k < |built + [s]| ensures IsSuggestion(emoji, toASCII, k, (built + [s])[k]) {
      if k < |built| {
        assert (built + [s])[k] == built[k];
      } else {
        assert k == |built| && (built + [s])[k] == s;
      }
    }
  }

  /** The first conversion that throws is the k-th, with this message. */
  predicate FirstThrows(emoji: JsString, toASCII: JsString -> Result<JsString, JsString>, k: nat, message: JsString) {
    k < 40
    && ConvertEmojiToPunycode(Candidate(emoji, k), toASCII) == Err(message)
    && forall m :: 0 <= m < k ==> ConvertEmojiToPunycode(Candidate(emoji, m), toASCII).Ok?
  }

  /** The inner loop of the suggestion route: the eight domains of the
      v-th variation, each converted and appended in TLD order. */
  method SuggestVariation(emoji: JsString, toASCII: JsString -> Result<JsString, JsString>, v: nat,
                          suggestions: seq<Suggestion>)
    returns (r: Result<seq<Suggestion>, JsString>)
    requires emoji != [] && v < 5 && |suggestions| == 8 * v
    requires forall k :: 0 <= k < |suggestions| ==> IsSuggestion(emoji, toASCII, k, suggestions[k])
    ensures r.Ok? ==> |r.value| == 8 * v + 8
                      && forall k :: 0 <= k < |r.value| ==> IsSuggestion(emoji, toASCII, k, r.value[k])
    ensures r.Err? ==> exists k :: FirstThrows(emoji, toASCII, k, r.error)
  {
    OnlyFirstVariationIsInput(emoji, v);
    var variation := Variations(emoji)[v];
    var built := suggestions;
    var t := 0;
    while t < |Tlds|
      invariant 0 <= t <= 8
      invariant |built| == 8 * v + t
      invariant forall k :: 0 <= k < |built| ==> IsSuggestion(emoji, toASCII, k, built[k])
    {
      var domain := variation + Tlds[t];
      CandidateAt(emoji, v, t, |built|);
      var punycode := ConvertEmojiToPunycode(domain, toASCII);
      if punycode.Err? {
        FirstFailure(emoji, toASCII, built, punycode.error);
        return Err(punycode.error);
      }
      var priority := if variation == emoji then Units("high") else Units("medium");
      var suggestion := Suggestion(domain, punycode.value, Price, priority);
      SuggestionAt(emoji, toASCII, v, t, |built|, punycode.value);
      AppendSuggestion(emoji, toASCII, built, suggestion);
      built := built + [suggestion];
      t := t + 1;
    }
    r := Ok(built);
  }

  /** The suggestion route: all 5 x 8 domains are built and converted in
      order, and the first 20 are returned; a conversion that throws fails
      the whole request with its message. */
  method Suggest(emoji: JsString, toASCII: JsString -> Result<JsString, JsString>)
    returns (r: Result<seq<Suggestion>, SuggestError>)
    ensures !ContainsEmoji(emoji) ==> r == Err(NoEmoji)
    ensures ContainsEmoji(emoji) ==>
              (r.Err? <==> exists k :: 0 <= k < 40 && ConvertEmojiToPunycode(Candidate(emoji, k), toASCII).Err?)
    ensures ContainsEmoji(emoji) && r.Err? ==> r.error.GenerationFailed?
    ensures r.Err? && r.error.GenerationFailed? ==> exists k :: FirstThrows(emoji, toASCII, k, r.error.message)
    ensures r.Ok? ==>
              |r.value| == MaxSuggestions
              && forall k :: 0 <= k < MaxSuggestions ==> IsSuggestion(emoji, toASCII, k, r.value[k])
  {
    if !ContainsEmoji(emoji) {
      return Err(NoEmoji);
    }
    assert emoji != [];
    var suggestions: seq<Suggestion> := [];
    var v := 0;
    while v < 5
      invariant 0 <= v <= 5
      invariant |suggestions| == 8 * v
      invariant forall k :: 0 <= k < |suggestions| ==> IsSuggestion(emoji, toASCII, k, suggestions[k])
    {
      var next := SuggestVariation(emoji, toASCII, v, suggestions);
      if next.Err? {
        return Err(GenerationFailed(next.error));
      }
      suggestions := next.value;
      v := v + 1;
    }
    NoFailure(emoji, toASCII, suggestions);
    r := Ok(suggestions[..MaxSuggestions]);
  }
}
