# Emoji domain converter: a Dafny model of its core logic

This project models the logic of an emoji-domain tool. It has a browser page
that turns Punycode labels (`xn--…`) back into emoji, and a backend that
converts domains, checks whether they are available and suggests new ones.
The model covers three parts:

- **The page's hand-written Punycode decoder.** This is the Bootstring
  procedure of RFC 3492 (`punycodeDecoder.adapt` and `decode`). The model
  keeps both of its deviations from the RFC:
  - the digit formula refuses only characters above `'z'`;
  - the accumulator `i` is never range-checked before the `break`.
  
  Around the decoder sit `convertPunycodeToEmoji`, which normalises a domain
  and decodes its first label, and `validateEmojiForDomain`.
- **The availability routes.** This covers `containsEmoji` and
  `convertEmojiToPunycode`. It also covers `checkDomainAvailability`,
  taken as a function of given DNS and WHOIS outcomes, together with the
  WHOIS indicator classification and field extraction. Then come the
  bulk-check aggregation and the suggestion generator.
- **The conversion routes.** These are `validateDomainFormat`, the label loop
  of `/punycode-to-emoji`, and the `/bulk` endpoint with its bounds checks,
  its per-item loop and its summary.

## How the source's data appears in the model

**Strings.** JavaScript strings are sequences of UTF-16 code units
(`JsText.JsString`), so a length check such as `> 63` counts code units, and
an emoji outside the Basic Multilingual Plane counts as two units. The
following builtins are written out:
- `trim` and `/\s/`, with the ECMAScript white-space and line-terminator set;
- `split`, `join`, `startsWith`, `includes` and `lastIndexOf`;
- the protocol-stripping regex `/^https?:\/\//`;
- `String.fromCodePoint`, including its RangeError;
- `toLowerCase`, restricted to ASCII letters.

**Numbers.** The decoder's numbers are unbounded integers. The exceptions are
the places where JavaScript's arithmetic matters, which are written out:
- `Math.floor` of a quotient;
- `%`, whose sign follows the dividend;
- `delta >> 1`, which is ToInt32 followed by floor-halving;
- a bias of `-Infinity`, which arises when `delta + skew` is zero.

**Stateful code as methods.**
- `decode`, `adapt` and the inner digit loop are methods with loops, proved
  equal to the functions `Decoded`, `AdaptBias` and `ReadInteger`.
- The label loop of `/punycode-to-emoji` is a method proved equal to the
  function `ConvertedParts`. The `/bulk` loop is a method whose results
  are stated through `ConvertItem` and `ItemFor`. The suggestion loops
  are stated through `Candidate` and `IsSuggestion`.
- `checkDomainAvailability` is a method that builds its result field by field.
- The other logic is made of functions and lemmas.

**Library calls and I/O as parameters.** The `punycode` library's `toASCII`
and `toUnicode`, `dns.resolve4` and `whois.lookup` are function-typed
parameters. A codec parameter returns `Err(message)` where the library
throws. The bulk check takes the settled outcome of each check as input.

## Model

| member | source | states |
|---|---|---|
| Bootstring.DigitValue | src/components/EmojiDomainConverter.js:61-66 | the digit formula gives RFC 3492 values on letters (0-25) and decimal digits (26-35); it refuses (value 36) exactly the characters above 'z'; it gives negative values exactly to characters below 22 and to the gaps ':'..'@' and '['..'`' |
| Bootstring.Threshold | src/components/EmojiDomainConverter.js:69 | the threshold `t` always lies in [tMin, tMax] = [1, 26], so `base - t` is in [10, 35]; between the clamps it is `k - bias` |
| Bootstring.AdaptLoopCounts | src/components/EmojiDomainConverter.js:28-30 | the loop of adapt adds 36 to `k` per division by 35 and leaves the first quotient that is at most 455 |
| Bootstring.AdaptBias | src/components/EmojiDomainConverter.js:24-32 | adapt's bias is -Infinity exactly when the scaled delta (damped or halved, plus its share of the new length) is -38, and is a non-negative number whenever the scaled delta is not negative |
| Bootstring.AdaptNonNegative | src/components/EmojiDomainConverter.js:24-32 | for a non-negative delta that, in the halving branch (`firstTime` false), is also below 2^31: adapt returns 36 * (number of divisions) + floor(36 d / (d + 38)), where d <= 455 is what the loop leaves; the result is a non-negative finite bias |
| Bootstring.AdaptWrapsNegative | src/components/EmojiDomainConverter.js:26 | the 32-bit limit is needed: `delta >> 1` reads a delta of 0xFFFFFFFE as -2, and adapt then returns the negative bias -2 |
| Bootstring.AdaptWrapsToMinusInfinity | src/components/EmojiDomainConverter.js:26-31 | a delta of 2^32 - 74 with 38 code points is read as -74, scaled to -38, and adapt's division by zero gives the bias -Infinity |
| Bootstring.BiasRemainder | src/components/EmojiDomainConverter.js:31 | for 0 <= d <= 455 the final term floor(36 d / (d + 38)) lies in [0, 33] |
| Bootstring.Adapt | src/components/EmojiDomainConverter.js:24-32 | the loop as written computes the bias the specification function gives, including -Infinity when `delta + skew` is 0 |
| Bootstring.LastIndexOf | src/components/EmojiDomainConverter.js:41 | `lastIndexOf` gives -1 or an index holding the unit, with no later occurrence |
| Bootstring.BasicLength | src/components/EmojiDomainConverter.js:41-44 | `basic` is the position of the last '-', or 0 when there is none; no '-' follows it |
| Bootstring.ReadInteger | src/components/EmojiDomainConverter.js:56-81 | reading one variable-length integer consumes at least one digit and stops within the input |
| Bootstring.JsRemainder | src/components/EmojiDomainConverter.js:91 | JavaScript `%` by a positive divisor lies strictly between minus and plus the divisor, and agrees with the mathematical remainder for a non-negative dividend |
| Bootstring.SplicePosition | src/components/EmojiDomainConverter.js:93 | `splice` inserts at a position in [0, length], counting a negative start from the end |
| Bootstring.InsertOneCodePoint | src/components/EmojiDomainConverter.js:83-93 | each completed integer inserts exactly one code point, or throws 'Overflow' exactly when `floor(i / out) > 0x7FFFFFFF - n`; `n` stays <= 0x7FFFFFFF; the position is `i mod (len + 1)` for `i >= 0`, where `n` does not decrease and the next `i` is >= 1, so the damped branch is not taken again |
| Bootstring.ReadDigits | src/components/EmojiDomainConverter.js:54-81 | the inner loop as written, updating `index`, `i`, `w` and `k`, returns what the specification function ReadInteger returns |
| Bootstring.Decode | src/components/EmojiDomainConverter.js:34-95 | decode as written, with the output list grown by `push` and `splice`, returns what the specification function Decoded returns, error or code points |
| Bootstring.Decoded | src/components/EmojiDomainConverter.js:34-95 | decode throws 'Invalid input' when a code unit before the last '-' is not ASCII; a success has only ASCII units there |
| BootstringProperties.WeightUpdateBound | src/components/EmojiDomainConverter.js:75-80 | when the overflow guard lets a weight update through, `i + w` is at most 0x7FFFFFFF afterwards |
| BootstringProperties.ReadIntegerDigits | src/components/EmojiDomainConverter.js:56-73 | an integer that is read ends on a digit whose value is below tMax = 26, and none of its characters is above 'z' |
| BootstringProperties.ReadIntegerGrows | src/components/EmojiDomainConverter.js:68 | with no negative digit value ahead, reading an integer never decreases `i` |
| BootstringProperties.DecodeRound | src/components/EmojiDomainConverter.js:53-94 | a successful round consists of one integer read, one insertion at a position within the output, and `n` <= 0x7FFFFFFF |
| BootstringProperties.DecodeFromLength | src/components/EmojiDomainConverter.js:53-94 | a successful decode adds exactly one code point per integer read, so the output length is the starting length plus the number of integers; that number is at most the number of remaining digits, at least one when digits remain, and zero when none remain |
| BootstringProperties.DecodeFromKeeps | src/components/EmojiDomainConverter.js:93 | insertion never removes a code point already in the output (multiset inclusion) |
| BootstringProperties.DecodeFromDigits | src/components/EmojiDomainConverter.js:57-66 | a successful decode reads no character above 'z' and ends on a digit below tMax, so a stream that ends mid-integer is rejected |
| BootstringProperties.InsertKeepsBasic | src/components/EmojiDomainConverter.js:93 | inserting a code point >= 0x80 leaves the code points below 0x80, and their order, unchanged |
| BootstringProperties.DecodeFromNonNegative | src/components/EmojiDomainConverter.js:86-93 | with no negative digit values, `i` stays non-negative and `n` >= 128, so every inserted code point lies in [0x80, 0x7FFFFFFF] and the basic code points keep their order |
| BootstringProperties.DecodedShape | src/components/EmojiDomainConverter.js:41-94 | with `b` the position of the last '-': a code unit >= 0x80 before it throws 'Invalid input'; a success keeps those `b` units and has length `b` + the number of integers in the digit stream, so it adds between 1 and |stream| code points for a non-empty stream and returns exactly the `b` units for an empty one; a stream ending mid-integer is rejected |
| BootstringProperties.DecodedNonNegative | src/components/EmojiDomainConverter.js:41-51 | for alphanumeric digit streams, the basic prefix reappears in order and every other code point lies in [0x80, 0x7FFFFFFF] |
| BootstringProperties.PlaceholderInteger | src/components/EmojiDomainConverter.js:56-81 | the digits of `ls8h` read as one integer: 11 + 18*35 + 34*1225 + 7*12250 = 128041 |
| BootstringProperties.PlaceholderInsert | src/components/EmojiDomainConverter.js:83-93 | that integer inserts 128 + 128041 = U+1F4A9 into the empty output, and the damped bias becomes 32 |
| BootstringProperties.PlaceholderDecoded | src/components/EmojiDomainConverter.js:34-95 | the input field's placeholder label `xn--ls8h` decodes to the single code point U+1F4A9 |
| DomainFormat.MessageInjective | backend/routes/conversion.js:36-44 | the three messages differ from each other, so a message names its check |
| DomainFormat.Issues | backend/routes/conversion.js:35-45 | the checks a label fails are listed in the order spaces, invalid characters, too long; each appears at most once, and exactly the failing ones appear |
| DomainFormat.LengthBoundary | backend/routes/conversion.js:43-45 | a label of length 63 passes the length check and one of length 64 fails it |
| EmojiConverter.FirstLabel | src/components/EmojiDomainConverter.js:129-130 | the first label is a dot-free prefix of the normalised domain |
| EmojiConverter.OtherLabels | src/components/EmojiDomainConverter.js:138-139 | what follows the first label is empty or begins with a dot, and together they make up the normalised domain |
| EmojiConverter.ReattachKeepsRest | src/components/EmojiDomainConverter.js:137-141 | re-joining `parts.slice(1)` after the decoded label keeps everything after the first label verbatim |
| EmojiConverter.ConvertPunycodeToEmoji | src/components/EmojiDomainConverter.js:119-149 | a whitespace-only input gives ''; when the first label lacks `xn--`, the result is the input trimmed, lower-cased and stripped of `http(s)://` |
| EmojiConverter.ConvertDecodesFirstLabel | src/components/EmojiDomainConverter.js:133-148 | with `xn--`, only the first label is decoded and the rest is appended verbatim; an exception gives "Error: " + its message |
| EmojiConverter.DecodeLabelReadBack | src/components/EmojiDomainConverter.js:96 | when the decoded code points contain no surrogate values, reading the built string back as code points gives them back |
| EmojiConverter.ValidateEmojiForDomain | src/components/EmojiDomainConverter.js:152-165 | blank input is valid with an empty message; otherwise it is valid iff no check fails, and the message is that of the first failing check (spaces, then invalid characters, then length > 63) |
| EmojiConverter.SpacesExample | src/components/__tests__/EmojiDomainConverter.test.js:83-92 | 'emoji with spaces' gets the spaces message |
| Whois.NotRegisteredShowsRegistered | backend/routes/domains.js:87-110 | text containing 'not registered' shows both an available and a registered indicator |
| Whois.BlankRun | backend/routes/domains.js:122-123 | `\s*` takes a maximal run of whitespace |
| Whois.LineEnd | backend/routes/domains.js:122-123 | `.+` runs to the first line terminator or the end |
| Whois.TryBlanks | backend/routes/domains.js:122-123 | backtracking over `\s*` yields a non-empty capture that runs to the end of its line, and succeeds whenever the next unit is not a line terminator |
| Whois.TryBlanksLatest | backend/routes/domains.js:122-123 | `\s*` gives back units one at a time, so the capture starts at the last position up to the end of the blank run where `.+` can start |
| Whois.TryBlanksNone | backend/routes/domains.js:122-123 | `\s*(.+)` fails when `.+` can start at no position up to the end of the blank run |
| Whois.TryOptional | backend/routes/domains.js:122-123 | skipping every optional unit is always among the attempts, so `\s*(.+)` matching right after the key means a match; any capture is the non-empty rest of a line |
| Whois.FirstMatch | backend/routes/domains.js:122-123 | the key position of the leftmost match: it matches, and no earlier position does; `None` when no position matches |
| Whois.FirstCapture | backend/routes/domains.js:122-123 | `match(re)[1]` is the capture of the leftmost match, and absent when the regex matches nowhere; a match is found only where the key occurs (ASCII case-insensitively), and its capture is the rest of a line |
| Whois.CaptureIsLineRest | backend/routes/domains.js:122-126 | a capture occurs in the text where `.+` started, holds no line terminator, ends at one or at the end of the text, and is non-empty when `.+` starts on a unit that is not a line terminator |
| Whois.CaptureFound | backend/routes/domains.js:122-126 | a key followed by a unit that is not a line terminator always produces a match |
| Whois.FieldPresence | backend/routes/domains.js:121-126 | `creationDate` and `registrar` are present only when their key occurs, and always when the key is followed by a unit that is not a line terminator |
| Whois.CreationDate | backend/routes/domains.js:122-125 | the creation date is the trimmed capture of the leftmost match of `/creation date?:?\s*(.+)/i`, absent when it matches nowhere; it is found only where 'creation dat' occurs (ASCII case-insensitively), and neither starts nor ends with white space |
| Whois.Registrar | backend/routes/domains.js:123-126 | the registrar is the trimmed capture of the leftmost match of `/registrar:?\s*(.+)/i`, absent when it matches nowhere; it is found only where 'registrar' occurs (ASCII case-insensitively), and is trimmed |
| Whois.RegistrarOnNextLine | backend/routes/domains.js:123-126 | for "registrar:  \n  X", `\s*` crosses the line feed, so the registrar is "X" |
| Whois.TwoFieldExample | backend/routes/domains.js:122-126 | for "Registrar: Example Registrar\nCreation Date: 1999-01-01", the registrar is "Example Registrar" and the creation date "1999-01-01" |
| Whois.Trimmed | backend/routes/domains.js:125-126 | the `if (match)` guard keeps a missing capture missing and a present one present |
| Domains.AsciiHasNoEmoji | backend/routes/domains.js:42-45 | an ASCII domain contains no emoji, so it is looked up as it is |
| Domains.ContainsEmoji | backend/routes/domains.js:42-45 | a string holds an emoji only if one of its code units is a high surrogate (the ranges above U+FFFF) or lies in U+2600..U+27BF |
| Domains.HouseIsEmoji | backend/routes/domains.js:42-45 | U+1F3E0, written as its surrogate pair, counts as an emoji |
| Domains.ConvertEmojiToPunycode | backend/routes/domains.js:22-39 | only the first label goes through `toASCII`, and the rest of the domain is kept verbatim except for a lone trailing dot; a throw becomes "Failed to convert domain to punycode: " + message |
| Domains.JoinedRest | backend/routes/domains.js:28-35 | the dot plus the join of the other labels equals what follows the first label, unless that is a lone dot |
| Domains.LookupTarget | backend/routes/domains.js:60 | an ASCII domain is looked up unchanged and only an emoji domain can fail; for an emoji domain the target is `toASCII` of the first label (protocol stripped) followed by the rest of the domain kept verbatim, a lone trailing dot dropped, and a throw gives "Failed to convert domain to punycode: " + its message |
| Domains.CheckDomainAvailability | backend/routes/domains.js:48-144 | the full decision table: a conversion failure sets `error` only; any DNS address gives taken/'dns' without WHOIS; otherwise the DNS error code is recorded, and WHOIS either fails (available null, method 'unknown', error "WHOIS lookup failed: " + message) or classifies the lower-cased text: taken iff a registered indicator, available iff only available indicators, null iff neither; creationDate and registrar only when taken |
| Domains.NotRegisteredIsTaken | backend/routes/domains.js:112-119 | a WHOIS reply saying 'not registered' is classified as taken |
| Domains.ProcessResult | backend/routes/domains.js:214-221 | a rejected check becomes the requested domain with available null, method 'failed', no details, and a non-empty error: its message when that is non-empty; a fulfilled one keeps the result's own domain, availability, method, error and details |
| Domains.CountAvailability | backend/routes/domains.js:229-231 | each count is at most the number of entries |
| Domains.CountsPartition | backend/routes/domains.js:227-232 | available + taken + errors = total |
| Domains.BulkCheck | backend/routes/domains.js:155-233 | not 1 to 10 domains gives 'Validation failed'; otherwise one entry per domain, in input order, and a summary that partitions the total |
| Domains.Variations | backend/routes/domains.js:279-285 | there are five variations, and the first is the input |
| Domains.OnlyFirstVariationIsInput | backend/routes/domains.js:294 | for a non-empty emoji, a variation equals the input exactly when it is the first, so only the first eight suggestions have priority 'high' |
| Domains.CandidateAt | backend/routes/domains.js:287-289 | the domain built for variation v and TLD t is the (8v+t)-th candidate (variation-major order) |
| Domains.SuggestionAt | backend/routes/domains.js:289-295 | a built suggestion holds its domain, the conversion of that domain, the price and the priority |
| Domains.AppendSuggestion | backend/routes/domains.js:290 | pushing the next suggestion keeps all earlier ones in place |
| Domains.FirstFailure | backend/routes/domains.js:287-297 | when conversion throws on the next domain, that is the first throwing candidate |
| Domains.NoFailure | backend/routes/domains.js:287-297 | when all 40 suggestions were built, no conversion threw |
| Domains.SuggestVariation | backend/routes/domains.js:288-296 | the inner loop appends the eight suggestions of one variation in TLD order, or stops at the first conversion that throws |
| Domains.Suggest | backend/routes/domains.js:265-311 | no emoji gives the 400 error; with an emoji the only error is the 500 one, which carries the message of the first candidate whose conversion throws, and the request succeeds iff none throws, returning the first 20 of the 40 suggestions in order |
| Conversion.Messages | backend/routes/conversion.js:36-44 | the message list corresponds issue by issue to the issue list |
| Conversion.ValidateDomainFormat | backend/routes/conversion.js:32-51 | `issues` is the messages of all failing checks, in check order; `valid` holds iff `issues` is empty |
| Conversion.ValidationMessages | backend/routes/conversion.js:35-45 | a message is reported exactly when its check fails |
| Conversion.ValidationMessagesDistinct | backend/routes/conversion.js:35-45 | no message is reported twice |
| Conversion.PageShowsFirstIssue | src/components/EmojiDomainConverter.js:152-165 | on a non-blank label, the page is valid exactly when the route reports no issue, and otherwise it shows the route's first issue |
| Conversion.CountPunycodeLabels | backend/routes/conversion.js:172 | `punycode_parts` is at most the number of labels, and it is 0 exactly when no label starts with `xn--` |
| Conversion.ConvertedParts | backend/routes/conversion.js:150-163 | one label per label: a decoded `xn--` label is replaced by its decoding; every other label, including an `xn--` label that fails to decode, is kept |
| Conversion.ConvertLabels | backend/routes/conversion.js:147-164 | the loop pushes exactly the converted labels, and sets the method to 'punycode' iff some label decoded |
| Conversion.PunycodeToEmoji | backend/routes/conversion.js:139-175 | `domain_parts` has one entry per label of the processed input (`parts_processed`); the output is their join; `punycode_parts` counts the `xn--` labels; `conversion_method` is 'punycode' iff some label decoded, else 'none'; `input_format` is 'punycode' iff the raw input contains `xn--` |
| Conversion.NothingDecodedKeepsInput | backend/routes/conversion.js:145-166 | when no label decodes, the output is the processed input itself |
| Conversion.OutputLabels | backend/routes/conversion.js:145-166 | when no decoded label contains a dot, splitting the output gives back exactly the converted labels |
| Conversion.MapLabels | backend/routes/conversion.js:232-235 | the bulk label map succeeds iff every `xn--` label decodes, then gives one converted label per label; otherwise it fails with the error of the first failing `xn--` label |
| Conversion.MapLabelsAgrees | backend/routes/conversion.js:233-235 | when the bulk map succeeds, it gives the same labels as the single route's loop |
| Conversion.ConvertItem | backend/routes/conversion.js:228-236 | toward Punycode an item is the library's `toASCII` of the input; toward emoji it succeeds exactly when every `xn--` label of the lower-cased input decodes, then gives the labels the single route's loop gives, joined with '.', and otherwise fails with the error of the first `xn--` label that does not decode |
| Conversion.ItemFor | backend/routes/conversion.js:239-252 | a result has success true, the output and a null error, or success false, a null output and the thrown message |
| Conversion.CountSuccessful | backend/routes/conversion.js:258 | the count is at most the number of results |
| Conversion.CountFailed | backend/routes/conversion.js:259 | the count is at most the number of results |
| Conversion.SuccessPartition | backend/routes/conversion.js:256-260 | successful + failed = total |
| Conversion.NoneFailed | backend/routes/conversion.js:259 | failed is 0 exactly when every item succeeded |
| Conversion.BulkConvert | backend/routes/conversion.js:198-260 | rejections in order: no array or empty, more than 50, unknown direction; otherwise one result per input, in order, each from that input alone, and a summary with successful + failed = total = number of inputs |

## Left out

- **Rendering.** The React rendering, state hooks, clipboard and timers of
  the page are not modelled, and neither are `src/App.js` and
  `src/components/EnhancedEmojiDomainConverter.js`. They are UI and network
  glue.
- **Page encoding path.** The page's emoji-to-Punycode path
  (`EmojiDomainConverter.js:101-117`) is not modelled. It consists of the
  `URL` constructor and an `encodeURIComponent` fallback, both foreign code.
- **`/emoji-to-punycode` route.** This route
  (`backend/routes/conversion.js:54-117`) is not modelled. It is the
  library's `toASCII` with a `URL` fallback. Its `validateDomainFormat` call
  is modelled separately.
- **Codec internals.** The `punycode` library's `toASCII` and `toUnicode`
  are parameters, and no property of theirs is assumed. So no round trip
  through the library is stated. The sources contain no encoder, so no
  decode-of-encode round trip is stated for the hand-written decoder
  either.
- **Network I/O.** `dns.resolve4` and `whois.lookup` are left out. Their
  outcomes are inputs. The WHOIS reply is taken to be a string.
- **Concurrency.** The concurrency of `Promise.allSettled` is left out. The
  bulk check maps over already-settled outcomes.
- **express-validator middleware.** Only the bulk check's 1 to 10 bound is
  modelled. The 1–253 and 1–500 length checks, the domain regex, the
  `trim` sanitiser and the 400 response bodies with `details` are left out.
- **Untyped request bodies.** Bulk conversion items are assumed to be
  strings. A non-string direction is modelled as `None`.
- **Logging and timestamps.** Winston logging, `checkedAt`, the
  `timestamp` fields, `/stats`, `/popular-tlds` and the single-check route
  wrapper are left out. The route wrapper only forwards the result.
- **Case mapping.** `toLowerCase` maps only ASCII letters. Non-ASCII case
  mappings, which could change a string's length, are left out.
- Bootstring.AdaptNonNegative: the closed form and the non-negative bias
  are stated only for a halving-branch delta below 2^31. The accumulator
  `i` is not range-checked on an integer's last digit, so `i - oldi` can
  exceed 2^31. `delta >> 1` then wraps, and adapt can return a negative
  bias or -Infinity (`AdaptWrapsNegative`, `AdaptWrapsToMinusInfinity`).
  The model computes those wrapped values as the source does, but proves
  no closed form for them.
- **RangeError text.** The message "Invalid code point " followed by the
  number, which `DecodeLabel` reports for a code point that
  `String.fromCodePoint` refuses, is the V8 engine's wording. ECMAScript
  requires a RangeError but leaves its message to the engine.
- EmojiConverter.DecodeLabelReadBack: stated only for outputs without surrogate
  values. `String.fromCodePoint` accepts lone surrogate values, and reading
  the string back would then pair them.
- Domains.Suggest: the 40 suggestions are all built before slicing to
  20. So a conversion that throws on any of the 40 fails the request, as in
  the source. The order in which a thrown error is reported is that of the
  nested loops.
