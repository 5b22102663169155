/** How the availability check reads a WHOIS reply: the two indicator
    lists looked up in the lower-cased text, and the two case-insensitive
    regexes `/creation date?:?\s*(.+)/i` and `/registrar:?\s*(.+)/i` whose
    first capture, trimmed, gives the creation date and the registrar. */
module Whois {
  import opened Wrappers
  import opened JsText

  const AvailableIndicators: seq<JsString> := [
    Units("no match"),
    Units("not found"),
    Units("no entries found"),
    Units("domain available"),
    Units("not registered"),
    Units("no data found")
  ]

  const RegisteredIndicators: seq<JsString> := [
    Units("creation date"),
    Units("registered"),
    Units("registrar:"),
    Units("name server"),
    Units("status: active")
  ]

  /** `indicators.some(indicator => lower.includes(indicator))` */
  predicate HasIndicator(lower: JsString, indicators: seq<JsString>) {
    exists j :: 0 <= j < |indicators| && Includes(lower, indicators[j])
  }

  predicate HasAvailableIndicator(lower: JsString) {
    HasIndicator(lower, AvailableIndicators)
  }

  predicate HasRegisteredIndicator(lower: JsString) {
    HasIndicator(lower, RegisteredIndicators)
  }

  /** 'not registered' is listed as an availability indicator, but it
      contains 'registered', so a reply that says it always also shows a
      registered indicator: the check reports such a domain as taken. */
  lemma NotRegisteredShowsRegistered(lower: JsString)
    requires Includes(lower, Units("not registered"))
    ensures HasAvailableIndicator(lower) && HasRegisteredIndicator(lower)
  {
    assert AvailableIndicators[4] == Units("not registered");
    var registered := Units("registered");
    assert Units("not registered")[4..4 + |registered|] == registered;
    IncludesTransitive(lower, Units("not registered"), registered, 4);
    assert RegisteredIndicators[1] == registered;
  }

  // ---------------------------------------------------------------------
  // `text.match(/<key><optional units>\s*(.+)/i)`: the first match, as a
  // backtracking matcher finds it, and its capture.

  /** `key` (lower case) occurs at `j`, ignoring the case of ASCII letters;
      the `/i` flag without `/u` folds no other unit onto an ASCII letter. */
  predicate KeyAt(s: JsString, key: JsString, j: nat) {
    j + |key| <= |s| && ToLower(s[j..j + |key|]) == key
  }

  /** How many whitespace units `\s*` can take from `p`. */
  function BlankRun(s: JsString, p: nat): (count: nat)
    requires p <= |s|
    ensures p + count <= |s|
    ensures forall m :: p <= m < p + count ==> IsWhiteSpace(s[m])
    ensures p + count == |s| || !IsWhiteSpace(s[p + count])
    decreases |s| - p
  {
    if p < |s| && IsWhiteSpace(s[p]) then 1 + BlankRun(s, p + 1) else 0
  }

  /** Where the line that holds `q` ends: `.+` stops at a line terminator. */
  function LineEnd(s: JsString, q: nat): (e: nat)
    requires q <= |s|
    ensures q <= e <= |s|
    ensures forall m :: q <= m < e ==> !IsLineTerminator(s[m])
    ensures e == |s| || IsLineTerminator(s[e])
    decreases |s| - q
  {
    if q < |s| && !IsLineTerminator(s[q]) then LineEnd(s, q + 1) else q
  }

  /** `.+` can start at `q`: there is a unit there and it is not a line
      terminator. */
  predicate CanCapture(s: JsString, q: nat) {
    q < |s| && !IsLineTerminator(s[q])
  }

  /** `v` is what `.+` takes from some start in `lo..hi`: the rest of that
      line. */
  predicate LineRestFrom(s: JsString, lo: nat, hi: nat, v: JsString) {
    exists q: nat :: lo <= q <= hi && q < |s| && v == s[q..LineEnd(s, q)]
  }

  /** `\s*(.+)` from `p`, with `\s*` holding `count` units and giving them
      back one at a time until `.+` can take at least one unit. */
  function TryBlanks(s: JsString, p: nat, count: nat): (c: Option<JsString>)
    requires p + count <= |s|
    ensures c.Some? ==> c.value != [] && LineRestFrom(s, p, p + count, c.value)
    ensures CanCapture(s, p) ==> c.Some?
    decreases count
  {
    var q := p + count;
    if CanCapture(s, q) then Some(s[q..LineEnd(s, q)])
    else if count == 0 then None
    else TryBlanks(s, p, count - 1)
  }

  /** `q` is the last position up to `p + count` where `.+` can start. */
  predicate LatestStart(s: JsString, p: nat, count: nat, q: nat) {
    p <= q <= p + count && CanCapture(s, q)
    && forall q' :: q < q' <= p + count ==> !CanCapture(s, q')
  }

  lemma LatestStartBelow(s: JsString, p: nat, count: nat, q: nat)
    requires LatestStart(s, p, count, q) && q < p + count
    ensures LatestStart(s, p, count - 1, q)
  {
    forall q': nat | q < q' <= p + count - 1 ensures !CanCapture(s, q') {
    }
  }

  /** The capture starts at the last position up to `p + count` where `.+`
      can start. */
  lemma {:induction false} TryBlanksLatest(s: JsString, p: nat, count: nat, q: nat)
    requires p + count <= |s| && LatestStart(s, p, count, q)
    ensures TryBlanks(s, p, count) == Some(s[q..LineEnd(s, q)])
    decreases count
  {
    if q < p + count {
      var rest := TryBlanks(s, p, count - 1);
      assert rest == Some(s[q..LineEnd(s, q)]) by {
        LatestStartBelow(s, p, count, q);
        TryBlanksLatest(s, p, count - 1, q);
      }
      assert TryBlanks(s, p, count) == rest by {
        assert !CanCapture(s, p + count);
      }
    }
  }

  /** There is no capture when `.+` can start nowhere up to `p + count`. */
  lemma {:induction false} TryBlanksNone(s: JsString, p: nat, count: nat)
    requires p + count <= |s|
    requires forall q: nat :: p <= q <= p + count ==> !CanCapture(s, q)
    ensures TryBlanks(s, p, count) == None
    decreases count
  {
    assert !CanCapture(s, p + count);
    if count > 0 {
      TryBlanksNone(s, p, count - 1);
    }
  }

  /** The optional units after the key (`e?:?` or `:?`), each tried taken
      first and then skipped, followed by `\s*(.+)`. Skipping every optional
      unit is always among the attempts, so a capture there means a capture. */
  function TryOptional(s: JsString, p: nat, optional: seq<CodeUnit>): (c: Option<JsString>)
    requires p <= |s|
    ensures TryBlanks(s, p, BlankRun(s, p)).Some? ==> c.Some?
    ensures c.Some? ==> c.value != [] && LineRestFrom(s, p, |s|, c.value)
    ensures CanCapture(s, p) ==> c.Some?
    decreases |optional|
  {
    if optional == [] then TryBlanks(s, p, BlankRun(s, p))
    else
      var taken := if p < |s| && LowerUnit(s[p]) == optional[0] then TryOptional(s, p + 1, optional[1..]) else None;
      if taken.Some? then taken else TryOptional(s, p, optional[1..])
  }

  /** Backtracking order: when the next optional unit is present and the
      rest of the pattern matches after it, that attempt is the one kept;
      only otherwise is the unit skipped. With no optional unit left, what
      remains is `\s*(.+)` with `\s*` taking every blank it can. */
  lemma TakenFirst(s: JsString, p: nat, optional: seq<CodeUnit>)
    requires p <= |s|
    ensures optional == [] ==> TryOptional(s, p, optional) == TryBlanks(s, p, BlankRun(s, p))
    ensures optional != [] ==>
      var taken := p < |s| && LowerUnit(s[p]) == optional[0] && TryOptional(s, p + 1, optional[1..]).Some?;
      (taken ==> TryOptional(s, p, optional) == TryOptional(s, p + 1, optional[1..]))
      && (!taken ==> TryOptional(s, p, optional) == TryOptional(s, p, optional[1..]))
  {
  }

  /** The regex matches with the key at `m`. */
  predicate MatchAt(s: JsString, key: JsString, optional: seq<CodeUnit>, m: nat) {
    KeyAt(s, key, m) && TryOptional(s, m + |key|, optional).Some?
  }

  /** The capture of the match with the key at `m`. */
  function CaptureAt(s: JsString, key: JsString, optional: seq<CodeUnit>, m: nat): JsString
    requires MatchAt(s, key, optional, m)
  {
    TryOptional(s, m + |key|, optional).value
  }

  /** Where the leftmost match at or after `j` has its key: the first
      position that matches, or `None` when no position does. */
  function FirstMatch(s: JsString, key: JsString, optional: seq<CodeUnit>, j: nat): (r: Option<nat>)
    requires j <= |s|
    ensures r.Some? ==> j <= r.value <= |s| && MatchAt(s, key, optional, r.value)
                        && forall m: nat :: j <= m < r.value ==> !MatchAt(s, key, optional, m)
    ensures r.None? ==> forall m: nat :: j <= m <= |s| ==> !MatchAt(s, key, optional, m)
    decreases |s| - j
  {
    if MatchAt(s, key, optional, j) then Some(j)
    else if j == |s| then None
    else
      var r := FirstMatch(s, key, optional, j + 1);
      NoMatchFrom(s, key, optional, j, if r.Some? then r.value else |s| + 1);
      r
  }

  lemma NoMatchFrom(s: JsString, key: JsString, optional: seq<CodeUnit>, j: nat, m: nat)
    requires !MatchAt(s, key, optional, j)
    requires forall m': nat :: j + 1 <= m' < m ==> !MatchAt(s, key, optional, m')
    ensures forall m': nat :: j <= m' < m ==> !MatchAt(s, key, optional, m')
  {
  }

  /** The key is at `m`, the regex matches there, and it matches at no
      earlier position: where `text.match(re)` reports its match. */
  predicate LeftmostMatch(s: JsString, key: JsString, optional: seq<CodeUnit>, m: nat) {
    m <= |s| && MatchAt(s, key, optional, m)
    && forall m': nat :: m' < m ==> !MatchAt(s, key, optional, m')
  }

  /** The capture of the leftmost match: `text.match(re)[1]`, or `None`
      when the regex matches nowhere. */
  function FirstCapture(s: JsString, key: JsString, optional: seq<CodeUnit>): (c: Option<JsString>)
    ensures forall m: nat :: LeftmostMatch(s, key, optional, m) ==> c == Some(CaptureAt(s, key, optional, m))
    ensures (forall m: nat :: m <= |s| ==> !MatchAt(s, key, optional, m)) ==> c == None
    ensures c.Some? ==> c.value != [] && LineRestFrom(s, 0, |s|, c.value)
    ensures c.Some? ==> exists m :: 0 <= m <= |s| && KeyAt(s, key, m)
  {
    match FirstMatch(s, key, optional, 0)
    case None => None
    case Some(m) =>
      LeftmostUnique(s, key, optional, m);
      Some(CaptureAt(s, key, optional, m))
  }

  /** There is at most one leftmost match. */
  lemma LeftmostUnique(s: JsString, key: JsString, optional: seq<CodeUnit>, m: nat)
    requires LeftmostMatch(s, key, optional, m)
    ensures forall m': nat :: LeftmostMatch(s, key, optional, m') ==> m' == m
  {
  }

  /** A capture is a piece of the text that runs to the end of its line and
      holds no line terminator; it is non-empty when it starts on a unit
      that is not a line terminator. */
  lemma CaptureIsLineRest(s: JsString, c: JsString, q: nat)
    requires q < |s| && c == s[q..LineEnd(s, q)]
    ensures CanCapture(s, q) ==> |c| > 0
    ensures forall m :: 0 <= m < |c| ==> !IsLineTerminator(c[m])
    ensures OccursAt(s, c, q)
    ensures q + |c| == |s| || IsLineTerminator(s[q + |c|])
  {
  }

  /** When the key occurs at `m` followed by a unit that is not a line
      terminator, the regex matches there, so there is a first match. */
  lemma CaptureFound(s: JsString, key: JsString, optional: seq<CodeUnit>, m: nat)
    requires KeyAt(s, key, m)
    requires m + |key| < |s| && !IsLineTerminator(s[m + |key|])
    ensures FirstCapture(s, key, optional).Some?
  {
    assert CanCapture(s, m + |key|);
    assert MatchAt(s, key, optional, m);
  }

  const CreationKey := Units("creation dat")
  const CreationOptional: seq<CodeUnit> := ['e' as int, ':' as int]
  const RegistrarKey := Units("registrar")
  const RegistrarOptional: seq<CodeUnit> := [':' as int]

  /** `r` is what `text.match(re)` followed by `[1].trim()` leaves in a
      field: the trimmed capture of the leftmost match, and nothing when
      the regex matches nowhere. */
  predicate TrimmedFirstCapture(text: JsString, key: JsString, optional: seq<CodeUnit>, r: Option<JsString>) {
    (forall m: nat :: m <= |text| && LeftmostMatch(text, key, optional, m) ==> r == Some(Trim(CaptureAt(text, key, optional, m))))
    && ((forall m: nat :: m <= |text| ==> !MatchAt(text, key, optional, m)) ==> r == None)
  }

  /** `whoisData.match(/creation date?:?\s*(.+)/i)`, then `[1].trim()`;
      `None` when there is no match and the field stays absent. */
  function CreationDate(text: JsString): (r: Option<JsString>)
    ensures TrimmedFirstCapture(text, CreationKey, CreationOptional, r)
    ensures r.Some? ==> exists m :: 0 <= m <= |text| && KeyAt(text, CreationKey, m)
    ensures r.Some? && r.value != [] ==> !IsWhiteSpace(r.value[0]) && !IsWhiteSpace(r.value[|r.value| - 1])
  {
    Trimmed(FirstCapture(text, CreationKey, CreationOptional))
  }

  /** `whoisData.match(/registrar:?\s*(.+)/i)`, then `[1].trim()`. */
  function Registrar(text: JsString): (r: Option<JsString>)
    ensures TrimmedFirstCapture(text, RegistrarKey, RegistrarOptional, r)
    ensures r.Some? ==> exists m :: 0 <= m <= |text| && KeyAt(text, RegistrarKey, m)
    ensures r.Some? && r.value != [] ==> !IsWhiteSpace(r.value[0]) && !IsWhiteSpace(r.value[|r.value| - 1])
  {
    Trimmed(FirstCapture(text, RegistrarKey, RegistrarOptional))
  }

  /** A field is found only where its key occurs, and always when some
      occurrence of the key is followed by a unit other than a line
      terminator. */
  lemma FieldPresence(text: JsString)
    ensures CreationDate(text).Some? ==> exists m :: 0 <= m <= |text| && KeyAt(text, CreationKey, m)
    ensures (exists m: nat :: KeyAt(text, CreationKey, m) && m + |CreationKey| < |text|
                              && !IsLineTerminator(text[m + |CreationKey|])) ==> CreationDate(text).Some?
    ensures Registrar(text).Some? ==> exists m :: 0 <= m <= |text| && KeyAt(text, RegistrarKey, m)
    ensures (exists m: nat :: KeyAt(text, RegistrarKey, m) && m + |RegistrarKey| < |text|
                              && !IsLineTerminator(text[m + |RegistrarKey|])) ==> Registrar(text).Some?
  {
    if m: nat :| KeyAt(text, CreationKey, m) && m + |CreationKey| < |text| && !IsLineTerminator(text[m + |CreationKey|]) {
      CaptureFound(text, CreationKey, CreationOptional, m);
    }
    if m: nat :| KeyAt(text, RegistrarKey, m) && m + |RegistrarKey| < |text| && !IsLineTerminator(text[m + |RegistrarKey|]) {
      CaptureFound(text, RegistrarKey, RegistrarOptional, m);
    }
  }

  function Trimmed(c: Option<JsString>): (r: Option<JsString>)
    ensures r.Some? <==> c.Some?
  {
    match c
    case None => None
    case Some(capture) => Some(Trim(capture))
  }

  // ---------------------------------------------------------------------
  // Examples

  /** A reply that starts with the key: its field is the trimmed capture
      of the match there. */
  lemma FieldAtStart(text: JsString, key: JsString, optional: seq<CodeUnit>, capture: JsString)
    requires KeyAt(text, key, 0) && TryOptional(text, |key|, optional) == Some(capture)
    ensures Trimmed(FirstCapture(text, key, optional)) == Some(Trim(capture))
  {
    assert LeftmostMatch(text, key, optional, 0);
  }

  const NextLineReply := Units("registrar:  \n  X")

  lemma NextLineReplyUnits()
    ensures NextLineReply == ['r' as int, 'e' as int, 'g' as int, 'i' as int, 's' as int, 't' as int, 'r' as int, 'a' as int, 'r' as int, ':' as int, ' ' as int, ' ' as int, 0x0A, ' ' as int, ' ' as int, 'X' as int]
  {
  }

  /** `\s*` stops on a unit where `.+` can start, which then runs to the
      end of its line. */
  lemma BlanksThenCapture(s: JsString, p: nat, count: nat)
    requires p + count <= |s| && CanCapture(s, p + count)
    ensures TryBlanks(s, p, count) == Some(s[p + count..LineEnd(s, p + count)])
  {
  }

  /** A single optional unit that is present is taken when the rest then
      matches. */
  lemma OptionalUnitTaken(s: JsString, p: nat, u: CodeUnit, c: JsString)
    requires p < |s| && LowerUnit(s[p]) == u
    requires TryBlanks(s, p + 1, BlankRun(s, p + 1)) == Some(c)
    ensures TryOptional(s, p, [u]) == Some(c)
  {
    assert [u][1..] == [];
    TakenFirst(s, p, [u]);
  }

  lemma NextLineReplyFacts()
    ensures KeyAt(NextLineReply, RegistrarKey, 0)
    ensures LowerUnit(NextLineReply[9]) == ':' as int
    ensures BlankRun(NextLineReply, 10) == 5
    ensures CanCapture(NextLineReply, 15) && LineEnd(NextLineReply, 15) == 16
    ensures NextLineReply[15..16] == ['X' as int]
  {
    var text := NextLineReply;
    NextLineReplyUnits();
    assert text[..9] == RegistrarKey;
    assert BlankRun(text, 15) == 0;
    assert BlankRun(text, 11) == 4;
  }

  lemma CaptureUnits()
    ensures Units("X") == ['X' as int] == Trim(['X' as int])
  {
    TrimUnchanged(['X' as int]);
  }

  /** The line terminator after `registrar:` is white space to `\s*`, so
      the capture is the next line's text. */
  lemma RegistrarOnNextLine()
    ensures Registrar(NextLineReply) == Some(Units("X"))
  {
    NextLineReplyFacts();
    BlanksThenCapture(NextLineReply, 10, 5);
    OptionalUnitTaken(NextLineReply, 9, ':' as int, ['X' as int]);
    RegistrarAtStart(NextLineReply, ['X' as int]);
    CaptureUnits();
  }

  /** A reply that starts with `registrar` followed by a match: the field
      is the trimmed capture of that match. */
  lemma RegistrarAtStart(text: JsString, capture: JsString)
    requires KeyAt(text, RegistrarKey, 0) && TryOptional(text, |RegistrarKey|, [':' as int]) == Some(capture)
    ensures Registrar(text) == Some(Trim(capture))
  {
    FieldAtStart(text, RegistrarKey, RegistrarOptional, capture);
  }

  /** A match with the key at `m`, and no occurrence of the key before it:
      the field is the trimmed capture of that match. */
  lemma FieldAt(text: JsString, key: JsString, optional: seq<CodeUnit>, m: nat, capture: JsString)
    requires KeyAt(text, key, m) && TryOptional(text, m + |key|, optional) == Some(capture)
    requires forall m': nat :: m' < m ==> !KeyAt(text, key, m')
    ensures Trimmed(FirstCapture(text, key, optional)) == Some(Trim(capture))
  {
    assert LeftmostMatch(text, key, optional, m);
  }

  /** Two optional units that are both present are both taken when the
      rest then matches. */
  lemma OptionalUnitsTaken(s: JsString, p: nat, u: CodeUnit, v: CodeUnit, c: JsString)
    requires p + 1 < |s| && LowerUnit(s[p]) == u && LowerUnit(s[p + 1]) == v
    requires TryBlanks(s, p + 2, BlankRun(s, p + 2)) == Some(c)
    ensures TryOptional(s, p, [u, v]) == Some(c)
  {
    OptionalUnitTaken(s, p + 1, v, c);
    assert [u, v][1..] == [v];
    TakenFirst(s, p, [u, v]);
  }

  /** A key occurs only where its first unit does. */
  lemma KeyStartsWith(s: JsString, key: JsString, m: nat)
    requires key != [] && KeyAt(s, key, m)
    ensures LowerUnit(s[m]) == key[0]
  {
    assert ToLower(s[m..m + |key|])[0] == LowerUnit(s[m]);
  }

  /** `.+` from `q` ends at `e` when no line terminator comes before `e`
      and one comes at `e`, or `e` is the end. */
  lemma LineEndAt(s: JsString, q: nat, e: nat)
    requires q <= e <= |s|
    requires forall k :: q <= k < e ==> !IsLineTerminator(s[k])
    requires e == |s| || IsLineTerminator(s[e])
    ensures LineEnd(s, q) == e
  {
  }

  /** The reply of a registry that lists the registrar before the
      creation date: "Registrar: Example Registrar", a line feed, and
      "Creation Date: 1999-01-01" (`RegistrarLineText`,
      `CreationLineText`). */
  const RegistrarLine: JsString := ['R' as int, 'e' as int, 'g' as int, 'i' as int, 's' as int, 't' as int, 'r' as int, 'a' as int, 'r' as int, ':' as int, ' ' as int, 'E' as int, 'x' as int, 'a' as int, 'm' as int, 'p' as int, 'l' as int, 'e' as int, ' ' as int, 'R' as int, 'e' as int, 'g' as int, 'i' as int, 's' as int, 't' as int, 'r' as int, 'a' as int, 'r' as int]
  const CreationLine: JsString := ['C' as int, 'r' as int, 'e' as int, 'a' as int, 't' as int, 'i' as int, 'o' as int, 'n' as int, ' ' as int, 'D' as int, 'a' as int, 't' as int, 'e' as int, ':' as int, ' ' as int, '1' as int, '9' as int, '9' as int, '9' as int, '-' as int, '0' as int, '1' as int, '-' as int, '0' as int, '1' as int]
  const TwoFieldReply := RegistrarLine + [0x0A] + CreationLine

  lemma RegistrarLineText()
    ensures RegistrarLine == Units("Registrar: Example Registrar")
  {
  }

  lemma CreationLineText()
    ensures CreationLine == Units("Creation Date: 1999-01-01")
  {
  }

  lemma RegistrarLineFacts()
    ensures |RegistrarLine| == 28 && ToLower(RegistrarLine[..9]) == RegistrarKey && RegistrarLine[9] == ':' as int
    ensures RegistrarLine[10] == ' ' as int && !IsWhiteSpace(RegistrarLine[11])
  {
  }

  lemma RegistrarLinePlain()
    ensures forall k :: 0 <= k < |RegistrarLine| ==> !IsLineTerminator(RegistrarLine[k]) && LowerUnit(RegistrarLine[k]) != 'c' as int
  {
  }

  lemma RegistrarLineValue()
    ensures RegistrarLine[11..] == Units("Example Registrar")
  {
  }

  lemma CreationLineFacts()
    ensures |CreationLine| == 25 && ToLower(CreationLine[..12]) == CreationKey
    ensures CreationLine[12] == 'e' as int && CreationLine[13] == ':' as int
    ensures CreationLine[14] == ' ' as int && !IsWhiteSpace(CreationLine[15])
  {
  }

  lemma CreationLinePlain()
    ensures forall k :: 0 <= k < |CreationLine| ==> !IsLineTerminator(CreationLine[k])
  {
  }

  lemma CreationLineValue()
    ensures CreationLine[15..] == Units("1999-01-01")
  {
  }

  lemma TwoFieldLayout()
    ensures |TwoFieldReply| == 54 && TwoFieldReply[28] == 0x0A
    ensures forall k :: 0 <= k < 28 ==> TwoFieldReply[k] == RegistrarLine[k]
    ensures forall k :: 29 <= k < 54 ==> TwoFieldReply[k] == CreationLine[k - 29]
    ensures TwoFieldReply[..9] == RegistrarLine[..9] && TwoFieldReply[11..28] == RegistrarLine[11..]
    ensures TwoFieldReply[29..41] == CreationLine[..12] && TwoFieldReply[44..54] == CreationLine[15..]
  {
    RegistrarLineFacts();
    CreationLineFacts();
    assert TwoFieldReply[29..] == CreationLine;
  }

  lemma TwoFieldRegistrarFacts()
    ensures KeyAt(TwoFieldReply, RegistrarKey, 0)
    ensures LowerUnit(TwoFieldReply[9]) == ':' as int
    ensures BlankRun(TwoFieldReply, 10) == 1
    ensures CanCapture(TwoFieldReply, 11) && LineEnd(TwoFieldReply, 11) == 28
  {
    var text := TwoFieldReply;
    RegistrarLineFacts();
    RegistrarLinePlain();
    TwoFieldLayout();
    assert BlankRun(text, 11) == 0;
    LineEndAt(text, 11, 28);
  }

  lemma TwoFieldCreationFacts()
    ensures forall m: nat :: m < 29 ==> LowerUnit(TwoFieldReply[m]) != 'c' as int
    ensures KeyAt(TwoFieldReply, CreationKey, 29)
    ensures LowerUnit(TwoFieldReply[41]) == 'e' as int && LowerUnit(TwoFieldReply[42]) == ':' as int
    ensures BlankRun(TwoFieldReply, 43) == 1
    ensures CanCapture(TwoFieldReply, 44) && LineEnd(TwoFieldReply, 44) == 54
  {
    var text := TwoFieldReply;
    RegistrarLinePlain();
    CreationLineFacts();
    CreationLinePlain();
    TwoFieldLayout();
    assert BlankRun(text, 44) == 0;
    LineEndAt(text, 44, 54);
  }

  /** Each field is read from its own line: the registrar from the first,
      the creation date from the second. */
  lemma TwoFieldExample()
    ensures Registrar(TwoFieldReply) == Some(Units("Example Registrar"))
    ensures CreationDate(TwoFieldReply) == Some(Units("1999-01-01"))
  {
    TwoFieldRegistrar();
    TwoFieldCreationDate();
  }

  lemma TwoFieldRegistrar()
    ensures Registrar(TwoFieldReply) == Some(Units("Example Registrar"))
  {
    var text := TwoFieldReply;
    var value := Units("Example Registrar");
    assert TryBlanks(text, 10, BlankRun(text, 10)) == Some(value) by {
      TwoFieldRegistrarFacts();
      BlanksThenCapture(text, 10, 1);
      assert text[11..28] == value by {
        TwoFieldLayout();
        RegistrarLineValue();
      }
    }
    assert TryOptional(text, 9, [':' as int]) == Some(value) by {
      TwoFieldRegistrarFacts();
      OptionalUnitTaken(text, 9, ':' as int, value);
    }
    assert Registrar(text) == Some(Trim(value)) by {
      TwoFieldRegistrarFacts();
      RegistrarAtStart(text, value);
    }
    RegistrarValueTrimmed();
  }

  lemma RegistrarValueTrimmed()
    ensures Trim(Units("Example Registrar")) == Units("Example Registrar")
  {
    var value := Units("Example Registrar");
    assert value[0] == 'E' as int && value[|value| - 1] == 'r' as int;
    TrimUnchanged(value);
  }

  /** 'creation dat' does not occur on the registrar line. */
  lemma TwoFieldNoEarlierCreationKey()
    ensures forall m: nat :: m < 29 ==> !KeyAt(TwoFieldReply, CreationKey, m)
  {
    TwoFieldCreationFacts();
    forall m: nat | m < 29 ensures !KeyAt(TwoFieldReply, CreationKey, m) {
      if KeyAt(TwoFieldReply, CreationKey, m) {
        KeyStartsWith(TwoFieldReply, CreationKey, m);
      }
    }
  }

  lemma TwoFieldCreationDate()
    ensures CreationDate(TwoFieldReply) == Some(Units("1999-01-01"))
  {
    var text := TwoFieldReply;
    var value := Units("1999-01-01");
    assert TryBlanks(text, 43, BlankRun(text, 43)) == Some(value) by {
      TwoFieldCreationFacts();
      BlanksThenCapture(text, 43, 1);
      assert text[44..54] == value by {
        TwoFieldLayout();
        CreationLineValue();
      }
    }
    assert TryOptional(text, 41, ['e' as int, ':' as int]) == Some(value) by {
      TwoFieldCreationFacts();
      OptionalUnitsTaken(text, 41, 'e' as int, ':' as int, value);
    }
    assert CreationDate(text) == Some(Trim(value)) by {
      TwoFieldCreationFacts();
      TwoFieldNoEarlierCreationKey();
      CreationDateAt(text, 29, value);
    }
    CreationValueTrimmed();
  }

  lemma CreationValueTrimmed()
    ensures Trim(Units("1999-01-01")) == Units("1999-01-01")
  {
    var value := Units("1999-01-01");
    assert value[0] == '1' as int && value[|value| - 1] == '1' as int;
    TrimUnchanged(value);
  }

  lemma CreationDateAt(text: JsString, m: nat, capture: JsString)
    requires KeyAt(text, CreationKey, m) && TryOptional(text, m + |CreationKey|, ['e' as int, ':' as int]) == Some(capture)
    requires forall m': nat :: m' < m ==> !KeyAt(text, CreationKey, m')
    ensures CreationDate(text) == Some(Trim(capture))
  {
    FieldAt(text, CreationKey, CreationOptional, m, capture);
  }
}
