/** The three format checks that both the converter page and the conversion
    route apply to a domain label: no whitespace, none of `<>:"\|?*`, and at
    most 63 UTF-16 code units. */
module DomainFormat {
  import opened JsText

  /** The longest label the checks accept, in code units. */
  const MaxLabelLength := 63

  /** The characters of the class `[<>:"\\|?*]`. */
  predicate IsForbidden(u: int) {
    u == '<' as int || u == '>' as int || u == ':' as int || u == '"' as int
    || u == '\\' as int || u == '|' as int || u == '?' as int || u == '*' as int
  }

  /** `/[<>:"\\|?*]/.test(s)` */
  predicate HasInvalidChars(s: JsString) {
    exists j :: 0 <= j < |s| && IsForbidden(s[j])
  }

  /** `s.length > 63` */
  predicate TooLong(s: JsString) {
    |s| > MaxLabelLength
  }

  /** The failing checks, in the order both validators test them. */
  datatype FormatIssue = Spaces | InvalidCharacters | TooLongLabel

  function Rank(issue: FormatIssue): nat {
    match issue
    case Spaces => 0
    case InvalidCharacters => 1
    case TooLongLabel => 2
  }

  /** The message each validator reports for an issue. */
  function Message(issue: FormatIssue): (m: JsString)
    ensures m != []
  {
    match issue
    case Spaces => Units("Domains cannot contain spaces")
    case InvalidCharacters => Units("Contains invalid characters for domains")
    case TooLongLabel => Units("Domain name too long (max 63 characters)")
  }

  /** The three messages differ, so a list of messages determines the list
      of issues. */
  lemma MessageInjective(a: FormatIssue, b: FormatIssue)
    requires Message(a) == Message(b)
    ensures a == b
  {
    assert |Message(Spaces)| == 29;
    assert |Message(InvalidCharacters)| == 39;
    assert |Message(TooLongLabel)| == 40;
  }

  /** Whether `s` fails the given check. */
  predicate Fails(s: JsString, issue: FormatIssue) {
    match issue
    case Spaces => HasWhiteSpace(s)
    case InvalidCharacters => HasInvalidChars(s)
    case TooLongLabel => TooLong(s)
  }

  /** Every check `s` fails, each once, in check order. */
  function Issues(s: JsString): (r: seq<FormatIssue>)
    ensures forall issue :: issue in r <==> Fails(s, issue)
    ensures forall j, k :: 0 <= j < k < |r| ==> Rank(r[j]) < Rank(r[k]) && r[j] != r[k]
    ensures |r| <= 3
  {
    (if HasWhiteSpace(s) then [Spaces] else [])
    + (if HasInvalidChars(s) then [InvalidCharacters] else [])
    + (if TooLong(s) then [TooLongLabel] else [])
  }

  /** Length 63 passes the length check and 64 fails it. */
  lemma LengthBoundary(s: JsString)
    ensures |s| == 63 ==> TooLongLabel !in Issues(s)
    ensures |s| == 64 ==> TooLongLabel in Issues(s)
  {
  }
}
