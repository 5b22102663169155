/** The JavaScript string operations the converter and the routes rely on,
    over UTF-16 code units: `trim`, `/\s/`, `toLowerCase`, `startsWith`,
    `includes`, `split('.')`, `join('.')`, the `^https?://` strip, and the
    UTF-16 <-> code point conversions behind `/u` regexes and
    `String.fromCodePoint`. */
module JsText {
  import opened Wrappers

  /** One UTF-16 code unit, the value `charCodeAt` returns. */
  type CodeUnit = u: int | 0 <= u < 0x10000

  /** A JavaScript string; its `length` counts code units, so an emoji
      outside the Basic Multilingual Plane counts two. */
  type JsString = seq<CodeUnit>

  /** The label separator '.'. */
  const Dot := '.' as int

  /** The code units of a string literal of the source (all of them lie in
      the Basic Multilingual Plane). */
  function Units(s: string): (r: JsString)
    ensures |r| == |s|
    ensures forall j :: 0 <= j < |s| ==> r[j] == (s[j] as int) % 0x10000
  {
    seq(|s|, j requires 0 <= j < |s| => (s[j] as int) % 0x10000)
  }

  lemma UnitsAppend(a: string, b: string)
    ensures Units(a + b) == Units(a) + Units(b)
  {
    assert forall j :: 0 <= j < |a| + |b| ==> (a + b)[j] == if j < |a| then a[j] else b[j - |a|];
  }

  // ---------------------------------------------------------------------
  // Whitespace: `/\s/` and `trim()` use the same set, ECMAScript's
  // WhiteSpace and LineTerminator productions.

  /** The characters `.` does not match. */
  predicate IsLineTerminator(u: int) {
    u == 0x0A || u == 0x0D || u == 0x2028 || u == 0x2029
  }

  predicate IsWhiteSpace(u: int) {
    u == 0x09 || u == 0x0B || u == 0x0C || u == 0x20 || u == 0xA0 || u == 0x1680
    || (0x2000 <= u <= 0x200A) || u == 0x202F || u == 0x205F || u == 0x3000
    || u == 0xFEFF || IsLineTerminator(u)
  }

  /** `/\s/.test(s)` */
  predicate HasWhiteSpace(s: JsString) {
    exists j :: 0 <= j < |s| && IsWhiteSpace(s[j])
  }

  predicate AllWhiteSpace(s: JsString) {
    forall j :: 0 <= j < |s| ==> IsWhiteSpace(s[j])
  }

  function TrimStart(s: JsString): (r: JsString)
    ensures |r| <= |s| && r == s[|s| - |r|..]
    ensures AllWhiteSpace(s[..|s| - |r|])
    ensures r != [] ==> !IsWhiteSpace(r[0])
  {
    if s != [] && IsWhiteSpace(s[0]) then
      var r := TrimStart(s[1..]);
      assert s[1..][..|s| - 1 - |r|] == s[1..|s| - |r|];
      r
    else s
  }

  function TrimEnd(s: JsString): (r: JsString)
    ensures |r| <= |s| && r == s[..|r|]
    ensures AllWhiteSpace(s[|r|..])
    ensures r != [] ==> !IsWhiteSpace(r[|r| - 1])
  {
    if s != [] && IsWhiteSpace(s[|s| - 1]) then
      var r := TrimEnd(s[..|s| - 1]);
      assert s[..|s| - 1][..|r|] == s[..|r|];
      assert s[|r|..] == s[..|s| - 1][|r|..] + [s[|s| - 1]];
      r
    else s
  }

  /** `s.trim()`: empty exactly when `s` is whitespace only, so `!s.trim()`
      holds exactly for blank strings. */
  function Trim(s: JsString): (r: JsString)
    ensures r == [] <==> AllWhiteSpace(s)
    ensures r != [] ==> !IsWhiteSpace(r[0]) && !IsWhiteSpace(r[|r| - 1])
  {
    TrimBlank(s);
    TrimEnd(TrimStart(s))
  }

  lemma TrimBlank(s: JsString)
    ensures var t := TrimStart(s); var r := TrimEnd(t);
      (r == [] <==> AllWhiteSpace(s)) && (r != [] ==> r[0] == t[0])
  {
    var t := TrimStart(s);
    var r := TrimEnd(t);
    if r == [] {
      assert t[|r|..] == t;
      if t != [] {
        assert false;
      }
      assert s[..|s| - |t|] == s;
    }
  }

  /** A string that neither starts nor ends with whitespace is its own
      trim; in particular trimming twice is trimming once. */
  lemma TrimUnchanged(s: JsString)
    requires s != [] && !IsWhiteSpace(s[0]) && !IsWhiteSpace(s[|s| - 1])
    ensures Trim(s) == s
  {
  }

  // ---------------------------------------------------------------------
  // Case and prefixes

  /** `toLowerCase` on one code unit, for the ASCII letters (the only cased
      characters the domains and registry texts of this model carry). */
  function LowerUnit(u: CodeUnit): (r: CodeUnit)
    ensures 'A' as int <= u <= 'Z' as int ==> r == u + 32
    ensures !('A' as int <= u <= 'Z' as int) ==> r == u
  {
    if 'A' as int <= u <= 'Z' as int then u + 32 else u
  }

  function ToLower(s: JsString): (r: JsString)
    ensures |r| == |s|
    ensures forall j :: 0 <= j < |s| ==> r[j] == LowerUnit(s[j])
  {
    seq(|s|, j requires 0 <= j < |s| => LowerUnit(s[j]))
  }

  /** `s.startsWith(p)` */
  predicate StartsWith(s: JsString, p: JsString) {
    |p| <= |s| && s[..|p|] == p
  }

  /** `p` occurs in `s` at index `j`. */
  predicate OccursAt(s: JsString, p: JsString, j: nat) {
    j + |p| <= |s| && s[j..j + |p|] == p
  }

  /** `s.includes(p)` */
  predicate Includes(s: JsString, p: JsString) {
    exists j: nat | j <= |s| :: OccursAt(s, p, j)
  }

  /** An occurrence of a string that contains `p` contains an occurrence of `p`. */
  lemma IncludesTransitive(s: JsString, q: JsString, p: JsString, offset: nat)
    requires OccursAt(q, p, offset)
    requires Includes(s, q)
    ensures Includes(s, p)
  {
    var j: nat :| j <= |s| && OccursAt(s, q, j);
    forall m | 0 <= m < |p| ensures s[j + offset + m] == p[m] {
      assert s[j + offset + m] == s[j..j + |q|][offset + m] == q[offset + m];
      assert q[offset + m] == q[offset..offset + |p|][m];
    }
    assert s[j + offset..j + offset + |p|] == p;
    assert OccursAt(s, p, j + offset);
  }

  /** `s.replace(/^https?:\/\//, '')` */
  function StripProtocol(s: JsString): JsString
  {
    if StartsWith(s, Units("https://")) then s[8..]
    else if StartsWith(s, Units("http://")) then s[7..]
    else s
  }

  // ---------------------------------------------------------------------
  // split and join

  /** `s.split(sep)` for a one-unit separator: always at least one piece,
      and no piece contains the separator. */
  function Split(s: JsString, sep: CodeUnit): (parts: seq<JsString>)
    ensures |parts| >= 1
    ensures forall j :: 0 <= j < |parts| ==> sep !in parts[j]
    decreases |s|
  {
    if s == [] then [[]]
    else
      var rest := Split(s[1..], sep);
      if s[0] == sep then [[]] + rest
      else [[s[0]] + rest[0]] + rest[1..]
  }

  /** `parts.join(sep)` */
  function Join(parts: seq<JsString>, sep: CodeUnit): JsString
    decreases |parts|
  {
    if |parts| == 0 then []
    else if |parts| == 1 then parts[0]
    else parts[0] + [sep] + Join(parts[1..], sep)
  }

  /** Joining the pieces of a split gives the string back. */
  lemma {:induction false} JoinSplit(s: JsString, sep: CodeUnit)
    ensures Join(Split(s, sep), sep) == s
    decreases |s|
  {
    if s != [] {
      var rest := Split(s[1..], sep);
      JoinSplit(s[1..], sep);
      if s[0] != sep && |rest| > 1 {
        assert rest == [rest[0]] + rest[1..];
        assert Join(rest, sep) == rest[0] + [sep] + Join(rest[1..], sep);
      }
    }
  }

  lemma {:induction false} SplitNoSeparator(p: JsString, sep: CodeUnit)
    requires sep !in p
    ensures Split(p, sep) == [p]
    decreases |p|
  {
    if p != [] {
      SplitNoSeparator(p[1..], sep);
      assert [p[0]] + p[1..] == p;
    }
  }

  lemma {:induction false} SplitAfterPiece(p: JsString, sep: CodeUnit, t: JsString)
    requires sep !in p
    ensures Split(p + [sep] + t, sep) == [p] + Split(t, sep)
    decreases |p|
  {
    if p == [] {
      assert p + [sep] + t == [sep] + t;
      assert ([sep] + t)[1..] == t;
    } else {
      assert (p + [sep] + t)[1..] == p[1..] + [sep] + t;
      SplitAfterPiece(p[1..], sep, t);
      assert [p[0]] + p[1..] == p;
    }
  }

  /** Splitting a join of separator-free pieces gives the pieces back. */
  lemma {:induction false} SplitJoin(parts: seq<JsString>, sep: CodeUnit)
    requires |parts| >= 1
    requires forall j :: 0 <= j < |parts| ==> sep !in parts[j]
    ensures Split(Join(parts, sep), sep) == parts
    decreases |parts|
  {
    if |parts| == 1 {
      SplitNoSeparator(parts[0], sep);
    } else {
      SplitJoin(parts[1..], sep);
      SplitAfterPiece(parts[0], sep, Join(parts[1..], sep));
      assert [parts[0]] + parts[1..] == parts;
    }
  }

  /** The first piece of a split is a prefix, and when there are more pieces
      the rest of the string is the separator followed by their join. */
  lemma FirstPiece(s: JsString, sep: CodeUnit)
    ensures var parts := Split(s, sep);
      StartsWith(s, parts[0])
      && (|parts| == 1 ==> s == parts[0])
      && (|parts| > 1 ==> s == parts[0] + [sep] + Join(parts[1..], sep))
  {
    JoinSplit(s, sep);
  }

  // ---------------------------------------------------------------------
  // Code points

  predicate IsHighSurrogate(u: int) { 0xD800 <= u <= 0xDBFF }
  predicate IsLowSurrogate(u: int) { 0xDC00 <= u <= 0xDFFF }
  predicate IsSurrogate(u: int) { 0xD800 <= u <= 0xDFFF }

  /** The code points a `/u` regex sees: a high surrogate followed by a low
      surrogate is one code point; any other unit is a code point of its own. */
  function CodePoints(s: JsString): (r: seq<int>)
    ensures |r| <= |s|
    ensures forall j :: 0 <= j < |r| ==> 0 <= r[j] <= 0x10FFFF
    decreases |s|
  {
    if s == [] then []
    else if |s| >= 2 && IsHighSurrogate(s[0]) && IsLowSurrogate(s[1]) then
      [0x10000 + (s[0] - 0xD800) * 0x400 + (s[1] - 0xDC00)] + CodePoints(s[2..])
    else [s[0]] + CodePoints(s[1..])
  }

  /** Every code point of a string is one of its units, or the value of a
      surrogate pair, which needs a high surrogate in the string. */
  lemma {:induction false} CodePointsOrigin(s: JsString)
    ensures forall j :: 0 <= j < |CodePoints(s)| ==>
              CodePoints(s)[j] in s || exists m :: 0 <= m < |s| && IsHighSurrogate(s[m])
    decreases |s|
  {
    if s != [] {
      var skip := if |s| >= 2 && IsHighSurrogate(s[0]) && IsLowSurrogate(s[1]) then 2 else 1;
      CodePointsOrigin(s[skip..]);
      forall m | 0 <= m < |s[skip..]|
        ensures s[skip..][m] == s[m + skip]
      {
      }
    }
  }

  /** Without surrogate units, every code unit is a code point of its own. */
  lemma {:induction false} CodePointsWithoutSurrogates(s: JsString)
    requires forall j :: 0 <= j < |s| ==> !IsSurrogate(s[j])
    ensures CodePoints(s) == s
    decreases |s|
  {
    if s != [] {
      CodePointsWithoutSurrogates(s[1..]);
      assert [s[0]] + s[1..] == s;
    }
  }

  /** The UTF-16 units of one valid code point. */
  function EncodeCodePoint(cp: int): (r: JsString)
    requires 0 <= cp <= 0x10FFFF
    ensures 1 <= |r| <= 2
  {
    if cp < 0x10000 then [cp]
    else [0xD800 + (cp - 0x10000) / 0x400, 0xDC00 + (cp - 0x10000) % 0x400]
  }

  /** `String.fromCodePoint(...cps)`: the RangeError for the first value
      outside [0, 0x10FFFF] is `Err` of that value. */
  function FromCodePoints(cps: seq<int>): (r: Result<JsString, int>)
    ensures r.Err? <==> exists j :: 0 <= j < |cps| && !(0 <= cps[j] <= 0x10FFFF)
    ensures r.Err? ==> r.error in cps && !(0 <= r.error <= 0x10FFFF)
    ensures r.Ok? ==> |cps| <= |r.value| <= 2 * |cps|
  {
    if cps == [] then Ok([])
    else if !(0 <= cps[0] <= 0x10FFFF) then Err(cps[0])
    else
      match FromCodePoints(cps[1..])
      case Err(bad) => Err(bad)
      case Ok(rest) => Ok(EncodeCodePoint(cps[0]) + rest)
  }

  /** Reading back the string `String.fromCodePoint` built gives the same code
      points, as long as none of them is a lone surrogate value. */
  lemma {:induction false} CodePointsFromCodePoints(cps: seq<int>)
    requires FromCodePoints(cps).Ok?
    requires forall j :: 0 <= j < |cps| ==> !IsSurrogate(cps[j])
    ensures CodePoints(FromCodePoints(cps).value) == cps
  {
    if cps != [] {
      var cp := cps[0];
      var rest := FromCodePoints(cps[1..]).value;
      CodePointsFromCodePoints(cps[1..]);
      var s := EncodeCodePoint(cp) + rest;
      if cp < 0x10000 {
        assert s[1..] == rest;
      } else {
        assert s[2..] == rest;
        assert 0x10000 + (s[0] as int - 0xD800) * 0x400 + (s[1] as int - 0xDC00) == cp;
      }
    }
  }

  /** `String(n)` for an integer. */
  function Decimal(n: int): (r: JsString)
    ensures r != []
  {
    if n < 0 then ['-' as int] + Digits(-n) else Digits(n)
  }

  function Digits(n: nat): (r: JsString)
    ensures r != []
    ensures forall j :: 0 <= j < |r| ==> '0' as int <= r[j] <= '9' as int
  {
    if n < 10 then ['0' as int + n] else Digits(n / 10) + ['0' as int + n % 10]
  }
}
