/**
 * The Python string operations the bot and the store rely on: `str.isspace`,
 * `str.strip()`, `str.split()`, `str.split(',')`, `sep.join(...)`,
 * `str.lower()` and the substring test `part in s`.
 */
module Text {

  /** Python's `str.isspace` for one character. */
  predicate IsSpace(c: char) {
    var n := c as int;
    (9 <= n <= 13) || (28 <= n <= 32) || n == 0x85 || n == 0xA0 || n == 0x1680
    || (0x2000 <= n <= 0x200A) || n == 0x2028 || n == 0x2029 || n == 0x202F
    || n == 0x205F || n == 0x3000
  }

  predicate NoSpace(s: string) {
    forall i :: 0 <= i < |s| ==> !IsSpace(s[i])
  }

  /** No whitespace at either end: the shape of everything `str.strip()` returns. */
  predicate IsStripped(s: string) {
    s == [] || (!IsSpace(s[0]) && !IsSpace(s[|s| - 1]))
  }

  function TrimLeft(s: string): (r: string)
    ensures |r| <= |s| && r == s[|s| - |r|..]
    ensures r == [] || !IsSpace(r[0])
    ensures forall i :: 0 <= i < |s| - |r| ==> IsSpace(s[i])
  {
    if s != [] && IsSpace(s[0]) then
      var r := TrimLeft(s[1..]);
      assert s[1..][|s| - 1 - |r|..] == s[|s| - |r|..];
      assert forall i :: 1 <= i < |s| - |r| ==> s[i] == s[1..][i - 1];
      r
    else s
  }

  function TrimRight(s: string): (r: string)
    ensures |r| <= |s| && r == s[..|r|]
    ensures r == [] || !IsSpace(r[|r| - 1])
    ensures forall i :: |r| <= i < |s| ==> IsSpace(s[i])
  {
    if s != [] && IsSpace(s[|s| - 1]) then TrimRight(s[..|s| - 1]) else s
  }

  /** Python's `str.strip()`: the slice of `s` left after removing whitespace at both ends. */
  function Strip(s: string): (r: string)
    ensures IsStripped(r)
  {
    var t := TrimLeft(s);
    var r := TrimRight(t);
    assert r != [] ==> r[0] == t[0];
    r
  }

  /** `s.strip()` is the slice of `s` that starts after the leading whitespace. */
  lemma StripOccurs(s: string)
    ensures OccursAt(s, Strip(s), |s| - |TrimLeft(s)|)
  {
    var t := TrimLeft(s);
    var r := TrimRight(t);
    assert Strip(s) == r;
    PrefixOfSuffixOccurs(s, t, r, |s| - |t|);
  }

  /** A prefix of the suffix of `s` starting at `k` occurs in `s` at `k`. */
  lemma PrefixOfSuffixOccurs(s: string, t: string, r: string, k: int)
    requires 0 <= k <= |s| && t == s[k..]
    requires |r| <= |t| && r == t[..|r|]
    ensures OccursAt(s, r, k)
  {
    assert s[k..][..|r|] == s[k..k + |r|];
  }

  /** A character absent from `s` is absent from `s.strip()`. */
  lemma StripAvoids(s: string, c: char)
    requires c !in s
    ensures c !in Strip(s)
  {
    var r := Strip(s);
    var k := |s| - |TrimLeft(s)|;
    StripOccurs(s);
    forall m | 0 <= m < |r| ensures r[m] != c {
      assert r[m] == s[k + m];
    }
  }

  lemma StripOfStripped(s: string)
    requires IsStripped(s)
    ensures Strip(s) == s
  {
  }

  lemma {:induction false} TrimLeftLeadingSpace(pad: string, s: string)
    requires forall i :: 0 <= i < |pad| ==> IsSpace(pad[i])
    ensures TrimLeft(pad + s) == TrimLeft(s)
    decreases |pad|
  {
    if pad != [] {
      assert (pad + s)[0] == pad[0] && IsSpace(pad[0]);
      assert (pad + s)[1..] == pad[1..] + s;
      assert TrimLeft(pad + s) == TrimLeft(pad[1..] + s);
      TrimLeftLeadingSpace(pad[1..], s);
    } else {
      assert pad + s == s;
    }
  }

  lemma {:induction false} TrimRightTrailingSpace(s: string, pad: string)
    requires forall i :: 0 <= i < |pad| ==> IsSpace(pad[i])
    ensures TrimRight(s + pad) == TrimRight(s)
    decreases |pad|
  {
    if pad != [] {
      var n := |pad| - 1;
      assert (s + pad)[|s + pad| - 1] == pad[n];
      assert (s + pad)[..|s + pad| - 1] == s + pad[..n];
      TrimRightTrailingSpace(s, pad[..n]);
    } else {
      assert s + pad == s;
    }
  }

  /** A stripped text followed by whitespace strips back to itself. */
  lemma StripTrailingSpace(s: string, pad: string)
    requires s != [] && IsStripped(s)
    requires forall i :: 0 <= i < |pad| ==> IsSpace(pad[i])
    ensures Strip(s + pad) == s
  {
    assert (s + pad)[0] == s[0];
    assert TrimLeft(s + pad) == s + pad;
    TrimRightTrailingSpace(s, pad);
  }

  /** A stripped text with whitespace on either side strips back to itself. */
  lemma StripPadded(pad: string, s: string, tail: string)
    requires s != [] && IsStripped(s)
    requires forall i :: 0 <= i < |pad| ==> IsSpace(pad[i])
    requires forall i :: 0 <= i < |tail| ==> IsSpace(tail[i])
    ensures Strip(pad + s + tail) == s
  {
    assert pad + s + tail == pad + (s + tail);
    StripLeadingSpace(pad, s + tail);
    StripTrailingSpace(s, tail);
  }

  /** Whitespace in front of a string does not change what `strip()` returns. */
  lemma StripLeadingSpace(pad: string, s: string)
    requires forall i :: 0 <= i < |pad| ==> IsSpace(pad[i])
    ensures Strip(pad + s) == Strip(s)
  {
    TrimLeftLeadingSpace(pad, s);
  }

  // ---------------------------------------------------------------------------
  // Case
  // ---------------------------------------------------------------------------

  predicate IsUpper(c: char) {
    'A' <= c <= 'Z'
  }

  /** The ASCII lower-casing of SQLite's `lower()`. */
  function LowerChar(c: char): (r: char)
    ensures !IsUpper(r)
    ensures IsSpace(r) == IsSpace(c)
    ensures r == ',' <==> c == ','
    ensures !IsUpper(c) ==> r == c
  {
    if IsUpper(c) then (c as int + 32) as char else c
  }

  function Lower(s: string): (r: string)
    ensures |r| == |s|
    ensures forall i :: 0 <= i < |s| ==> r[i] == LowerChar(s[i])
  {
    seq(|s|, i requires 0 <= i < |s| => LowerChar(s[i]))
  }

  lemma LowerTail(s: string)
    requires s != []
    ensures Lower(s)[0] == LowerChar(s[0]) && Lower(s)[1..] == Lower(s[1..])
  {
  }

  predicate IsLowerCase(s: string) {
    forall i :: 0 <= i < |s| ==> !IsUpper(s[i])
  }

  lemma LowerIsLowerCase(s: string)
    ensures IsLowerCase(Lower(s))
  {
  }

  lemma LowerOfLowerCase(s: string)
    requires IsLowerCase(s)
    ensures Lower(s) == s
  {
  }

  lemma LowerKeepsStripped(s: string)
    requires IsStripped(s)
    ensures IsStripped(Lower(s))
  {
  }

  lemma LowerConcat(a: string, b: string)
    ensures Lower(a + b) == Lower(a) + Lower(b)
  {
  }

  // ---------------------------------------------------------------------------
  // Substrings
  // ---------------------------------------------------------------------------

  predicate StartsWith(s: string, prefix: string) {
    |prefix| <= |s| && s[..|prefix|] == prefix
  }

  lemma StartsWithCons(s: string, prefix: string)
    requires s != [] && prefix != []
    ensures StartsWith(s, prefix) <==> s[0] == prefix[0] && StartsWith(s[1..], prefix[1..])
  {
    if StartsWith(s, prefix) {
      assert s[1..][..|prefix| - 1] == s[..|prefix|][1..];
    }
    if s[0] == prefix[0] && StartsWith(s[1..], prefix[1..]) {
      assert s[..|prefix|] == [s[0]] + s[1..][..|prefix| - 1];
      assert prefix == [prefix[0]] + prefix[1..];
    }
  }

  /** `part` is found in `s` starting at index `i`. */
  predicate OccursAt(s: string, part: string, i: int) {
    0 <= i && i + |part| <= |s| && s[i..i + |part|] == part
  }

  /** Python's `part in s`. */
  predicate Contains(s: string, part: string): (b: bool)
    ensures b ==> |part| <= |s|
    decreases |s|
  {
    StartsWith(s, part) || (s != [] && Contains(s[1..], part))
  }

  lemma {:induction false} ContainsAt(s: string, part: string, i: int)
    requires OccursAt(s, part, i)
    ensures Contains(s, part)
    decreases i
  {
    if i > 0 {
      assert s[1..][i - 1..i - 1 + |part|] == s[i..i + |part|];
      ContainsAt(s[1..], part, i - 1);
    }
  }

  lemma {:induction false} ContainsIndex(s: string, part: string) returns (i: int)
    requires Contains(s, part)
    ensures OccursAt(s, part, i)
    decreases |s|
  {
    if StartsWith(s, part) {
      i := 0;
    } else {
      var j := ContainsIndex(s[1..], part);
      assert s[1..][j..j + |part|] == s[j + 1..j + 1 + |part|];
      i := j + 1;
    }
  }

  /** A substring of a substring is a substring. */
  lemma ContainsTransitive(a: string, b: string, c: string)
    requires Contains(a, b) && Contains(b, c)
    ensures Contains(a, c)
  {
    var i := ContainsIndex(a, b);
    var j := ContainsIndex(b, c);
    forall k | 0 <= k < |c| ensures a[i + j + k] == c[k] {
      assert c[k] == b[j + k] == a[i + j + k];
    }
    assert a[i + j..i + j + |c|] == c;
    ContainsAt(a, c, i + j);
  }

  /** Lower-casing both sides keeps a substring a substring. */
  lemma ContainsLower(s: string, part: string)
    requires Contains(s, part)
    ensures Contains(Lower(s), Lower(part))
  {
    var i := ContainsIndex(s, part);
    assert Lower(s)[i..i + |part|] == Lower(part);
    ContainsAt(Lower(s), Lower(part), i);
  }

  /** A text without two adjacent characters `a`, `b` does not contain `[a, b]`. */
  lemma {:induction false} LacksPair(s: string, a: char, b: char)
    requires forall i :: 0 <= i < |s| - 1 ==> s[i] != a || s[i + 1] != b
    ensures !Contains(s, [a, b])
    decreases |s|
  {
    if s != [] {
      if |s| >= 2 {
        assert s[..2] == [s[0], s[1]];
      }
      LacksPair(s[1..], a, b);
    }
  }

  // ---------------------------------------------------------------------------
  // Splitting and joining
  // ---------------------------------------------------------------------------

  /** Python's `s.split(sep)` for a one-character separator: never an empty list. */
  function SplitOn(s: string, sep: char): (r: seq<string>)
    ensures |r| >= 1
    ensures forall i :: 0 <= i < |r| ==> sep !in r[i]
    ensures StartsWith(s, r[0])
    decreases |s|
  {
    if s == [] then [[]]
    else
      var rest := SplitOn(s[1..], sep);
      if s[0] == sep then [[]] + rest
      else [[s[0]] + rest[0]] + rest[1..]
  }

  /** Python's `sep.join(parts)`. */
  function JoinWith(sep: string, parts: seq<string>): string
  {
    if |parts| == 0 then []
    else if |parts| == 1 then parts[0]
    else parts[0] + sep + JoinWith(sep, parts[1..])
  }

  lemma {:induction false} SplitOnWithoutSep(s: string, sep: char)
    requires sep !in s
    ensures SplitOn(s, sep) == [s]
    decreases |s|
  {
    if s != [] {
      SplitOnWithoutSep(s[1..], sep);
      assert [s[0]] + s[1..] == s;
    }
  }

  lemma {:induction false} SplitOnAfterPiece(a: string, sep: char, b: string)
    requires sep !in a
    ensures SplitOn(a + [sep] + b, sep) == [a] + SplitOn(b, sep)
    decreases |a|
  {
    var s := a + [sep] + b;
    if a == [] {
      assert s[1..] == b;
    } else {
      assert s[1..] == a[1..] + [sep] + b;
      SplitOnAfterPiece(a[1..], sep, b);
      assert [a[0]] + a[1..] == a;
    }
  }

  /** Splitting on a separator undoes joining with it, when no part holds the separator. */
  lemma {:induction false} SplitJoinRoundTrip(parts: seq<string>, sep: char)
    requires |parts| >= 1
    requires forall i :: 0 <= i < |parts| ==> sep !in parts[i]
    ensures SplitOn(JoinWith([sep], parts), sep) == parts
    decreases |parts|
  {
    if |parts| == 1 {
      SplitOnWithoutSep(parts[0], sep);
    } else {
      SplitJoinRoundTrip(parts[1..], sep);
      SplitOnAfterPiece(parts[0], sep, JoinWith([sep], parts[1..]));
      assert [parts[0]] + parts[1..] == parts;
    }
  }

  /** Every piece of a split is a substring of what was split. */
  lemma {:induction false} SplitOnPiecesOccur(s: string, sep: char)
    ensures forall i :: 0 <= i < |SplitOn(s, sep)| ==> Contains(s, SplitOn(s, sep)[i])
    decreases |s|
  {
    var r := SplitOn(s, sep);
    if s != [] {
      var rest := SplitOn(s[1..], sep);
      SplitOnPiecesOccur(s[1..], sep);
      forall i | 0 <= i < |r| ensures Contains(s, r[i]) {
        if s[0] == sep {
          if i == 0 {
            assert StartsWith(s, r[0]);
          } else {
            assert r[i] == rest[i - 1] && Contains(s[1..], r[i]);
          }
        } else if i == 0 {
          assert s[..|r[0]|] == [s[0]] + s[1..][..|rest[0]|];
          assert StartsWith(s, r[0]);
        } else {
          assert r[i] == rest[i] && Contains(s[1..], r[i]);
        }
      }
    } else {
      assert StartsWith(s, r[0]);
    }
  }

  /** `[p.strip() for p in parts if p.strip()]`. */
  function NonBlankStripped(parts: seq<string>): (r: seq<string>)
    ensures |r| <= |parts|
    ensures forall i :: 0 <= i < |r| ==> r[i] != [] && IsStripped(r[i])
  {
    if parts == [] then []
    else
      var t := Strip(parts[0]);
      var rest := NonBlankStripped(parts[1..]);
      if t != [] then [t] + rest else rest
  }

  /**
   * The comma-separated terms of `s`: `[k.strip() for k in s.split(',') if k.strip()]`.
   * Each is non-empty, has no whitespace at its ends, and holds no comma.
   */
  function CommaTerms(s: string): (r: seq<string>)
  {
    NonBlankStripped(SplitOn(s, ','))
  }

  lemma {:induction false} NonBlankStrippedAvoids(parts: seq<string>, sep: char)
    requires forall p :: p in parts ==> sep !in p
    ensures forall t :: t in NonBlankStripped(parts) ==> sep !in t
  {
    if parts != [] {
      NonBlankStrippedAvoids(parts[1..], sep);
      StripAvoids(parts[0], sep);
    }
  }

  lemma {:induction false} NonBlankStrippedWithin(parts: seq<string>, s: string)
    requires forall i :: 0 <= i < |parts| ==> Contains(s, parts[i])
    ensures forall i :: 0 <= i < |NonBlankStripped(parts)| ==> Contains(s, NonBlankStripped(parts)[i])
  {
    if parts != [] {
      NonBlankStrippedWithin(parts[1..], s);
      StripOccurs(parts[0]);
      ContainsAt(parts[0], Strip(parts[0]), |parts[0]| - |TrimLeft(parts[0])|);
      ContainsTransitive(s, parts[0], Strip(parts[0]));
    }
  }

  /** Every comma term holds no comma and is a substring of the string it came from. */
  lemma CommaTermsOccur(s: string)
    ensures forall i :: 0 <= i < |CommaTerms(s)| ==>
      ',' !in CommaTerms(s)[i] && Contains(s, CommaTerms(s)[i])
  {
    var parts := SplitOn(s, ',');
    NonBlankStrippedAvoids(parts, ',');
    SplitOnPiecesOccur(s, ',');
    NonBlankStrippedWithin(parts, s);
  }

  /** Terms that are already stripped and non-empty come back unchanged from the filter. */
  lemma {:induction false} NonBlankStrippedOfTerms(ts: seq<string>)
    requires forall i :: 0 <= i < |ts| ==> ts[i] != [] && IsStripped(ts[i])
    ensures NonBlankStripped(ts) == ts
  {
    if ts != [] {
      StripOfStripped(ts[0]);
      NonBlankStrippedOfTerms(ts[1..]);
      assert [ts[0]] + ts[1..] == ts;
    }
  }

  /** Reading back a comma-joined list of clean terms gives the same terms. */
  lemma CommaTermsOfJoin(ts: seq<string>)
    requires forall i :: 0 <= i < |ts| ==> ts[i] != [] && IsStripped(ts[i]) && ',' !in ts[i]
    ensures CommaTerms(JoinWith(",", ts)) == ts
  {
    if ts == [] {
      assert SplitOn([], ',') == [[]];
      assert Strip([]) == [];
    } else {
      SplitJoinRoundTrip(ts, ',');
      NonBlankStrippedOfTerms(ts);
    }
  }

  // ---------------------------------------------------------------------------
  // Whitespace tokens
  // ---------------------------------------------------------------------------

  /** The longest prefix of `s` without whitespace. */
  function Word(s: string): (w: string)
    ensures |w| <= |s| && w == s[..|w|]
    ensures NoSpace(w)
    ensures |w| < |s| ==> IsSpace(s[|w|])
  {
    if s == [] || IsSpace(s[0]) then [] else [s[0]] + Word(s[1..])
  }

  /** Python's `s.split()` with no argument: the maximal runs of non-whitespace. */
  function SplitWs(s: string): (r: seq<string>)
    ensures forall i :: 0 <= i < |r| ==> r[i] != [] && NoSpace(r[i])
    decreases |s|
  {
    if s == [] then []
    else if IsSpace(s[0]) then SplitWs(s[1..])
    else
      var w := Word(s);
      [w] + SplitWs(s[|w|..])
  }

  /** A list of tokens that `str.split()` could have produced. */
  predicate IsTokens(ts: seq<string>) {
    forall i :: 0 <= i < |ts| ==> ts[i] != [] && NoSpace(ts[i])
  }

  lemma {:induction false} WordBeforeSpace(t: string, rest: string)
    requires NoSpace(t)
    requires rest == [] || IsSpace(rest[0])
    ensures Word(t + rest) == t
    decreases |t|
  {
    if t != [] {
      assert (t + rest)[1..] == t[1..] + rest;
      WordBeforeSpace(t[1..], rest);
      assert [t[0]] + t[1..] == t;
    }
  }

  /** `" ".join(ts).split() == ts` for tokens. */
  lemma {:induction false} SplitWsJoinRoundTrip(ts: seq<string>)
    requires IsTokens(ts)
    ensures SplitWs(JoinWith(" ", ts)) == ts
    decreases |ts|
  {
    if |ts| == 1 {
      WordBeforeSpace(ts[0], []);
      assert ts[0] + [] == ts[0];
      assert ts[0][|ts[0]|..] == [];
    } else if |ts| > 1 {
      var rest := JoinWith(" ", ts[1..]);
      var s := ts[0] + " " + rest;
      assert s == ts[0] + (" " + rest);
      WordBeforeSpace(ts[0], " " + rest);
      assert s[|ts[0]|..] == " " + rest;
      assert (" " + rest)[1..] == rest;
      SplitWsJoinRoundTrip(ts[1..]);
      assert [ts[0]] + ts[1..] == ts;
    }
  }

  /** `" ".join(ts)` of at least one token has no whitespace at its ends. */
  lemma {:induction false} JoinTokensStripped(ts: seq<string>)
    requires IsTokens(ts) && ts != []
    ensures var j := JoinWith(" ", ts); j != [] && IsStripped(j)
    decreases |ts|
  {
    if |ts| > 1 {
      JoinTokensStripped(ts[1..]);
      var rest := JoinWith(" ", ts[1..]);
      var j := ts[0] + " " + rest;
      assert j[0] == ts[0][0];
      assert j[|j| - 1] == rest[|rest| - 1];
    }
  }

  /** Whitespace only (possibly empty). */
  predicate AllSpace(s: string) {
    forall i :: 0 <= i < |s| ==> IsSpace(s[i])
  }

  /** The tokens `ts`, each preceded by its gap, followed by `tail`. */
  function Layout(gaps: seq<string>, ts: seq<string>, tail: string): string
    requires |gaps| == |ts|
  {
    if ts == [] then tail else gaps[0] + ts[0] + Layout(gaps[1..], ts[1..], tail)
  }

  /**
   * A text laid out from tokens: the gaps and the tail are whitespace, and
   * every gap between two tokens holds at least one whitespace character.
   */
  predicate IsLayout(gaps: seq<string>, ts: seq<string>, tail: string) {
    && |gaps| == |ts|
    && IsTokens(ts)
    && (forall i :: 0 <= i < |gaps| ==> AllSpace(gaps[i]))
    && (forall i :: 0 < i < |gaps| ==> gaps[i] != [])
    && AllSpace(tail)
  }

  /** Leading whitespace does not change the words `str.split()` finds. */
  lemma {:induction false} SplitWsLeadingSpace(pad: string, s: string)
    requires AllSpace(pad)
    ensures SplitWs(pad + s) == SplitWs(s)
    decreases |pad|
  {
    if pad != [] {
      assert (pad + s)[0] == pad[0];
      assert (pad + s)[1..] == pad[1..] + s;
      SplitWsLeadingSpace(pad[1..], s);
    } else {
      assert pad + s == s;
    }
  }

  /** A token followed by whitespace (or nothing) is the first word, and splitting goes on after it. */
  lemma SplitWsAfterToken(t: string, rest: string)
    requires t != [] && NoSpace(t)
    requires rest == [] || IsSpace(rest[0])
    ensures SplitWs(t + rest) == [t] + SplitWs(rest)
  {
    WordBeforeSpace(t, rest);
    assert (t + rest)[0] == t[0];
    assert (t + rest)[|t|..] == rest;
  }

  /** Dropping the first token and its gap leaves a layout. */
  lemma LayoutTail(gaps: seq<string>, ts: seq<string>, tail: string)
    requires IsLayout(gaps, ts, tail) && ts != []
    ensures IsLayout(gaps[1..], ts[1..], tail)
  {
    forall i | 0 <= i < |ts| - 1 ensures ts[1..][i] != [] && NoSpace(ts[1..][i]) {
      assert ts[1..][i] == ts[i + 1];
    }
  }

  /** What follows the first token of a layout is empty or starts with whitespace. */
  lemma LayoutAfterFirst(gaps: seq<string>, ts: seq<string>, tail: string)
    requires IsLayout(gaps, ts, tail) && ts != []
    ensures var rest := Layout(gaps[1..], ts[1..], tail); rest == [] || IsSpace(rest[0])
  {
    if |ts| > 1 {
      var rest := Layout(gaps[1..], ts[1..], tail);
      assert gaps[1..][0] == gaps[1] && gaps[1] != [] && AllSpace(gaps[1]);
      assert rest == gaps[1] + (ts[1] + Layout(gaps[2..], ts[2..], tail));
      assert rest[0] == gaps[1][0];
    }
  }

  /** `str.split()` returns the tokens of any layout of them, whatever whitespace surrounds them. */
  lemma {:induction false} SplitWsLayout(gaps: seq<string>, ts: seq<string>, tail: string)
    requires IsLayout(gaps, ts, tail)
    ensures SplitWs(Layout(gaps, ts, tail)) == ts
    decreases |ts|
  {
    if ts == [] {
      assert tail + [] == tail;
      SplitWsLeadingSpace(tail, []);
    } else {
      var rest := Layout(gaps[1..], ts[1..], tail);
      LayoutTail(gaps, ts, tail);
      LayoutAfterFirst(gaps, ts, tail);
      assert Layout(gaps, ts, tail) == gaps[0] + (ts[0] + rest);
      SplitWsLeadingSpace(gaps[0], ts[0] + rest);
      SplitWsAfterToken(ts[0], rest);
      SplitWsLayout(gaps[1..], ts[1..], tail);
      assert [ts[0]] + ts[1..] == ts;
    }
  }

  // ---------------------------------------------------------------------------
  // Numbers
  // ---------------------------------------------------------------------------

  predicate IsDigit(c: char) {
    '0' <= c <= '9'
  }

  function DigitValue(c: char): int {
    c as int - '0' as int
  }

  /** The number a string of decimal digits spells, as Python's `int(s)` reads it. */
  function DigitsValue(s: string): int {
    if s == [] then 0 else DigitsValue(s[..|s| - 1]) * 10 + DigitValue(s[|s| - 1])
  }

  /** Python's `str(n)` for a non-negative integer: digits that spell `n`. */
  function Decimal(n: nat): (r: string)
    ensures r != [] && forall i :: 0 <= i < |r| ==> IsDigit(r[i])
    ensures DigitsValue(r) == n
  {
    var d := ['0' + (n % 10) as char];
    assert DigitValue(d[0]) == n % 10;
    if n < 10 then
      assert d[..0] == [];
      d
    else
      var r := Decimal(n / 10) + d;
      assert r[..|r| - 1] == Decimal(n / 10);
      r
  }

  /** Different ids are written differently. */
  lemma DecimalInjective(a: nat, b: nat)
    requires Decimal(a) == Decimal(b)
    ensures a == b
  {
  }
}
