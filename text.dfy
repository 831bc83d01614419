/** The JavaScript string operations the backend relies on: `trim`, `toLowerCase`,
    `includes`, `split(' ')`, `Array.prototype.join` and `parseInt`, each written out
    over `seq<char>` with the semantics ECMAScript gives it. */
module Text {
  import opened Wrappers

  /** ECMAScript's WhiteSpace and LineTerminator code points: exactly what the regular
      expression class `\s` matches and what `String.prototype.trim` removes. */
  predicate IsWhitespace(c: char) {
    || c == '\t' || c == '\n' || c == '\U{000B}' || c == '\U{000C}' || c == '\r' || c == ' '
    || c == '\U{00A0}' || c == '\U{1680}' || ('\U{2000}' <= c <= '\U{200A}')
    || c == '\U{2028}' || c == '\U{2029}' || c == '\U{202F}' || c == '\U{205F}'
    || c == '\U{3000}' || c == '\U{FEFF}'
  }

  predicate AllWhitespace(s: string) {
    forall i :: 0 <= i < |s| ==> IsWhitespace(s[i])
  }

  predicate NoWhitespace(s: string) {
    forall i :: 0 <= i < |s| ==> !IsWhitespace(s[i])
  }

  /** Neither starts nor ends with whitespace. */
  predicate IsTrimmed(s: string) {
    s == [] || (!IsWhitespace(s[0]) && !IsWhitespace(s[|s| - 1]))
  }

  /** `String.prototype.trimStart`. */
  function TrimStart(s: string): (r: string)
    ensures |r| <= |s| && r == s[|s| - |r|..]
    ensures AllWhitespace(s[..|s| - |r|])
    ensures r == [] || !IsWhitespace(r[0])
  {
    if |s| > 0 && IsWhitespace(s[0]) then
      var r := TrimStart(s[1..]);
      assert s[1..][|s| - 1 - |r|..] == s[|s| - |r|..];
      DropWhitespaceHead(s, |s| - 1 - |r|);
      r
    else s
  }

  /** A whitespace head followed by a whitespace prefix of the rest. */
  lemma DropWhitespaceHead(s: string, k: nat)
    requires 0 < |s| && k < |s| && IsWhitespace(s[0]) && AllWhitespace(s[1..][..k])
    ensures AllWhitespace(s[..k + 1])
  {
    var p := s[..k + 1];
    forall i | 0 <= i < |p|
      ensures IsWhitespace(p[i])
    {
      if i > 0 {
        assert p[i] == s[1..][..k][i - 1];
      }
    }
  }

  /** `String.prototype.trim`: leading and trailing whitespace dropped, one
      character at a time from either end. */
  function Trim(s: string): (r: string)
    ensures |r| <= |s|
    ensures IsTrimmed(r)
    ensures r == [] <==> AllWhitespace(s)
    ensures IsTrimmed(s) ==> r == s
    decreases |s|
  {
    if |s| > 0 && IsWhitespace(s[0]) then Trim(s[1..])
    else if |s| > 0 && IsWhitespace(s[|s| - 1]) then Trim(s[..|s| - 1])
    else s
  }

  /** What `trim` returns is a slice of its input, and everything cut off on either
      side of that slice is whitespace. */
  lemma TrimIsSlice(s: string)
    ensures exists i, j :: 0 <= i <= j <= |s| && Trim(s) == s[i..j]
                           && AllWhitespace(s[..i]) && AllWhitespace(s[j..])
  {
    var i, j := TrimBounds(s);
  }

  /** The bounds of the slice `trim` keeps. */
  lemma {:induction false} TrimBounds(s: string) returns (i: nat, j: nat)
    ensures i <= j <= |s| && Trim(s) == s[i..j]
    ensures AllWhitespace(s[..i]) && AllWhitespace(s[j..])
    decreases |s|
  {
    if |s| > 0 && IsWhitespace(s[0]) {
      var i', j' := TrimBounds(s[1..]);
      i, j := i' + 1, j' + 1;
      SliceOfTail(s, i', j');
    } else if |s| > 0 && IsWhitespace(s[|s| - 1]) {
      i, j := TrimBounds(s[..|s| - 1]);
      SliceOfInit(s, i, j);
    } else {
      i, j := 0, |s|;
      assert s[0..|s|] == s;
    }
  }

  lemma SliceOfTail(s: string, i: nat, j: nat)
    requires |s| > 0 && IsWhitespace(s[0]) && i <= j <= |s| - 1
    requires AllWhitespace(s[1..][..i]) && AllWhitespace(s[1..][j..])
    ensures s[i + 1..j + 1] == s[1..][i..j]
    ensures AllWhitespace(s[..i + 1]) && AllWhitespace(s[j + 1..])
  {
    var t := s[1..];
    forall k | 0 <= k < j - i
      ensures s[i + 1..j + 1][k] == t[i..j][k]
    {
      assert t[i + k] == s[i + k + 1];
    }
    assert s[i + 1..j + 1] == t[i..j];
    var head := [s[0]];
    assert head[0] == s[0];
    WhitespaceConcat(head, t[..i]);
    assert s[..i + 1] == head + t[..i];
    assert s[j + 1..] == t[j..];
  }

  lemma SliceOfInit(s: string, i: nat, j: nat)
    requires |s| > 0 && IsWhitespace(s[|s| - 1]) && i <= j <= |s| - 1
    requires AllWhitespace(s[..|s| - 1][..i]) && AllWhitespace(s[..|s| - 1][j..])
    ensures s[i..j] == s[..|s| - 1][i..j]
    ensures AllWhitespace(s[..i]) && AllWhitespace(s[j..])
  {
    var t := s[..|s| - 1];
    assert s[i..j] == t[i..j];
    assert s[..i] == t[..i];
    var last := [s[|s| - 1]];
    assert last[0] == s[|s| - 1];
    WhitespaceConcat(t[j..], last);
    assert s[j..] == t[j..] + last;
  }

  lemma WhitespaceConcat(a: string, b: string)
    requires AllWhitespace(a) && AllWhitespace(b)
    ensures AllWhitespace(a + b)
  {
    var c := a + b;
    forall k | 0 <= k < |c|
      ensures IsWhitespace(c[k])
    {
      if k < |a| { assert c[k] == a[k]; } else { assert c[k] == b[k - |a|]; }
    }
  }

  /** Every character of `s` satisfies `p`. */
  predicate AllChars(s: string, p: char -> bool) {
    forall i :: 0 <= i < |s| ==> p(s[i])
  }

  /** Trimming only removes characters: whatever holds of every character of the
      input holds of every character of the result. */
  lemma {:induction false} TrimKeeps(s: string, p: char -> bool)
    requires AllChars(s, p)
    ensures AllChars(Trim(s), p)
    decreases |s|
  {
    if |s| > 0 && IsWhitespace(s[0]) {
      AllCharsTail(s, p);
      TrimKeeps(s[1..], p);
    } else if |s| > 0 && IsWhitespace(s[|s| - 1]) {
      AllCharsInit(s, p);
      TrimKeeps(s[..|s| - 1], p);
    }
  }

  lemma AllCharsTail(s: string, p: char -> bool)
    requires |s| > 0 && AllChars(s, p)
    ensures AllChars(s[1..], p)
  {
    var t := s[1..];
    forall i | 0 <= i < |t|
      ensures p(t[i])
    {
      assert t[i] == s[i + 1];
    }
  }

  lemma AllCharsInit(s: string, p: char -> bool)
    requires |s| > 0 && AllChars(s, p)
    ensures AllChars(s[..|s| - 1], p)
  {
    var t := s[..|s| - 1];
    forall i | 0 <= i < |t|
      ensures p(t[i])
    {
      assert t[i] == s[i];
    }
  }

  /** Trimming twice is trimming once. */
  lemma TrimIdempotent(s: string)
    ensures Trim(Trim(s)) == Trim(s)
  {
  }

  /** `toLowerCase` restricted to ASCII: 'A'..'Z' become 'a'..'z', every other
      character is kept. */
  function LowerChar(c: char): (d: char)
    ensures !('A' <= d <= 'Z')
    ensures IsWhitespace(d) <==> IsWhitespace(c)
    ensures c == '@' <==> d == '@'
    ensures c == '.' <==> d == '.'
  {
    if 'A' <= c <= 'Z' then (c as int + 32) as char else c
  }

  function ToLower(s: string): (r: string)
    ensures |r| == |s|
    ensures forall i :: 0 <= i < |s| ==> r[i] == LowerChar(s[i])
  {
    seq(|s|, i requires 0 <= i < |s| => LowerChar(s[i]))
  }

  /** Lower-casing twice is lower-casing once. */
  lemma LowerIdempotent(s: string)
    ensures ToLower(ToLower(s)) == ToLower(s)
  {
    var l := ToLower(s);
    assert forall i :: 0 <= i < |l| ==> ToLower(l)[i] == l[i];
  }

  /** Lower-casing the rest is the rest of the lower-cased string. */
  lemma LowerTail(s: string)
    requires |s| > 0
    ensures ToLower(s)[1..] == ToLower(s[1..])
  {
  }

  /** Lower-casing all but the last character. */
  lemma LowerInit(s: string)
    requires |s| > 0
    ensures ToLower(s)[..|s| - 1] == ToLower(s[..|s| - 1])
  {
  }

  predicate HasNoUpperAscii(s: string) {
    forall i :: 0 <= i < |s| ==> !('A' <= s[i] <= 'Z')
  }

  /** `s.startsWith(p)`. */
  predicate StartsWith(s: string, p: string) {
    |p| <= |s| && s[..|p|] == p
  }

  /** `s.includes(sub)`: `sub` occurs at some position of `s`. */
  predicate Contains(s: string, sub: string)
    decreases |s|
  {
    StartsWith(s, sub) || (|s| > 0 && Contains(s[1..], sub))
  }

  /** First position of `c` in `s`. */
  function IndexOf(s: string, c: char): (i: nat)
    requires c in s
    ensures i < |s| && s[i] == c && c !in s[..i]
  {
    if s[0] == c then 0 else 1 + IndexOf(s[1..], c)
  }

  /** A position holding `c` with no `c` before it is the one `IndexOf` finds. */
  lemma IndexOfIsFirst(s: string, c: char, i: nat)
    requires i < |s| && s[i] == c && c !in s[..i]
    ensures c in s && IndexOf(s, c) == i
  {
  }

  /** `s.split(d)` for a one-character separator `d`: the maximal pieces between
      occurrences of `d`; `split` on a string without `d` yields the whole string. */
  function Split(s: string, d: char): (parts: seq<string>)
    ensures |parts| >= 1
    ensures forall k :: 0 <= k < |parts| ==> d !in parts[k]
    decreases |s|
  {
    if d !in s then [s]
    else
      var i := IndexOf(s, d);
      [s[..i]] + Split(s[i + 1..], d)
  }

  /** `parts.join(d)` for a one-character separator. */
  function Join(parts: seq<string>, d: char): string
    requires |parts| >= 1
  {
    if |parts| == 1 then parts[0] else parts[0] + [d] + Join(parts[1..], d)
  }

  /** Joining the pieces of a split gives back the original string. */
  lemma {:induction false} JoinSplit(s: string, d: char)
    ensures Join(Split(s, d), d) == s
    decreases |s|
  {
    if d in s {
      var i := IndexOf(s, d);
      var pieces := Split(s[i + 1..], d);
      JoinSplit(s[i + 1..], d);
      assert Split(s, d) == [s[..i]] + pieces;
      JoinCons(s[..i], pieces, d);
      AroundIndex(s, i);
    }
  }

  /** Joining a piece in front of at least one more. */
  lemma JoinCons(piece: string, pieces: seq<string>, d: char)
    requires |pieces| >= 1
    ensures Join([piece] + pieces, d) == piece + [d] + Join(pieces, d)
  {
    assert ([piece] + pieces)[0] == piece;
    assert ([piece] + pieces)[1..] == pieces;
  }

  /** A string is what comes before a position, that position's character, and what
      comes after. */
  lemma AroundIndex(s: string, i: nat)
    requires i < |s|
    ensures s[..i] + [s[i]] + s[i + 1..] == s
  {
  }

  /** Splitting a join of pieces that do not contain the separator gives back the pieces. */
  lemma {:induction false} SplitJoin(parts: seq<string>, d: char)
    requires |parts| >= 1
    requires forall k :: 0 <= k < |parts| ==> d !in parts[k]
    ensures Split(Join(parts, d), d) == parts
  {
    if |parts| > 1 {
      var s := Join(parts, d);
      var rest := Join(parts[1..], d);
      assert s == parts[0] + [d] + rest;
      assert s[|parts[0]|] == d;
      assert s[..|parts[0]|] == parts[0];
      IndexOfIsFirst(s, d, |parts[0]|);
      assert s[|parts[0]| + 1..] == rest;
      SplitJoin(parts[1..], d);
      assert parts == [parts[0]] + parts[1..];
    }
  }

  /** `parts.join(sep)` for a separator string; `[].join(sep)` is "". */
  function JoinWith(parts: seq<string>, sep: string): (r: string)
    ensures |parts| == 1 ==> r == parts[0]
  {
    if |parts| == 0 then ""
    else if |parts| == 1 then parts[0]
    else parts[0] + sep + JoinWith(parts[1..], sep)
  }

  /** `s.slice(0, n)`. */
  function Take(s: string, n: nat): (r: string)
    ensures |r| <= n && |r| <= |s|
    ensures r == s[..|r|]
    ensures |s| <= n ==> r == s
  {
    if |s| <= n then s else s[..n]
  }

  // ---------------------------------------------------------------------------
  // parseInt with no radix argument

  predicate IsDecimalDigit(c: char) {
    '0' <= c <= '9'
  }

  predicate IsRadixDigit(c: char, hex: bool) {
    IsDecimalDigit(c) || (hex && (('a' <= c <= 'f') || ('A' <= c <= 'F')))
  }

  function DigitValue(c: char): (v: nat)
    ensures IsDecimalDigit(c) ==> v == c as int - '0' as int
    ensures v < 16
  {
    if '0' <= c <= '9' then c as int - '0' as int
    else if 'a' <= c <= 'f' then c as int - 'a' as int + 10
    else if 'A' <= c <= 'F' then c as int - 'A' as int + 10
    else 0
  }

  /** The longest prefix of `s` made of digits of the radix. */
  function DigitRun(s: string, hex: bool): (r: string)
    ensures |r| <= |s| && r == s[..|r|]
    ensures forall i :: 0 <= i < |r| ==> IsRadixDigit(r[i], hex)
    ensures |r| == |s| || !IsRadixDigit(s[|r|], hex)
  {
    if |s| > 0 && IsRadixDigit(s[0], hex) then [s[0]] + DigitRun(s[1..], hex) else []
  }

  /** Positional value of a digit string, most significant digit first. */
  function DigitsValue(ds: string, hex: bool): nat {
    if ds == [] then 0
    else DigitsValue(ds[..|ds| - 1], hex) * (if hex then 16 else 10) + DigitValue(ds[|ds| - 1])
  }

  /** `parseInt(s)`: skip leading whitespace, take an optional sign, a "0x"/"0X"
      prefix switches to radix 16, then read the longest run of digits. No digit at
      all gives NaN, written None here. */
  function ParseInt(s: string): (r: Option<int>)
    ensures TrimStart(s) == [] ==> r == None
    ensures r.Some? && TrimStart(s)[0] == '-' ==> r.value <= 0
    ensures r.Some? && TrimStart(s)[0] != '-' ==> r.value >= 0
  {
    ParseSigned(TrimStart(s))
  }

  /** The optional sign and the digits, once the leading whitespace is gone. */
  function ParseSigned(t: string): Option<int> {
    var negative := |t| > 0 && t[0] == '-';
    var u := if |t| > 0 && (t[0] == '+' || t[0] == '-') then t[1..] else t;
    match ParseMagnitude(u)
    case None => None
    case Some(m) => Some(if negative then 0 - m else m)
  }

  /** Leading whitespace is skipped. */
  lemma ParseIntSkipsWhitespace(c: char, s: string)
    requires IsWhitespace(c)
    ensures ParseInt([c] + s) == ParseInt(s)
  {
    TrimStartSkips(c, s);
  }

  lemma TrimStartSkips(c: char, s: string)
    requires IsWhitespace(c)
    ensures TrimStart([c] + s) == TrimStart(s)
  {
    assert ([c] + s)[1..] == s;
  }

  /** A string that starts with something other than whitespace, a sign or a digit
      is not a number. */
  lemma ParseIntOfLetter(s: string)
    requires |s| > 0 && !IsWhitespace(s[0]) && !IsDecimalDigit(s[0]) && s[0] != '+' && s[0] != '-'
    ensures ParseInt(s) == None
  {
    assert TrimStart(s) == s;
    assert DigitRun(s, false) == [];
  }

  /** The unsigned part of `parseInt`: an optional "0x"/"0X" prefix, then digits. */
  function ParseMagnitude(u: string): Option<nat> {
    var hex := |u| >= 2 && u[0] == '0' && (u[1] == 'x' || u[1] == 'X');
    var ds := DigitRun(if hex then u[2..] else u, hex);
    if ds == [] then None else Some(DigitsValue(ds, hex))
  }

  /** The decimal numeral of `n`, without leading zeros. */
  function Decimal(n: nat): (r: string)
    ensures |r| >= 1
    ensures forall i :: 0 <= i < |r| ==> IsDecimalDigit(r[i])
    ensures r[0] == '0' ==> n == 0
  {
    if n < 10 then [('0' as int + n) as char]
    else Decimal(n / 10) + [('0' as int + n % 10) as char]
  }

  lemma {:induction false} DecimalValue(n: nat)
    ensures DigitsValue(Decimal(n), false) == n
  {
    var r := Decimal(n);
    if n >= 10 {
      DecimalValue(n / 10);
      assert r[..|r| - 1] == Decimal(n / 10);
    } else {
      assert r[..|r| - 1] == [];
    }
  }

  lemma {:induction false} DigitRunOfDigits(s: string)
    requires forall i :: 0 <= i < |s| ==> IsDecimalDigit(s[i])
    ensures DigitRun(s, false) == s
  {
    if |s| > 0 {
      DigitRunOfDigits(s[1..]);
      assert s == [s[0]] + s[1..];
    }
  }

  lemma ParseMagnitudeDecimal(n: nat)
    ensures ParseMagnitude(Decimal(n)) == Some(n)
  {
    var r := Decimal(n);
    assert |r| >= 2 ==> r[0] != '0';
    DigitRunOfDigits(r);
    DecimalValue(n);
  }

  /** A query value written as a plain decimal numeral parses to that number. */
  lemma ParseIntDecimal(n: nat)
    ensures ParseInt(Decimal(n)) == Some(n)
  {
    var r := Decimal(n);
    var d := r[0];
    assert '0' <= d <= '9';
    assert !IsWhitespace(d);
    assert TrimStart(r) == r;
    assert d != '-' && d != '+';
    ParseMagnitudeDecimal(n);
    assert ParseMagnitude(r) == Some(n);
  }
}
