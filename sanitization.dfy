/** The XSS-oriented sanitisers applied to task text and e-mail addresses before
    they reach the store. */
module Sanitization {
  import opened Text
  import opened Json

  const MaxStringLength := 1000
  const MaxEmailLength := 254

  predicate IsAngleBracket(c: char) {
    c == '<' || c == '>'
  }

  predicate NoAngleBrackets(s: string) {
    '<' !in s && '>' !in s
  }

  /** `s.replace(/[<>]/g, '')`: the characters of `s` other than '<' and '>', in order. */
  function StripAngleBrackets(s: string): (r: string)
    ensures |r| <= |s|
    ensures NoAngleBrackets(r)
    ensures NoAngleBrackets(s) ==> r == s
  {
    if s == [] then []
    else if IsAngleBracket(s[0]) then StripAngleBrackets(s[1..])
    else [s[0]] + StripAngleBrackets(s[1..])
  }

  /** Removing brackets works piece by piece: it keeps the order of what it keeps. */
  lemma {:induction false} StripAppend(a: string, b: string)
    ensures StripAngleBrackets(a + b) == StripAngleBrackets(a) + StripAngleBrackets(b)
    decreases |a|, 1
  {
    if a == [] {
      assert a + b == b;
    } else {
      assert a == [a[0]] + a[1..];
      assert a + b == [a[0]] + (a[1..] + b);
      StripConsAppend(a[0], a[1..], b);
    }
  }

  /** The inductive step of StripAppend, for a string given as its first character
      and the rest. */
  lemma {:induction false} StripConsAppend(c: char, t: string, b: string)
    ensures StripAngleBrackets([c] + (t + b)) == StripAngleBrackets([c] + t) + StripAngleBrackets(b)
    decreases |t| + 1, 0
  {
    StripAppend(t, b);
    StripCons(c, t);
    StripCons(c, t + b);
    AppendAssoc([c], StripAngleBrackets(t), StripAngleBrackets(b));
  }


  /** One character: a bracket is deleted, anything else kept. With StripAppend this
      fixes the result on every string. */
  lemma StripChar(c: char)
    ensures StripAngleBrackets([c]) == if IsAngleBracket(c) then [] else [c]
  {
    assert [c][1..] == [];
  }

  /** A bracket-free text between '<' and '>' keeps just the text. */
  lemma StripTag(x: string)
    requires NoAngleBrackets(x)
    ensures StripAngleBrackets("<" + x + ">") == x
  {
    StripAppend("<" + x, ">");
    StripAppend("<", x);
    StripChar('<');
    StripChar('>');
  }

  /** Text between two bracket-free tags: only the four brackets go. */
  lemma StripBetweenTags(open: string, text: string, close: string)
    requires NoAngleBrackets(open) && NoAngleBrackets(text) && NoAngleBrackets(close)
    ensures StripAngleBrackets(("<" + open + ">") + text + ("<" + close + ">")) == open + text + close
  {
    StripAppend(("<" + open + ">") + text, "<" + close + ">");
    StripAppend("<" + open + ">", text);
    StripTag(open);
    StripTag(close);
  }

  /** A script tag loses its brackets only: "<script>hi</script>" becomes
      "scripthi/script". */
  lemma ScriptTagStripped()
    ensures StripAngleBrackets("<script>hi</script>") == "scripthi/script"
  {
    assert "<script>hi</script>" == ("<" + "script" + ">") + "hi" + ("<" + "/script" + ">");
    assert "scripthi/script" == "script" + "hi" + "/script";
    StripBetweenTags("script", "hi", "/script");
  }

  /** One step of the removal, on a string given as its first character and the rest. */
  lemma StripCons(c: char, t: string)
    ensures StripAngleBrackets([c] + t) == if IsAngleBracket(c) then StripAngleBrackets(t) else [c] + StripAngleBrackets(t)
  {
    assert ([c] + t)[0] == c;
    assert ([c] + t)[1..] == t;
  }

  /** `sanitizeString`: "" for a non-string; otherwise drop '<' and '>', trim, and
      keep the first 1000 characters. */
  function SanitizeString(input: Value): (r: string)
    ensures !input.Str? ==> r == ""
    ensures NoAngleBrackets(r)
    ensures |r| <= MaxStringLength
    ensures r != [] ==> !IsWhitespace(r[0])
    ensures input.Str? && NoAngleBrackets(input.s) && IsTrimmed(input.s) && |input.s| <= MaxStringLength
            ==> r == input.s
    ensures input.Str? ==> r == Take(Trim(StripAngleBrackets(input.s)), MaxStringLength)
  {
    if !input.Str? then ""
    else
      var stripped := StripAngleBrackets(input.s);
      TrimKeeps(stripped, c => !IsAngleBracket(c));
      Take(Trim(stripped), MaxStringLength)
  }

  // ---------------------------------------------------------------------------
  // sanitizeArray: filter, map, filter

  /** `.filter((item) => typeof item === 'string')`. */
  function KeepStrings(items: seq<Value>): (r: seq<string>)
    ensures |r| <= |items|
  {
    if items == [] then []
    else (if items[0].Str? then [items[0].s] else []) + KeepStrings(items[1..])
  }

  /** `.map((item) => sanitizeString(item))`. */
  function SanitizeEach(items: seq<string>): (r: seq<string>)
    ensures |r| == |items|
  {
    if items == [] then [] else [SanitizeString(Str(items[0]))] + SanitizeEach(items[1..])
  }

  /** `.filter((item) => item.length > 0)`. */
  function KeepNonEmpty(items: seq<string>): (r: seq<string>)
    ensures |r| <= |items|
    ensures forall i :: 0 <= i < |r| ==> r[i] != []
  {
    if items == [] then []
    else (if items[0] != [] then [items[0]] else []) + KeepNonEmpty(items[1..])
  }

  /** `sanitizeArray`: [] for a non-array, otherwise the pipeline above. */
  function SanitizeArray(input: Value): (r: seq<string>)
    ensures !input.Arr? ==> r == []
    ensures input.Arr? ==> |r| <= |input.items|
  {
    if !input.Arr? then [] else KeepNonEmpty(SanitizeEach(KeepStrings(input.items)))
  }

  /** What one entry contributes: its sanitised form when it is a string that
      keeps something, nothing otherwise. */
  function Kept(v: Value): seq<string> {
    if v.Str? && SanitizeString(v) != [] then [SanitizeString(v)] else []
  }

  /** The contributions of the entries, in order. */
  function Concat(items: seq<Value>, f: Value -> seq<string>): seq<string> {
    if items == [] then [] else f(items[0]) + Concat(items[1..], f)
  }

  /** The same list described in one pass. */
  function SanitizedEntries(items: seq<Value>): seq<string> {
    Concat(items, Kept)
  }

  lemma {:induction false} ConcatAppend(a: seq<Value>, b: seq<Value>, f: Value -> seq<string>)
    ensures Concat(a + b, f) == Concat(a, f) + Concat(b, f)
    decreases |a|, 1
  {
    if a == [] {
      assert a + b == b;
    } else {
      assert a == [a[0]] + a[1..];
      assert a + b == [a[0]] + (a[1..] + b);
      ConcatConsAppend(a[0], a[1..], b, f);
    }
  }

  /** The inductive step of ConcatAppend, for a list given as its first item and
      the rest. */
  lemma {:induction false} ConcatConsAppend(v: Value, t: seq<Value>, b: seq<Value>, f: Value -> seq<string>)
    ensures Concat([v] + (t + b), f) == Concat([v] + t, f) + Concat(b, f)
    decreases |t| + 1, 0
  {
    ConcatAppend(t, b, f);
    ConcatCons(v, t, f);
    ConcatCons(v, t + b, f);
    AppendAssoc(f(v), Concat(t, f), Concat(b, f));
  }

  lemma ConcatCons(v: Value, t: seq<Value>, f: Value -> seq<string>)
    ensures Concat([v] + t, f) == f(v) + Concat(t, f)
  {
    assert ([v] + t)[0] == v;
    assert ([v] + t)[1..] == t;
  }

  lemma AppendAssoc<T>(x: seq<T>, y: seq<T>, z: seq<T>)
    ensures x + (y + z) == (x + y) + z
  {
  }

  /** The three-stage pipeline computes the one-pass description. */
  lemma {:induction false} SanitizeArrayIsEntries(items: seq<Value>)
    ensures SanitizeArray(Arr(items)) == SanitizedEntries(items)
  {
    if items != [] {
      SanitizeArrayIsEntries(items[1..]);
      var rest := KeepStrings(items[1..]);
      if items[0].Str? {
        assert KeepStrings(items) == [items[0].s] + rest;
        assert ([items[0].s] + rest)[1..] == rest;
        assert SanitizeEach([items[0].s] + rest) == [SanitizeString(items[0])] + SanitizeEach(rest);
        assert ([SanitizeString(items[0])] + SanitizeEach(rest))[1..] == SanitizeEach(rest);
      } else {
        assert KeepStrings(items) == rest;
      }
    }
  }

  /** No more tags than entries. */
  lemma {:induction false} SanitizedEntriesLength(items: seq<Value>)
    ensures |SanitizedEntries(items)| <= |items|
  {
    if items != [] {
      SanitizedEntriesLength(items[1..]);
    }
  }

  /** Every kept tag is non-empty, free of angle brackets, at most 1000 characters
      long and does not start with whitespace. */
  lemma {:induction false} SanitizedEntriesClean(items: seq<Value>)
    ensures var r := SanitizedEntries(items);
      forall i :: 0 <= i < |r| ==>
        r[i] != [] && NoAngleBrackets(r[i]) && |r[i]| <= MaxStringLength && !IsWhitespace(r[i][0])
  {
    if items != [] {
      SanitizedEntriesClean(items[1..]);
      var r, head, rest := SanitizedEntries(items), Kept(items[0]), SanitizedEntries(items[1..]);
      assert r == head + rest;
      forall i | 0 <= i < |r|
        ensures r[i] != [] && NoAngleBrackets(r[i]) && |r[i]| <= MaxStringLength && !IsWhitespace(r[i][0])
      {
        if i < |head| {
          assert r[i] == SanitizeString(items[0]);
        } else {
          assert r[i] == rest[i - |head|];
        }
      }
    }
  }

  /** Entries are handled one by one: the result for a concatenation is the
      concatenation of the results, so order is kept and duplicates are not merged. */
  lemma SanitizedEntriesAppend(a: seq<Value>, b: seq<Value>)
    ensures SanitizedEntries(a + b) == SanitizedEntries(a) + SanitizedEntries(b)
  {
    ConcatAppend(a, b, Kept);
  }

  /** A single entry: a string whose sanitised form is non-empty gives that form;
      anything else is dropped. */
  lemma SanitizedEntriesSingle(v: Value)
    ensures SanitizedEntries([v]) == if v.Str? && SanitizeString(v) != [] then [SanitizeString(v)] else []
  {
    assert [v][1..] == [];
    assert SanitizedEntries([v]) == Kept(v) + SanitizedEntries([]);
  }

  /** A clean tag listed twice is kept twice. */
  lemma DuplicatesKept(t: string)
    requires t != [] && NoAngleBrackets(t) && IsTrimmed(t) && |t| <= MaxStringLength
    ensures SanitizeArray(Arr([Str(t), Str(t)])) == [t, t]
  {
    SanitizeArrayIsEntries([Str(t), Str(t)]);
    SanitizedEntriesAppend([Str(t)], [Str(t)]);
    SanitizedEntriesSingle(Str(t));
  }

  /** `sanitizeString("<script>hi</script>")` is "scripthi/script". */
  lemma SanitizedScriptTag()
    ensures SanitizeString(Str("<script>hi</script>")) == "scripthi/script"
  {
    ScriptTagStripped();
    var r := "scripthi/script";
    assert !IsWhitespace(r[0]) && !IsWhitespace(r[|r| - 1]);
  }

  // ---------------------------------------------------------------------------
  // sanitizeEmail

  /** `sanitizeEmail`: "" for a non-string; otherwise lower-case, trim and keep the
      first 254 characters. */
  function SanitizeEmail(input: Value): (r: string)
    ensures !input.Str? ==> r == ""
    ensures |r| <= MaxEmailLength
    ensures HasNoUpperAscii(r)
    ensures r != [] ==> !IsWhitespace(r[0])
    ensures input.Str? && |Trim(input.s)| <= MaxEmailLength ==> r == Trim(ToLower(input.s))
  {
    if !input.Str? then ""
    else
      SanitizedEmailFacts(input.s);
      Take(Trim(ToLower(input.s)), MaxEmailLength)
  }

  lemma SanitizedEmailFacts(s: string)
    ensures var r := Take(Trim(ToLower(s)), MaxEmailLength);
      && HasNoUpperAscii(r)
      && (r != [] ==> !IsWhitespace(r[0]))
      && (|Trim(s)| <= MaxEmailLength ==> r == Trim(ToLower(s)))
  {
    TrimLowerNoUpper(s);
    TrimLower(s);
    TakeLowerTrimmed(Trim(ToLower(s)), MaxEmailLength);
  }

  /** A prefix of a lower-case string that starts with no whitespace is again both. */
  lemma TakeLowerTrimmed(t: string, n: nat)
    requires HasNoUpperAscii(t) && IsTrimmed(t)
    ensures HasNoUpperAscii(Take(t, n))
    ensures Take(t, n) != [] ==> !IsWhitespace(Take(t, n)[0])
  {
    var r := Take(t, n);
    assert forall i :: 0 <= i < |r| ==> r[i] == t[i];
  }

  /** Trimming a lower-cased string leaves it lower-case. */
  lemma TrimLowerNoUpper(s: string)
    ensures HasNoUpperAscii(Trim(ToLower(s)))
  {
    var p := c => !('A' <= c <= 'Z');
    var l := ToLower(s);
    assert AllChars(l, p);
    TrimKeeps(l, p);
    var r := Trim(l);
    assert forall i :: 0 <= i < |r| ==> p(r[i]);
  }

  /** Lower-casing keeps whitespace where it is, so it commutes with trim. */
  lemma {:induction false} TrimLower(s: string)
    ensures Trim(ToLower(s)) == ToLower(Trim(s))
    decreases |s|
  {
    var l := ToLower(s);
    if |s| > 0 && IsWhitespace(s[0]) {
      assert IsWhitespace(l[0]);
      LowerTail(s);
      TrimLower(s[1..]);
    } else if |s| > 0 && IsWhitespace(s[|s| - 1]) {
      assert !IsWhitespace(l[0]) && IsWhitespace(l[|l| - 1]);
      LowerInit(s);
      TrimLower(s[..|s| - 1]);
    } else if |s| > 0 {
      assert !IsWhitespace(l[0]) && !IsWhitespace(l[|l| - 1]);
    }
  }
}
