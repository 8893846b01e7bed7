/** The JavaScript string primitives the modelled code relies on: the `\s`
    character class, `trim`, the global replacements `replace(/\s+/g, x)`,
    `toLowerCase` on ASCII letters, and the decimal rendering of a
    non-negative integer inside a template literal.

    A Dafny `char` is a Unicode scalar value, while a JavaScript string is a
    sequence of UTF-16 code units. The two agree on text inside the Basic
    Multilingual Plane, where every character this module singles out lies;
    a character outside it is one `char` here but two code units there. */
module JsText {

  /** Membership in the regular-expression class `\s`, which is also the set
      of characters `String.prototype.trim` strips: the ECMAScript WhiteSpace
      characters (tab, vertical tab, form feed, space, no-break space, the
      byte order mark and the space separators of category Zs) plus the
      LineTerminator characters. */
  predicate IsWhitespace(c: char) {
    || c == '\t' || c == '\n' || c == '\U{B}' || c == '\U{C}' || c == '\r'
    || c == ' ' || c == '\U{A0}' || c == '\U{1680}'
    || ('\U{2000}' <= c && c <= '\U{200A}')
    || c == '\U{2028}' || c == '\U{2029}' || c == '\U{202F}' || c == '\U{205F}'
    || c == '\U{3000}' || c == '\U{FEFF}'
  }

  predicate NoWhitespace(s: string) {
    forall i :: 0 <= i < |s| ==> !IsWhitespace(s[i])
  }

  predicate AllWhitespace(s: string) {
    forall i :: 0 <= i < |s| ==> IsWhitespace(s[i])
  }

  /** Neither starts nor ends with whitespace: what `trim` leaves behind. */
  predicate Trimmed(s: string) {
    s == [] || (!IsWhitespace(s[0]) && !IsWhitespace(s[|s| - 1]))
  }

  predicate IsAsciiUpper(c: char) {
    'A' <= c <= 'Z'
  }

  predicate IsDigit(c: char) {
    '0' <= c <= '9'
  }

  /** The class `[a-zA-Z0-9]`. */
  predicate IsAsciiAlnum(c: char) {
    IsAsciiUpper(c) || ('a' <= c <= 'z') || IsDigit(c)
  }

  predicate AllDigits(s: string) {
    forall i :: 0 <= i < |s| ==> IsDigit(s[i])
  }

  // ---------------------------------------------------------------------------
  // Sequence facts the proofs below cite instead of re-deriving

  lemma AppendEmpty(a: string)
    ensures [] + a == a && a + [] == a
  {
  }

  lemma ConsAppend(a: string, b: string)
    requires a != []
    ensures (a + b)[0] == a[0] && (a + b)[1..] == a[1..] + b
  {
  }

  lemma SplitAt(s: string, k: nat)
    requires k <= |s|
    ensures s == s[..k] + s[k..]
  {
  }

  lemma LastOfDrop(s: string, k: nat)
    requires k < |s|
    ensures s[k..][|s| - k - 1] == s[|s| - 1]
  {
  }

  lemma DropAppend(a: string, b: string, n: nat)
    requires n <= |a|
    ensures (a + b)[n..] == a[n..] + b
  {
  }

  // ---------------------------------------------------------------------------
  // toLowerCase

  function AsciiLower(c: char): char {
    if IsAsciiUpper(c) then (c as int + 32) as char else c
  }

  /** `toLowerCase`, on the ASCII letters. */
  function Lower(s: string): (r: string)
    ensures |r| == |s|
    ensures forall i :: 0 <= i < |s| ==> r[i] == AsciiLower(s[i])
  {
    seq(|s|, i requires 0 <= i < |s| => AsciiLower(s[i]))
  }

  predicate NoUpper(s: string) {
    forall i :: 0 <= i < |s| ==> !IsAsciiUpper(s[i])
  }

  lemma LowerHasNoUpper(s: string)
    ensures NoUpper(Lower(s))
  {
  }

  lemma LowerOfNoUpper(s: string)
    requires NoUpper(s)
    ensures Lower(s) == s
  {
  }

  // ---------------------------------------------------------------------------
  // trim

  /** Strips the leading whitespace run. */
  function TrimStart(s: string): (r: string)
    ensures |r| <= |s| && r == s[|s| - |r|..]
    ensures AllWhitespace(s[..|s| - |r|])
    ensures r == [] || !IsWhitespace(r[0])
  {
    if s != [] && IsWhitespace(s[0]) then
      var r := TrimStart(s[1..]);
      assert forall i :: 1 <= i < |s| - |r| ==> s[i] == s[1..][..|s| - 1 - |r|][i - 1];
      r
    else s
  }

  /** Strips the trailing whitespace run. */
  function TrimEnd(s: string): (r: string)
    ensures |r| <= |s| && r == s[..|r|]
    ensures AllWhitespace(s[|r|..])
    ensures r == [] || !IsWhitespace(r[|r| - 1])
  {
    if s != [] && IsWhitespace(s[|s| - 1]) then
      var r := TrimEnd(s[..|s| - 1]);
      assert s[|r|..] == s[..|s| - 1][|r|..] + [s[|s| - 1]];
      r
    else s
  }

  /** `String.prototype.trim`. */
  function Trim(s: string): (r: string)
    ensures |r| <= |s|
    ensures Trimmed(r)
  {
    var t := TrimStart(s);
    var r := TrimEnd(t);
    assert r != [] ==> r[0] == t[0];
    r
  }

  lemma SliceOfDrop(s: string, a: nat, m: nat)
    requires a + m <= |s|
    ensures s[a..][..m] == s[a..a + m] && s[a..][m..] == s[a + m..]
  {
  }

  /** `r` is `s` with the whitespace prefix `s[..a]` and a whitespace
      suffix cut off. */
  predicate CutsWhitespace(s: string, r: string, a: nat) {
    a + |r| <= |s| && r == s[a..a + |r|] && AllWhitespace(s[..a]) && AllWhitespace(s[a + |r|..])
  }

  /** `trim` cuts a whitespace prefix and a whitespace suffix and keeps the
      text between them. */
  lemma TrimIsSlice(s: string)
    ensures exists a: nat :: CutsWhitespace(s, Trim(s), a)
  {
    var t := TrimStart(s);
    var r := TrimEnd(t);
    assert Trim(s) == r;
    var a := |s| - |t|;
    assert t == s[a..];
    SliceOfDrop(s, a, |r|);
    assert s[a + |r|..] == t[|r|..];
    assert CutsWhitespace(s, r, a);
  }

  lemma TrimKeepsNoUpper(s: string)
    requires NoUpper(s)
    ensures NoUpper(Trim(s))
  {
    var u := TrimStart(s);
    NoUpperDrop(s, |s| - |u|);
    NoUpperTake(u, |TrimEnd(u)|);
  }

  lemma NoUpperDrop(s: string, k: nat)
    requires NoUpper(s) && k <= |s|
    ensures NoUpper(s[k..])
  {
  }

  lemma NoUpperTake(s: string, k: nat)
    requires NoUpper(s) && k <= |s|
    ensures NoUpper(s[..k])
  {
  }

  lemma TrimStartOfAllWhitespace(s: string)
    requires AllWhitespace(s)
    ensures TrimStart(s) == []
  {
  }

  lemma TrimStartOfTrimmed(s: string)
    requires s == [] || !IsWhitespace(s[0])
    ensures TrimStart(s) == s
  {
  }

  lemma {:induction false} TrimStartAppend(a: string, b: string)
    requires AllWhitespace(b)
    ensures TrimStart(a) == [] ==> TrimStart(a + b) == []
    ensures TrimStart(a) != [] ==> TrimStart(a + b) == TrimStart(a) + b
  {
    if a == [] {
      AppendEmpty(b);
      TrimStartOfAllWhitespace(b);
    } else if IsWhitespace(a[0]) {
      assert TrimStart(a + b) == TrimStart(a[1..] + b) by {
        ConsAppend(a, b);
      }
      TrimStartAppend(a[1..], b);
    } else {
      ConsAppend(a, b);
      TrimStartOfTrimmed(a);
      TrimStartOfTrimmed(a + b);
    }
  }

  // ---------------------------------------------------------------------------
  // replace(/\s+/g, "_") and replace(/\s+/g, "")

  /** `replace(/\s+/g, "_")`: every maximal whitespace run becomes one
      underscore. */
  function CollapseWhitespace(s: string): (r: string)
    ensures NoWhitespace(r)
    ensures |r| <= |s|
    decreases |s|
  {
    if s == [] then []
    else if IsWhitespace(s[0]) then "_" + CollapseWhitespace(TrimStart(s[1..]))
    else [s[0]] + CollapseWhitespace(s[1..])
  }

  /** `replace(/\s+/g, "")`: every whitespace character is deleted. */
  function RemoveWhitespace(s: string): (r: string)
    ensures NoWhitespace(r)
    ensures |r| <= |s|
  {
    if s == [] then []
    else (if IsWhitespace(s[0]) then [] else [s[0]]) + RemoveWhitespace(s[1..])
  }

  /** Collapsing introduces only underscores, so it keeps a lower-cased
      string lower-cased. */
  lemma {:induction false} CollapseKeepsNoUpper(s: string)
    requires NoUpper(s)
    ensures NoUpper(CollapseWhitespace(s))
    decreases |s|
  {
    if s != [] {
      if IsWhitespace(s[0]) {
        var t := TrimStart(s[1..]);
        NoUpperDrop(s, 1);
        NoUpperDrop(s[1..], |s| - 1 - |t|);
        CollapseKeepsNoUpper(t);
      } else {
        NoUpperDrop(s, 1);
        CollapseKeepsNoUpper(s[1..]);
      }
    }
  }

  /** Trimming and collapsing leave a whitespace-free string alone. */
  lemma TrimAndCollapseOfNoWhitespace(s: string)
    requires NoWhitespace(s)
    ensures Trim(s) == s
    ensures CollapseWhitespace(s) == s
  {
    TrimStartOfTrimmed(s);
    assert TrimEnd(s) == s;
    AppendEmpty(s);
    CollapseAfterWord(s, []);
  }

  // ---------------------------------------------------------------------------
  // Words: the reference reading of both replacements

  /** The leading run of non-whitespace characters. */
  function TakeWord(s: string): (r: string)
    ensures |r| <= |s| && r == s[..|r|]
    ensures NoWhitespace(r)
    ensures |r| < |s| ==> IsWhitespace(s[|r|])
  {
    if s != [] && !IsWhitespace(s[0]) then [s[0]] + TakeWord(s[1..]) else []
  }

  /** The maximal runs of non-whitespace characters, in order. */
  function Words(s: string): seq<string>
    decreases |s|
  {
    var t := TrimStart(s);
    if t == [] then []
    else
      var w := TakeWord(t);
      TakeWordOfWordStart(t);
      var rest := Words(t[|w|..]);
      [w] + rest
  }

  /** A word starts wherever a non-whitespace character does. */
  lemma TakeWordOfWordStart(t: string)
    requires t != [] && !IsWhitespace(t[0])
    ensures TakeWord(t) == [t[0]] + TakeWord(t[1..])
  {
  }

  /** The parts, with `sep` between consecutive ones (`Array.prototype.join`). */
  function Join(parts: seq<string>, sep: string): string
  {
    if parts == [] then []
    else if |parts| == 1 then parts[0]
    else parts[0] + sep + Join(parts[1..], sep)
  }

  lemma JoinCons(w: string, rest: seq<string>, sep: string)
    ensures rest == [] ==> Join([w] + rest, sep) == w
    ensures rest != [] ==> Join([w] + rest, sep) == w + sep + Join(rest, sep)
  {
    assert ([w] + rest)[1..] == rest;
  }

  lemma ConcatAssoc(a: string, b: string, c: string)
    ensures a + (b + c) == a + b + c
  {
  }

  lemma {:induction false} CollapseAfterWord(w: string, rest: string)
    requires NoWhitespace(w)
    ensures CollapseWhitespace(w + rest) == w + CollapseWhitespace(rest)
    decreases |w|
  {
    if w == [] {
      AppendEmpty(rest);
    } else {
      ConsAppend(w, rest);
      CollapseAfterWord(w[1..], rest);
    }
  }

  lemma {:induction false} TakeWordAppend(t: string, tail: string)
    requires AllWhitespace(tail)
    ensures TakeWord(t + tail) == TakeWord(t)
    decreases |t|
  {
    if t == [] {
      AppendEmpty(tail);
    } else if IsWhitespace(t[0]) {
      ConsAppend(t, tail);
    } else {
      ConsAppend(t, tail);
      TakeWordAppend(t[1..], tail);
    }
  }

  /** Leading whitespace does not change the words. */
  lemma WordsAfterTrimStart(s: string)
    ensures Words(TrimStart(s)) == Words(s)
  {
    TrimStartOfTrimmed(TrimStart(s));
  }

  /** One step of `Words`: the first word, then the words of what follows. */
  lemma WordsStep(s: string, t: string, w: string)
    requires t == TrimStart(s) && t != [] && w == TakeWord(t)
    ensures |w| > 0
    ensures Words(s) == [w] + Words(t[|w|..])
  {
    TakeWordOfWordStart(t);
  }

  /** A word: a non-empty run without whitespace. */
  predicate IsWord(w: string) {
    w != [] && NoWhitespace(w)
  }

  /** Every word is non-empty and free of whitespace. */
  lemma {:induction false} WordsAreWords(s: string)
    ensures forall v :: v in Words(s) ==> IsWord(v)
    decreases |s|
  {
    var t := TrimStart(s);
    if t != [] {
      var w := TakeWord(t);
      var rest := t[|w|..];
      WordsStep(s, t, w);
      WordsAreWords(rest);
      forall v | v in Words(s)
        ensures IsWord(v)
      {
        if v != w {
          assert v in Words(rest);
        }
      }
    }
  }

  /** Trailing whitespace does not change the words. */
  lemma {:induction false} WordsIgnoreTrailing(z: string, tail: string)
    requires AllWhitespace(tail)
    ensures Words(z + tail) == Words(z)
    decreases |z|
  {
    var t := TrimStart(z);
    if t == [] {
      assert TrimStart(z + tail) == [] by { TrimStartAppend(z, tail); }
    } else {
      var w := TakeWord(t);
      var rest := t[|w|..];
      assert Words(z) == [w] + Words(rest) && |rest| < |z| by {
        WordsStep(z, t, w);
      }
      assert Words(z + tail) == [w] + Words(rest + tail) by {
        TrimStartAppend(z, tail);
        TakeWordAppend(t, tail);
        WordsStep(z + tail, t + tail, w);
        DropAppend(t, tail, |w|);
      }
      WordsIgnoreTrailing(rest, tail);
    }
  }

  lemma WordsOfTrim(s: string)
    ensures Words(Trim(s)) == Words(s)
  {
    var t := TrimStart(s);
    var r := TrimEnd(t);
    SplitAt(t, |r|);
    WordsIgnoreTrailing(r, t[|r|..]);
    WordsAfterTrimStart(s);
  }

  lemma WordsOfWordStart(t: string)
    requires t != [] && !IsWhitespace(t[0])
    ensures Words(t) == [TakeWord(t)] + Words(t[|TakeWord(t)|..])
  {
    TrimStartOfTrimmed(t);
  }

  lemma WordsOfSpaceStart(s: string)
    requires s != [] && IsWhitespace(s[0])
    ensures Words(s) == Words(TrimStart(s[1..]))
  {
    WordsAfterTrimStart(s[1..]);
  }

  /** Past a whitespace run inside a trimmed string another word follows. */
  lemma TrimmedAfterSpace(rest: string)
    requires rest != [] && IsWhitespace(rest[0]) && !IsWhitespace(rest[|rest| - 1])
    ensures TrimStart(rest[1..]) != [] && Trimmed(TrimStart(rest[1..]))
  {
    assert |rest| > 1;
    var u := rest[1..];
    LastOfDrop(rest, 1);
    var t := TrimStart(u);
    if t != [] {
      LastOfDrop(u, |u| - |t|);
    }
  }

  /** A string that starts with a word: collapsing and splitting both
      begin by taking that word. */
  lemma WordFirst(s: string)
    requires s != [] && !IsWhitespace(s[0])
    ensures var w := TakeWord(s);
      && CollapseWhitespace(s) == w + CollapseWhitespace(s[|w|..])
      && Words(s) == [w] + Words(s[|w|..])
  {
    var w := TakeWord(s);
    SplitAt(s, |w|);
    CollapseAfterWord(w, s[|w|..]);
    WordsOfWordStart(s);
  }

  /** A string that starts with whitespace and ends without: collapsing puts
      one underscore for the run, and another word follows. */
  lemma SpaceFirst(rest: string)
    requires rest != [] && IsWhitespace(rest[0]) && !IsWhitespace(rest[|rest| - 1])
    ensures var t := TrimStart(rest[1..]);
      && t != [] && Trimmed(t) && |t| < |rest|
      && CollapseWhitespace(rest) == "_" + CollapseWhitespace(t)
      && Words(rest) == Words(t)
      && Words(t) != []
  {
    var t := TrimStart(rest[1..]);
    TrimmedAfterSpace(rest);
    WordsOfSpaceStart(rest);
    WordsOfWordStart(t);
  }

  /** What follows the first word of a trimmed string, if anything, starts
      with whitespace and ends without. */
  lemma RestAfterWord(s: string, rest: string)
    requires s != [] && Trimmed(s)
    requires rest == s[|TakeWord(s)|..] && rest != []
    ensures IsWhitespace(rest[0]) && !IsWhitespace(rest[|rest| - 1])
  {
    var w := TakeWord(s);
    LastOfDrop(s, |w|);
    assert rest[0] == s[|w|];
  }

  /** On a trimmed string, collapsing whitespace runs is joining the words
      with underscores. */
  lemma {:induction false} CollapseTrimmedIsJoin(s: string)
    requires Trimmed(s)
    ensures CollapseWhitespace(s) == Join(Words(s), "_")
    decreases |s|
  {
    if s != [] {
      var w := TakeWord(s);
      var rest := s[|w|..];
      WordFirst(s);
      if rest == [] {
        JoinCons(w, [], "_");
        AppendEmpty(w);
      } else {
        RestAfterWord(s, rest);
        SpaceFirst(rest);
        var t := TrimStart(rest[1..]);
        CollapseTrimmedIsJoin(t);
        JoinCons(w, Words(t), "_");
        ConcatAssoc(w, "_", CollapseWhitespace(t));
      }
    }
  }

  /** Deleting whitespace distributes over concatenation. */
  lemma {:induction false} RemoveWhitespaceAppend(a: string, b: string)
    ensures RemoveWhitespace(a + b) == RemoveWhitespace(a) + RemoveWhitespace(b)
    decreases |a|
  {
    if a == [] {
      AppendEmpty(b);
    } else {
      var head := if IsWhitespace(a[0]) then [] else [a[0]];
      ConsAppend(a, b);
      assert RemoveWhitespace(a + b) == head + RemoveWhitespace(a[1..] + b);
      RemoveWhitespaceAppend(a[1..], b);
      ConcatAssoc(head, RemoveWhitespace(a[1..]), RemoveWhitespace(b));
    }
  }

  lemma {:induction false} RemoveWhitespaceOfAllWhitespace(s: string)
    requires AllWhitespace(s)
    ensures RemoveWhitespace(s) == []
    decreases |s|
  {
    if s != [] {
      RemoveWhitespaceOfAllWhitespace(s[1..]);
    }
  }

  /** A string without whitespace is left alone. */
  lemma {:induction false} RemoveWhitespaceOfNoWhitespace(s: string)
    requires NoWhitespace(s)
    ensures RemoveWhitespace(s) == s
    decreases |s|
  {
    if s != [] {
      RemoveWhitespaceOfNoWhitespace(s[1..]);
    }
  }

  lemma RemoveWhitespaceSkipsLeading(s: string)
    ensures RemoveWhitespace(s) == RemoveWhitespace(TrimStart(s))
  {
    var t := TrimStart(s);
    var k := |s| - |t|;
    SplitAt(s, k);
    RemoveWhitespaceAppend(s[..k], t);
    RemoveWhitespaceOfAllWhitespace(s[..k]);
  }

  lemma RemoveWhitespaceKeepsWord(t: string)
    ensures RemoveWhitespace(t) == TakeWord(t) + RemoveWhitespace(t[|TakeWord(t)|..])
  {
    var w := TakeWord(t);
    SplitAt(t, |w|);
    RemoveWhitespaceAppend(w, t[|w|..]);
    RemoveWhitespaceOfNoWhitespace(w);
  }

  lemma ConcatCons(w: string, rest: seq<string>)
    ensures Join([w] + rest, "") == w + Join(rest, "")
  {
    JoinCons(w, rest, "");
    if rest != [] {
      ConcatAssoc(w, "", Join(rest, ""));
    }
  }

  /** Deleting every whitespace character is concatenating the words. */
  lemma {:induction false} RemoveWhitespaceIsConcat(s: string)
    ensures RemoveWhitespace(s) == Join(Words(s), "")
    decreases |s|
  {
    RemoveWhitespaceSkipsLeading(s);
    var t := TrimStart(s);
    if t == [] {
      assert Words(s) == [];
    } else {
      var w := TakeWord(t);
      var rest := t[|w|..];
      assert Words(s) == [w] + Words(rest);
      assert RemoveWhitespace(t) == w + Join(Words(rest), "") by {
        RemoveWhitespaceKeepsWord(t);
        RemoveWhitespaceIsConcat(rest);
      }
      ConcatCons(w, Words(rest));
    }
  }

  // ---------------------------------------------------------------------------
  // Decimal rendering of a non-negative integer

  function DigitChar(d: nat): (c: char)
    requires d < 10
    ensures IsDigit(c)
  {
    ('0' as int + d) as char
  }

  function DigitValue(c: char): nat
    requires IsDigit(c)
  {
    c as int - '0' as int
  }

  /** `${n}` for a non-negative integer below 10^21: its decimal digits,
      with no leading zero. */
  function DecimalString(n: nat): (r: string)
    ensures r != [] && AllDigits(r)
    ensures r[0] == '0' ==> n == 0
  {
    if n < 10 then [DigitChar(n)] else DecimalString(n / 10) + [DigitChar(n % 10)]
  }

  /** The leading run of decimal digits. */
  function TakeDigits(s: string): (r: string)
    ensures AllDigits(r)
  {
    if s != [] && IsDigit(s[0]) then [s[0]] + TakeDigits(s[1..]) else []
  }

  lemma {:induction false} TakeDigitsAppend(d: string, rest: string)
    requires AllDigits(d)
    requires rest == [] || !IsDigit(rest[0])
    ensures TakeDigits(d + rest) == d
    decreases |d|
  {
    if d == [] {
      AppendEmpty(rest);
    } else {
      ConsAppend(d, rest);
      TakeDigitsAppend(d[1..], rest);
    }
  }

  /** The number a digit string denotes. */
  function DecimalValue(s: string): nat
    requires AllDigits(s)
  {
    if s == [] then 0 else 10 * DecimalValue(s[..|s| - 1]) + DigitValue(s[|s| - 1])
  }

  /** Reading the rendering back yields the number. */
  lemma {:induction false} DecimalRoundTrip(n: nat)
    ensures DecimalValue(DecimalString(n)) == n
  {
    if n >= 10 {
      var r := DecimalString(n);
      assert r[..|r| - 1] == DecimalString(n / 10);
      DecimalRoundTrip(n / 10);
    }
  }
}
