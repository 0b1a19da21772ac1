/** The JavaScript string built-ins the quiz code relies on (`toLowerCase`, `includes`, `trim`,
    `replace` with a global character-class regular expression, number-to-string conversion),
    restricted to ASCII characters. */
module Text {

  /** The ASCII members of the regular-expression class `\s`; `trim` removes the same characters. */
  predicate IsSpace(c: char) {
    c == ' ' || c == '\t' || c == '\n' || c == '\U{B}' || c == '\U{C}' || c == '\r'
  }

  predicate IsUpper(c: char) {
    'A' <= c <= 'Z'
  }

  /** `toLowerCase` on one character. */
  function Lower(c: char): (d: char)
    ensures !IsUpper(d)
    ensures IsSpace(d) == IsSpace(c) && (d == '_') == (c == '_')
    ensures !IsUpper(c) ==> d == c
  {
    if IsUpper(c) then (c as int + 32) as char else c
  }

  /** `toLowerCase` on a string: character by character. */
  function ToLower(s: string): (r: string)
    ensures |r| == |s|
    ensures forall i :: 0 <= i < |s| ==> r[i] == Lower(s[i])
  {
    if s == [] then [] else [Lower(s[0])] + ToLower(s[1..])
  }

  lemma ToLowerAppend(a: string, b: string)
    ensures ToLower(a + b) == ToLower(a) + ToLower(b)
  {
    assert forall i :: 0 <= i < |a + b| ==> ToLower(a + b)[i] == (ToLower(a) + ToLower(b))[i];
  }

  /** `needle` occurs in `hay` at index `i`. */
  predicate OccursAt(hay: string, needle: string, i: int) {
    0 <= i && i + |needle| <= |hay| && hay[i..i + |needle|] == needle
  }

  /** `hay.includes(needle)`: true exactly when `needle` occurs somewhere in `hay`. */
  function Includes(hay: string, needle: string): (b: bool)
    ensures b <==> exists i :: OccursAt(hay, needle, i)
    decreases |hay|
  {
    if |needle| <= |hay| && hay[..|needle|] == needle then
      assert OccursAt(hay, needle, 0);
      true
    else if hay == [] then
      false
    else
      OccursShift(hay, needle);
      Includes(hay[1..], needle)
  }

  /** Away from index 0, occurrences in `hay` are the occurrences in `hay[1..]`, shifted by one. */
  lemma OccursShift(hay: string, needle: string)
    requires hay != [] && !OccursAt(hay, needle, 0)
    ensures (exists i :: OccursAt(hay, needle, i)) <==> (exists i :: OccursAt(hay[1..], needle, i))
  {
    forall i | OccursAt(hay, needle, i)
      ensures OccursAt(hay[1..], needle, i - 1)
    {
      assert hay[1..][i - 1..i - 1 + |needle|] == hay[i..i + |needle|];
    }
    forall i | OccursAt(hay[1..], needle, i)
      ensures OccursAt(hay, needle, i + 1)
    {
      assert hay[1..][i..i + |needle|] == hay[i + 1..i + 1 + |needle|];
    }
  }

  /** Every string includes the empty string. */
  lemma IncludesEmpty(hay: string)
    ensures Includes(hay, "")
  {
    assert OccursAt(hay, "", 0);
  }

  /** The value of a decimal digit character. */
  function DigitValue(c: char): int {
    c as int - '0' as int
  }

  /** The number a string of decimal digits denotes, most significant digit first. */
  function DecimalValue(s: string): int
    decreases |s|
  {
    if s == [] then 0 else 10 * DecimalValue(s[..|s| - 1]) + DigitValue(s[|s| - 1])
  }

  function DigitChar(d: nat): (c: char)
    requires d < 10
    ensures '0' <= c <= '9' && DigitValue(c) == d
  {
    "0123456789"[d]
  }

  /** The decimal rendering of a natural number, as a template literal prints it: digits that
      spell `n`, without a leading zero. */
  function NatToString(n: nat): (s: string)
    ensures |s| >= 1
    ensures forall i :: 0 <= i < |s| ==> '0' <= s[i] <= '9'
    ensures DecimalValue(s) == n
    ensures n > 0 ==> s[0] != '0'
    decreases n
  {
    if n < 10 then [DigitChar(n)]
    else
      var t, d := NatToString(n / 10), DigitChar(n % 10);
      assert (t + [d])[..|t|] == t;
      t + [d]
  }

  /** The decimal rendering of an integer, with a leading minus sign when negative. */
  function IntToString(i: int): string {
    if i < 0 then "-" + NatToString(-i) else NatToString(i)
  }

  predicate IsBlank(s: string) {
    forall i :: 0 <= i < |s| ==> IsSpace(s[i])
  }

  /** `trimStart`: drops the leading white space. */
  function TrimStart(s: string): (r: string)
    ensures r == [] || !IsSpace(r[0])
    ensures r == [] <==> IsBlank(s)
  {
    if s != [] && IsSpace(s[0]) then
      assert IsBlank(s) <==> IsBlank(s[1..]);
      TrimStart(s[1..])
    else
      s
  }

  /** `trimEnd`: drops the trailing white space. */
  function TrimEnd(s: string): (r: string)
    ensures r == [] || !IsSpace(r[|r| - 1])
    ensures r == [] <==> IsBlank(s)
  {
    if s != [] && IsSpace(s[|s| - 1]) then
      assert IsBlank(s) <==> IsBlank(s[..|s| - 1]);
      TrimEnd(s[..|s| - 1])
    else
      s
  }

  /** `trimStart` removes leading white space and nothing else: the result is what follows a
      white-space prefix of the text. */
  lemma {:induction false} TrimStartDrops(s: string)
    ensures var r := TrimStart(s);
      |r| <= |s| && r == s[|s| - |r|..] && IsBlank(s[..|s| - |r|])
    decreases |s|
  {
    if s != [] && IsSpace(s[0]) {
      TrimStartDrops(s[1..]);
      var r := TrimStart(s[1..]);
      assert s[1..][|s| - 1 - |r|..] == s[|s| - |r|..];
      assert s[..|s| - |r|] == [s[0]] + s[1..][..|s| - 1 - |r|];
    }
  }

  /** `trimEnd` removes trailing white space and nothing else: the result is followed by a
      white-space suffix of the text. */
  lemma {:induction false} TrimEndDrops(s: string)
    ensures var r := TrimEnd(s);
      |r| <= |s| && r == s[..|r|] && IsBlank(s[|r|..])
    decreases |s|
  {
    if s != [] && IsSpace(s[|s| - 1]) {
      var t := s[..|s| - 1];
      TrimEndDrops(t);
      var r := TrimEnd(t);
      assert t[..|r|] == s[..|r|];
      assert s[|r|..] == t[|r|..] + [s[|s| - 1]];
    }
  }

  /** `trim`: drops the white space at both ends. */
  function Trim(s: string): string {
    TrimEnd(TrimStart(s))
  }

  /** `s.trim()` is the empty (falsy) string exactly when `s` is made of white space only. */
  lemma TrimEmptyIffBlank(s: string)
    ensures Trim(s) == "" <==> IsBlank(s)
  {
    var t := TrimStart(s);
    assert t != [] ==> !IsBlank(t);
  }

  /** No two neighbouring characters of `s` both belong to the class. */
  predicate NoAdjacent(s: string, inClass: char -> bool) {
    forall i :: 0 <= i < |s| - 1 ==> !(inClass(s[i]) && inClass(s[i + 1]))
  }

  /** `s.replace(/C+/g, r)` for a character class `C`: every maximal run of class characters
      becomes the single character `r`. `inRun` says whether the character just before `s`
      belonged to the class (false at the start of the string). */
  function Squeeze(s: string, inClass: char -> bool, r: char, inRun: bool): string
    decreases |s|
  {
    if s == [] then []
    else if inClass(s[0]) then (if inRun then [] else [r]) + Squeeze(s[1..], inClass, r, true)
    else [s[0]] + Squeeze(s[1..], inClass, r, false)
  }

  /** Whether the scan of `Squeeze` is inside a run after reading `s`. */
  function RunStateAfter(s: string, inClass: char -> bool, inRun: bool): bool {
    if s == [] then inRun else inClass(s[|s| - 1])
  }

  /** The output of `Squeeze` for the character `c` given the state before it. */
  function SqueezeHead(c: char, inClass: char -> bool, r: char, inRun: bool): string {
    if inClass(c) then (if inRun then [] else [r]) else [c]
  }

  lemma SqueezeCons(c: char, s: string, inClass: char -> bool, r: char, inRun: bool)
    ensures Squeeze([c] + s, inClass, r, inRun) == SqueezeHead(c, inClass, r, inRun) + Squeeze(s, inClass, r, inClass(c))
  {
    assert ([c] + s)[0] == c;
    assert ([c] + s)[1..] == s;
  }

  /** `Squeeze` of a concatenation is the concatenation of the two squeezes, the second one
      resuming in the state the first one ended in. */
  lemma {:induction false} SqueezeAppend(a: string, b: string, inClass: char -> bool, r: char, inRun: bool)
    ensures Squeeze(a + b, inClass, r, inRun)
         == Squeeze(a, inClass, r, inRun) + Squeeze(b, inClass, r, RunStateAfter(a, inClass, inRun))
    decreases |a|
  {
    if a == [] {
      assert a + b == b;
    } else {
      var c, t := a[0], a[1..];
      var st := inClass(c);
      var head := SqueezeHead(c, inClass, r, inRun);
      assert a == [c] + t;
      calc {
        Squeeze(a + b, inClass, r, inRun);
        { assert a + b == [c] + (t + b); SqueezeCons(c, t + b, inClass, r, inRun); }
        head + Squeeze(t + b, inClass, r, st);
        { SqueezeAppend(t, b, inClass, r, st); }
        head + (Squeeze(t, inClass, r, st) + Squeeze(b, inClass, r, RunStateAfter(t, inClass, st)));
        { assert RunStateAfter(t, inClass, st) == RunStateAfter(a, inClass, inRun); }
        (head + Squeeze(t, inClass, r, st)) + Squeeze(b, inClass, r, RunStateAfter(a, inClass, inRun));
        { SqueezeCons(c, t, inClass, r, inRun); }
        Squeeze(a, inClass, r, inRun) + Squeeze(b, inClass, r, RunStateAfter(a, inClass, inRun));
      }
    }
  }

  /** Every output character is either `r` or a non-class character of the input. */
  lemma {:induction false} SqueezeChars(s: string, inClass: char -> bool, r: char, inRun: bool)
    ensures forall c :: c in Squeeze(s, inClass, r, inRun) ==> c == r || (c in s && !inClass(c))
    decreases |s|
  {
    if s != [] {
      SqueezeChars(s[1..], inClass, r, inClass(s[0]));
    }
  }

  /** Inside a run, the output resumes with a character outside the class (or ends). */
  lemma {:induction false} SqueezeAfterRun(s: string, inClass: char -> bool, r: char)
    ensures var o := Squeeze(s, inClass, r, true); o == [] || !inClass(o[0])
    decreases |s|
  {
    if s != [] && inClass(s[0]) {
      SqueezeAfterRun(s[1..], inClass, r);
    }
  }

  /** No two class characters are neighbours in the output. */
  lemma {:induction false} SqueezeNoAdjacent(s: string, inClass: char -> bool, r: char, inRun: bool)
    ensures NoAdjacent(Squeeze(s, inClass, r, inRun), inClass)
    decreases |s|
  {
    if s != [] {
      var rest := Squeeze(s[1..], inClass, r, inClass(s[0]));
      SqueezeNoAdjacent(s[1..], inClass, r, inClass(s[0]));
      if inClass(s[0]) {
        SqueezeAfterRun(s[1..], inClass, r);
      }
    }
  }

  /** A string already in squeezed form is left as it is. */
  lemma {:induction false} SqueezeIdentity(s: string, inClass: char -> bool, r: char, inRun: bool)
    requires forall i :: 0 <= i < |s| && inClass(s[i]) ==> s[i] == r
    requires NoAdjacent(s, inClass)
    requires inRun ==> s == [] || !inClass(s[0])
    ensures Squeeze(s, inClass, r, inRun) == s
    decreases |s|
  {
    if s != [] {
      SqueezeIdentity(s[1..], inClass, r, inClass(s[0]));
    }
  }

  /** Squeezing a string that ends in a non-class character keeps that last character. */
  lemma SqueezeEndsOutsideRun(s: string, inClass: char -> bool, r: char, inRun: bool)
    requires s != [] && !inClass(s[|s| - 1])
    ensures var o := Squeeze(s, inClass, r, inRun); o != [] && o[|o| - 1] == s[|s| - 1]
  {
    var a, x := s[..|s| - 1], s[|s| - 1];
    assert s == a + [x];
    SqueezeAppend(a, [x], inClass, r, inRun);
  }
}
