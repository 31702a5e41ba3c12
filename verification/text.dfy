/** The Python string methods the rental prompts apply to their answers:
    `strip`, `lower`, `upper`, `title`, `replace(' ', '')`, `isalpha`,
    `isdigit` and `int` on digit strings. Character classes and case
    mappings are exact for code points up to U+00FF; see the README for what
    lies beyond. */
module Text {
  import opened Seqs

  /** `c.isspace()`. */
  predicate IsSpace(c: char) {
    c == ' ' || '\t' <= c <= '\r' || '\U{1c}' <= c <= '\U{1f}' || c == '\U{85}' || c == '\U{a0}'
  }

  /** `c.isalpha()`: ASCII letters and the Latin-1 letters (ª, µ, º, À-Ö, Ø-ö, ø-ÿ). */
  predicate IsLetter(c: char) {
    || 'A' <= c <= 'Z' || 'a' <= c <= 'z'
    || c == '\U{aa}' || c == '\U{b5}' || c == '\U{ba}'
    || '\U{c0}' <= c <= '\U{d6}' || '\U{d8}' <= c <= '\U{f6}' || '\U{f8}' <= c <= '\U{ff}'
  }

  /** `c.isdigit()`: the decimal digits and the superscripts ¹ ² ³. */
  predicate IsDigit(c: char) {
    IsDecimal(c) || c == '\U{b2}' || c == '\U{b3}' || c == '\U{b9}'
  }

  /** The characters `int()` reads as digits. */
  predicate IsDecimal(c: char) {
    '0' <= c <= '9'
  }

  predicate AllDecimal(s: string) {
    forall i :: 0 <= i < |s| ==> IsDecimal(s[i])
  }

  /** `int(s)` for a string of decimal digits. */
  function DecimalValue(s: string): nat
    requires AllDecimal(s)
  {
    if s == [] then 0
    else DecimalValue(s[..|s| - 1]) * 10 + (s[|s| - 1] as int - '0' as int)
  }

  function TrimLeft(s: string): (t: string)
    ensures |t| <= |s| && t == s[|s| - |t|..]
    ensures forall i :: 0 <= i < |s| - |t| ==> IsSpace(s[i])
    ensures t != [] ==> !IsSpace(t[0])
  {
    if s != [] && IsSpace(s[0]) then TrimLeft(s[1..]) else s
  }

  function TrimRight(s: string): (t: string)
    ensures |t| <= |s| && t == s[..|t|]
    ensures forall i :: |t| <= i < |s| ==> IsSpace(s[i])
    ensures t != [] ==> !IsSpace(t[|t| - 1])
  {
    if s != [] && IsSpace(s[|s| - 1]) then TrimRight(s[..|s| - 1]) else s
  }

  /** `t` is `s` with some leading and some trailing whitespace cut off. */
  predicate TrimmedOf(s: string, t: string) {
    exists a, b :: 0 <= a <= b <= |s| && TrimmedAt(s, t, a, b)
  }

  predicate TrimmedAt(s: string, t: string, a: int, b: int) {
    && 0 <= a <= b <= |s| && t == s[a..b]
    && (forall i :: 0 <= i < a ==> IsSpace(s[i]))
    && (forall i :: b <= i < |s| ==> IsSpace(s[i]))
  }

  /** `s.strip()`: `s` with its leading and trailing whitespace cut off; it
      is empty exactly when `s` is all whitespace, and otherwise neither
      starts nor ends with whitespace. */
  function Strip(s: string): (t: string)
    ensures TrimmedOf(s, t)
    ensures t == [] <==> forall i :: 0 <= i < |s| ==> IsSpace(s[i])
    ensures t != [] ==> !IsSpace(t[0]) && !IsSpace(t[|t| - 1])
  {
    var left := TrimLeft(s);
    StripCuts(s, left, TrimRight(left));
    TrimRight(left)
  }

  /** Cutting whitespace off the front and then off the back cuts a slice
      out of the middle. */
  lemma StripCuts(s: string, left: string, t: string)
    requires |left| <= |s| && left == s[|s| - |left|..]
    requires forall i :: 0 <= i < |s| - |left| ==> IsSpace(s[i])
    requires |t| <= |left| && t == left[..|t|]
    requires forall i :: |t| <= i < |left| ==> IsSpace(left[i])
    ensures TrimmedAt(s, t, |s| - |left|, |s| - |left| + |t|)
  {
    var a := |s| - |left|;
    forall i | a + |t| <= i < |s| ensures IsSpace(s[i]) {
      assert s[i] == left[i - a];
    }
  }

  function LowerChar(c: char): char {
    if 'A' <= c <= 'Z' then (c as int + 32) as char else c
  }

  function UpperChar(c: char): char {
    if 'a' <= c <= 'z' then (c as int - 32) as char else c
  }

  /** `s.lower()` (ASCII case mapping). */
  function Lower(s: string): (t: string)
    ensures |t| == |s|
  {
    seq(|s|, i requires 0 <= i < |s| => LowerChar(s[i]))
  }

  /** `s.upper()` (ASCII case mapping). */
  function Upper(s: string): (t: string)
    ensures |t| == |s|
  {
    seq(|s|, i requires 0 <= i < |s| => UpperChar(s[i]))
  }

  /** `s.title()`: a cased letter is upper-cased when the character before it
      is not a letter, and lower-cased otherwise. */
  function Title(s: string): (t: string)
    ensures |t| == |s|
  {
    TitleAfter(s, false)
  }

  function TitleAfter(s: string, afterLetter: bool): (t: string)
    ensures |t| == |s|
  {
    if s == [] then []
    else [if afterLetter then LowerChar(s[0]) else UpperChar(s[0])] + TitleAfter(s[1..], IsLetter(s[0]))
  }

  /** The confirmation the prompts compare against: `answer.lower() == 's'`. */
  predicate IsYes(answer: string)
    ensures IsYes(answer) <==> answer == "s" || answer == "S"
  {
    var l := Lower(answer);
    assert |l| == 1 ==> l[0] == LowerChar(answer[0]);
    l == "s"
  }

  predicate NotBlank(c: char) {
    c != ' '
  }

  /** `s.replace(' ', '')`: only the plain space is removed. */
  function RemoveSpaces(s: string): string {
    Filter(s, NotBlank)
  }
}
