/** The handful of Python 2 string operations the security layer relies on:
    whitespace tests, `strip`, `split`, ASCII `lower`, and `int()` on a token.
    Two kinds of text meet here: form data, which WTForms hands over as
    `unicode`, and configuration values and command-line arguments, which are
    byte strings. Their whitespace differs, and each operation below says
    which one it uses. */
module Text {
  import opened Wrappers

  /** The characters that Python 2's `str.isspace`, `str.split()`, `str.strip()`
      and the regular-expression class `\s` (without the UNICODE flag) treat as
      whitespace: space, tab, newline, carriage return, vertical tab, form feed. */
  predicate IsSpace(c: char) {
    c == ' ' || c == '\t' || c == '\n' || c == '\r' || c == '\U{000B}' || c == '\U{000C}'
  }

  /** The characters Python 2's `unicode.isspace` and `unicode.strip()`
      treat as whitespace: the byte-string ones, the information separators
      U+001C to U+001F, and the Unicode space and line separators (as of the
      Unicode 5.2 database, which still counts U+180E). */
  predicate IsUnicodeSpace(c: char) {
    || IsSpace(c)
    || '\U{001C}' <= c <= '\U{001F}'
    || c == '\U{0085}' || c == '\U{00A0}' || c == '\U{1680}' || c == '\U{180E}'
    || '\U{2000}' <= c <= '\U{200A}'
    || c == '\U{2028}' || c == '\U{2029}' || c == '\U{202F}' || c == '\U{205F}' || c == '\U{3000}'
  }

  /** True iff the form text `s` holds whitespace only (so `s.strip() == u''`). */
  predicate IsBlank(s: string) {
    forall i | 0 <= i < |s| :: IsUnicodeSpace(s[i])
  }

  /** The suffix of the byte string `s` after its leading whitespace, which
      `split()` skips. */
  function TrimLeft(s: string): (r: string)
    ensures |r| <= |s| && r == s[|s| - |r|..]
    ensures forall i | 0 <= i < |s| - |r| :: IsSpace(s[i])
    ensures |r| > 0 ==> !IsSpace(r[0])
  {
    if |s| > 0 && IsSpace(s[0]) then TrimLeft(s[1..]) else s
  }

  /** `s.lstrip()` on form text: the suffix of `s` after its leading whitespace. */
  function LStrip(s: string): (r: string)
    ensures |r| <= |s| && r == s[|s| - |r|..]
    ensures forall i | 0 <= i < |s| - |r| :: IsUnicodeSpace(s[i])
    ensures |r| > 0 ==> !IsUnicodeSpace(r[0])
  {
    if |s| > 0 && IsUnicodeSpace(s[0]) then LStrip(s[1..]) else s
  }

  /** `s.rstrip()` on form text: the prefix of `s` before its trailing whitespace. */
  function RStrip(s: string): (r: string)
    ensures |r| <= |s| && r == s[..|r|]
    ensures forall i | |r| <= i < |s| :: IsUnicodeSpace(s[i])
    ensures |r| > 0 ==> !IsUnicodeSpace(r[|r| - 1])
  {
    if |s| > 0 && IsUnicodeSpace(s[|s| - 1]) then RStrip(s[..|s| - 1]) else s
  }

  /** `s.strip()` on form text: empty exactly for blank text; otherwise an
      infix of `s` that neither starts nor ends with whitespace. */
  function Strip(s: string): (r: string)
    ensures r == [] <==> IsBlank(s)
    ensures r != [] ==> !IsUnicodeSpace(r[0]) && !IsUnicodeSpace(r[|r| - 1])
    ensures |r| <= |s|
  {
    var t := LStrip(s);
    var r := RStrip(t);
    assert r == [] ==> t == [];
    assert IsBlank(s) ==> t == [];
    r
  }

  /** A token of `s.split()`: non-empty, no whitespace. */
  predicate IsWord(w: string) {
    |w| > 0 && forall i | 0 <= i < |w| :: !IsSpace(w[i])
  }

  /** The longest prefix of `s` that holds no whitespace. */
  function LeadingWord(s: string): (w: string)
    ensures |w| <= |s| && w == s[..|w|]
    ensures forall i | 0 <= i < |w| :: !IsSpace(w[i])
    ensures |w| < |s| ==> IsSpace(s[|w|])
  {
    if |s| == 0 || IsSpace(s[0]) then [] else [s[0]] + LeadingWord(s[1..])
  }

  /** `s.split()` with no separator: the maximal runs of non-whitespace. */
  function Split(s: string): (ws: seq<string>)
    ensures forall i | 0 <= i < |ws| :: IsWord(ws[i])
    decreases |s|
  {
    var t := TrimLeft(s);
    if t == [] then []
    else
      var w := LeadingWord(t);
      assert |w| > 0;
      [w] + Split(t[|w|..])
  }

  /** `' '.join(ws)`. */
  function JoinWords(ws: seq<string>): string {
    if |ws| == 0 then []
    else if |ws| == 1 then ws[0]
    else ws[0] + " " + JoinWords(ws[1..])
  }

  lemma {:induction false} LeadingWordOf(w: string, rest: string)
    requires forall i | 0 <= i < |w| :: !IsSpace(w[i])
    requires rest == [] || IsSpace(rest[0])
    ensures LeadingWord(w + rest) == w
    decreases |w|
  {
    if |w| > 0 {
      assert (w + rest)[1..] == w[1..] + rest;
      LeadingWordOf(w[1..], rest);
    }
  }

  /** A string without whitespace is its own leading word. */
  lemma {:induction false} LeadingWordWhole(w: string)
    requires forall i | 0 <= i < |w| :: !IsSpace(w[i])
    ensures LeadingWord(w) == w
    decreases |w|
  {
    if |w| > 0 {
      LeadingWordWhole(w[1..]);
      assert [w[0]] + w[1..] == w;
    }
  }

  lemma {:induction false} SplitOneWord(w: string)
    requires IsWord(w)
    ensures Split(w) == [w]
  {
    assert TrimLeft(w) == w;
    LeadingWordWhole(w);
    assert w[|w|..] == [];
    assert Split([]) == [];
    assert [w] + [] == [w];
  }

  lemma SplitLeadingWord(w: string, tail: string)
    requires IsWord(w)
    ensures Split(w + " " + tail) == [w] + Split(tail)
  {
    var s := w + " " + tail;
    assert s == w + (" " + tail);
    LeadingWordOf(w, " " + tail);
    assert TrimLeft(s) == s;
    assert s[|w|..] == " " + tail;
    assert (" " + tail)[1..] == tail;
    assert TrimLeft(" " + tail) == TrimLeft(tail);
  }

  /** Splitting the space-joined words gives the words back. */
  lemma {:induction false} SplitJoin(ws: seq<string>)
    requires forall i | 0 <= i < |ws| :: IsWord(ws[i])
    ensures Split(JoinWords(ws)) == ws
    decreases |ws|
  {
    if |ws| == 1 {
      SplitOneWord(ws[0]);
    } else if |ws| > 1 {
      SplitLeadingWord(ws[0], JoinWords(ws[1..]));
      SplitJoin(ws[1..]);
      assert ws == [ws[0]] + ws[1..];
    }
  }

  /** ASCII lower-casing of one character (Python 2 `str.lower` in the C locale). */
  function LowerChar(c: char): char {
    if 'A' <= c <= 'Z' then (c as int + 32) as char else c
  }

  /** `s.lower()`. */
  function Lower(s: string): (r: string)
    ensures |r| == |s| && forall i | 0 <= i < |s| :: r[i] == LowerChar(s[i])
  {
    seq(|s|, i requires 0 <= i < |s| => LowerChar(s[i]))
  }

  /** ASCII upper-casing of one character. */
  function UpperChar(c: char): char {
    if 'a' <= c <= 'z' then (c as int - 32) as char else c
  }

  /** `s.upper()`. */
  function Upper(s: string): (r: string)
    ensures |r| == |s| && forall i | 0 <= i < |s| :: r[i] == UpperChar(s[i])
  {
    seq(|s|, i requires 0 <= i < |s| => UpperChar(s[i]))
  }

  /** `re.sub(r'\s', '', s)`: `s` with every whitespace character deleted. */
  function RemoveSpaces(s: string): (r: string)
    ensures forall i | 0 <= i < |r| :: !IsSpace(r[i])
    ensures |r| <= |s|
  {
    if |s| == 0 then []
    else if IsSpace(s[0]) then RemoveSpaces(s[1..])
    else [s[0]] + RemoveSpaces(s[1..])
  }

  lemma {:induction false} RemoveSpacesAppend(a: string, b: string)
    ensures RemoveSpaces(a + b) == RemoveSpaces(a) + RemoveSpaces(b)
    decreases |a|
  {
    if |a| > 0 {
      assert (a + b)[0] == a[0];
      assert (a + b)[1..] == a[1..] + b;
      RemoveSpacesAppend(a[1..], b);
      if IsSpace(a[0]) {
        assert RemoveSpaces(a + b) == RemoveSpaces(a[1..] + b);
      } else {
        assert RemoveSpaces(a + b) == [a[0]] + RemoveSpaces(a[1..] + b);
        assert [a[0]] + (RemoveSpaces(a[1..]) + RemoveSpaces(b)) == ([a[0]] + RemoveSpaces(a[1..])) + RemoveSpaces(b);
      }
    } else {
      assert a + b == b;
    }
  }

  predicate IsDigit(c: char) {
    '0' <= c <= '9'
  }

  predicate IsDigits(s: string) {
    |s| > 0 && forall i | 0 <= i < |s| :: IsDigit(s[i])
  }

  function DigitChar(d: nat): (c: char)
    requires d < 10
    ensures IsDigit(c)
  {
    ('0' as int + d) as char
  }

  /** The decimal value of a run of digits. */
  function DigitsValue(s: string): nat
    requires forall i | 0 <= i < |s| :: IsDigit(s[i])
  {
    if |s| == 0 then 0
    else
      assert IsDigit(s[|s| - 1]);
      DigitsValue(s[..|s| - 1]) * 10 + (s[|s| - 1] as int - '0' as int)
  }

  /** Python 2 `int(token)` on a whitespace-free token: an optional sign
      followed by at least one decimal digit; anything else is a `ValueError`
      (here `None`). */
  function ParseInt(s: string): Option<int> {
    if |s| > 0 && (s[0] == '-' || s[0] == '+') then
      if IsDigits(s[1..]) then
        var magnitude: int := DigitsValue(s[1..]);
        Some(if s[0] == '-' then -magnitude else magnitude)
      else None
    else if IsDigits(s) then Some(DigitsValue(s))
    else None
  }

  /** The decimal text of a natural number, most significant digit first. */
  function ShowNat(n: nat): (s: string)
    ensures IsDigits(s)
    decreases n
  {
    if n < 10 then [DigitChar(n)] else ShowNat(n / 10) + [DigitChar(n % 10)]
  }

  /** `str(n)` for an integer. */
  function ShowInt(n: int): (s: string)
    ensures IsWord(s)
  {
    if n < 0 then "-" + ShowNat(-n) else ShowNat(n)
  }

  lemma {:induction false} DigitsValueShowNat(n: nat)
    ensures DigitsValue(ShowNat(n)) == n
    decreases n
  {
    if n >= 10 {
      var s := ShowNat(n);
      assert s[..|s| - 1] == ShowNat(n / 10);
      DigitsValueShowNat(n / 10);
    }
  }

  /** `int(str(n)) == n`. */
  lemma ParseShowInt(n: int)
    ensures ParseInt(ShowInt(n)) == Some(n)
  {
    if n < 0 {
      assert ShowInt(n)[1..] == ShowNat(-n);
      DigitsValueShowNat(-n);
    } else {
      DigitsValueShowNat(n);
    }
  }
}
