/** Strings as the surface compiler sees them: trimming, splitting, runs of
    word characters, decimal numerals. */
module Text {

  /** White space, as trim and `\s` understand it. */
  predicate IsSpace(c: char) {
    || c in " \t\n\r" || c == '\U{000B}' || c == '\U{000C}' || c == '\U{00A0}' || c == '\U{1680}'
    || '\U{2000}' <= c <= '\U{200A}' || c == '\U{2028}' || c == '\U{2029}' || c == '\U{202F}'
    || c == '\U{205F}' || c == '\U{3000}' || c == '\U{FEFF}'
  }

  predicate IsDigit(c: char) { '0' <= c <= '9' }

  /** The class `\w`. */
  predicate IsWord(c: char) {
    'a' <= c <= 'z' || 'A' <= c <= 'Z' || IsDigit(c) || c == '_'
  }

  /** Characters that `.` does not match. */
  predicate IsLineBreak(c: char) {
    c == '\n' || c == '\r' || c == '\U{2028}' || c == '\U{2029}'
  }

  function TrimStart(s: string): string {
    if s != [] && IsSpace(s[0]) then TrimStart(s[1..]) else s
  }

  function TrimEnd(s: string): string {
    if s != [] && IsSpace(s[|s| - 1]) then TrimEnd(s[..|s| - 1]) else s
  }

  function Trim(s: string): string {
    TrimEnd(TrimStart(s))
  }

  /** Already trimmed. */
  predicate Tight(s: string) {
    s != [] ==> !IsSpace(s[0]) && !IsSpace(s[|s| - 1])
  }

  function Split(s: string, c: char): (r: seq<string>)
    ensures |r| >= 1
  {
    if s == [] then [[]]
    else
      var rest := Split(s[1..], c);
      if s[0] == c then [[]] + rest else [[s[0]] + rest[0]] + rest[1..]
  }

  function Join(parts: seq<string>, sep: string): string {
    if parts == [] then []
    else if |parts| == 1 then parts[0]
    else parts[0] + sep + Join(parts[1..], sep)
  }

  /** Length of the longest prefix of word characters. */
  function WordLen(s: string): (n: nat)
    ensures n <= |s|
  {
    if s != [] && IsWord(s[0]) then 1 + WordLen(s[1..]) else 0
  }

  function SpaceLen(s: string): (n: nat)
    ensures n <= |s|
  {
    if s != [] && IsSpace(s[0]) then 1 + SpaceLen(s[1..]) else 0
  }

  /** Number of leading blanks (spaces only). */
  function Indent(s: string): (n: nat)
    ensures n <= |s|
  {
    if s != [] && s[0] == ' ' then 1 + Indent(s[1..]) else 0
  }

  function Spaces(n: nat): string {
    if n == 0 then [] else [' '] + Spaces(n - 1)
  }

  predicate AllWord(s: string) { forall i :: 0 <= i < |s| ==> IsWord(s[i]) }

  predicate AllDigits(s: string) { forall i :: 0 <= i < |s| ==> IsDigit(s[i]) }

  /** A non-empty identifier, `\w+`. */
  predicate IsIdent(s: string) { s != [] && AllWord(s) }

  function DigitValue(c: char): nat
    requires IsDigit(c)
  {
    c as nat - '0' as nat
  }

  function Decimal(s: string): nat
    requires AllDigits(s)
  {
    if s == [] then 0 else 10 * Decimal(s[..|s| - 1]) + DigitValue(s[|s| - 1])
  }

  function DigitChar(d: nat): (c: char)
    requires d < 10
    ensures IsDigit(c) && DigitValue(c) == d
  {
    ('0' as nat + d) as char
  }

  function Digits(n: nat): (s: string)
    ensures s != [] && AllDigits(s)
  {
    if n < 10 then [DigitChar(n)] else Digits(n / 10) + [DigitChar(n % 10)]
  }

  // ----- Lemmas ---------------------------------------------------------------

  lemma {:induction false} DecimalDigits(n: nat)
    ensures Decimal(Digits(n)) == n
  {
    if n < 10 {
      assert Digits(n)[..0] == [];
    } else {
      DecimalDigits(n / 10);
      var s := Digits(n);
      assert s[..|s| - 1] == Digits(n / 10);
    }
  }

  /** A run of word characters is measured up to the first other character. */
  lemma {:induction false} WordLenOf(w: string, rest: string)
    requires AllWord(w) && (rest == [] || !IsWord(rest[0]))
    ensures WordLen(w + rest) == |w|
  {
    if w == [] {
      assert w + rest == rest;
    } else {
      assert (w + rest)[1..] == w[1..] + rest;
      WordLenOf(w[1..], rest);
    }
  }

  lemma {:induction false} WordLenPrefix(s: string)
    ensures AllWord(s[..WordLen(s)])
    ensures WordLen(s) < |s| ==> !IsWord(s[WordLen(s)])
  {
    if s != [] && IsWord(s[0]) {
      WordLenPrefix(s[1..]);
      assert s[..WordLen(s)] == [s[0]] + s[1..][..WordLen(s[1..])];
    }
  }

  lemma {:induction false} SpaceLenOne(rest: string)
    requires rest == [] || !IsSpace(rest[0])
    ensures SpaceLen(rest) == 0
    ensures SpaceLen(" " + rest) == 1
  {
    assert (" " + rest)[1..] == rest;
  }

  lemma {:induction false} TrimEndTight(s: string)
    requires s == [] || !IsSpace(s[0])
    ensures Tight(TrimEnd(s)) && TrimEnd(s) <= s
    ensures forall c :: c in TrimEnd(s) ==> c in s
  {
    if s != [] && IsSpace(s[|s| - 1]) {
      TrimEndTight(s[..|s| - 1]);
    }
  }

  lemma {:induction false} TrimStartTight(s: string)
    ensures TrimStart(s) == [] || !IsSpace(TrimStart(s)[0])
    ensures forall c :: c in TrimStart(s) ==> c in s
  {
    if s != [] && IsSpace(s[0]) {
      TrimStartTight(s[1..]);
    }
  }

  lemma TrimTight(s: string)
    ensures Tight(Trim(s))
    ensures forall c :: c in Trim(s) ==> c in s
  {
    TrimStartTight(s);
    TrimEndTight(TrimStart(s));
  }

  lemma {:induction false} TightIsTrimmed(s: string)
    requires Tight(s)
    ensures Trim(s) == s
  {
  }

  /** A printed line: blanks in front of a tight, non-empty text. */
  lemma {:induction false} IndentedLine(n: nat, core: string)
    requires core != [] && Tight(core)
    ensures Trim(Spaces(n) + core) == core
    ensures Indent(Spaces(n) + core) == n
  {
    if n == 0 {
      assert Spaces(n) + core == core;
    } else {
      assert (Spaces(n) + core)[1..] == Spaces(n - 1) + core;
      IndentedLine(n - 1, core);
    }
  }

  lemma {:induction false} SplitPieces(s: string, c: char)
    ensures forall i :: 0 <= i < |Split(s, c)| ==> c !in Split(s, c)[i]
    ensures forall i, x :: 0 <= i < |Split(s, c)| && x in Split(s, c)[i] ==> x in s
  {
    if s != [] {
      SplitPieces(s[1..], c);
      var rest := Split(s[1..], c);
      forall i, x | 0 <= i < |Split(s, c)| && x in Split(s, c)[i] ensures x in s {
        assert s == [s[0]] + s[1..];
        if s[0] == c {
          assert i > 0 && x in rest[i - 1];
        } else if i == 0 {
          assert x == s[0] || x in rest[0];
        } else {
          assert x in rest[i];
        }
      }
    }
  }

  lemma {:induction false} SplitPrefix(a: string, s: string, c: char)
    requires c !in a
    ensures Split(a + [c] + s, c) == [a] + Split(s, c)
  {
    if a == [] {
      assert a + [c] + s == [c] + s;
      assert ([c] + s)[1..] == s;
    } else {
      assert (a + [c] + s)[1..] == a[1..] + [c] + s;
      SplitPrefix(a[1..], s, c);
      assert [a[0]] + a[1..] == a;
    }
  }

  lemma {:induction false} SplitNone(a: string, c: char)
    requires c !in a
    ensures Split(a, c) == [a]
  {
    if a != [] {
      SplitNone(a[1..], c);
      assert [a[0]] + a[1..] == a;
    }
  }

  lemma {:induction false} SplitJoin(parts: seq<string>, c: char)
    requires parts != [] && forall i :: 0 <= i < |parts| ==> c !in parts[i]
    ensures Split(Join(parts, [c]), c) == parts
  {
    if |parts| == 1 {
      SplitNone(parts[0], c);
    } else {
      SplitPrefix(parts[0], Join(parts[1..], [c]), c);
      SplitJoin(parts[1..], c);
    }
  }
}
