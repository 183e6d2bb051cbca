/** The few JavaScript string operations whose exact behaviour the models depend on. */
module JsText {

  /** White space and line terminators, as `String.prototype.trim` removes them. */
  predicate IsSpace(c: char) {
    || '\t' <= c <= '\r'
    || c == ' '
    || c == '\U{00A0}'
    || c == '\U{1680}'
    || '\U{2000}' <= c <= '\U{200A}'
    || c == '\U{2028}'
    || c == '\U{2029}'
    || c == '\U{202F}'
    || c == '\U{205F}'
    || c == '\U{3000}'
    || c == '\U{FEFF}'
  }

  function TrimStart(s: string): string {
    if s != [] && IsSpace(s[0]) then TrimStart(s[1..]) else s
  }

  function TrimEnd(s: string): string {
    if s != [] && IsSpace(s[|s| - 1]) then TrimEnd(s[..|s| - 1]) else s
  }

  function Trim(s: string): string {
    TrimEnd(TrimStart(s))
  }

  /** s is text without the white space around it. */
  ghost predicate IsTrimmed(text: string, s: string) {
    && (s != "" ==> !IsSpace(s[0]) && !IsSpace(s[|s| - 1]))
    && exists i, j :: IsMiddle(text, s, i, j)
  }

  ghost predicate IsMiddle(text: string, s: string, i: nat, j: nat) {
    && i <= j <= |text| && s == text[i..j]
    && (forall k :: 0 <= k < i ==> IsSpace(text[k])) && forall k :: j <= k < |text| ==> IsSpace(text[k])
  }

  lemma {:induction false} TrimStartIsEnd(text: string) returns (i: nat)
    ensures i <= |text| && TrimStart(text) == text[i..] && forall k :: 0 <= k < i ==> IsSpace(text[k])
    ensures i < |text| ==> !IsSpace(text[i])
  {
    hide IsSpace;
    i := 0;
    if text != [] && IsSpace(text[0]) {
      var rest := TrimStartIsEnd(text[1..]);
      i := rest + 1;
      assert forall k :: 0 < k < i ==> text[k] == text[1..][k - 1];
    }
  }

  lemma {:induction false} TrimEndIsStart(text: string) returns (j: nat)
    ensures j <= |text| && TrimEnd(text) == text[..j] && forall k :: j <= k < |text| ==> IsSpace(text[k])
    ensures j > 0 ==> !IsSpace(text[j - 1])
  {
    hide IsSpace;
    j := |text|;
    if text != [] && IsSpace(text[|text| - 1]) {
      j := TrimEndIsStart(text[..|text| - 1]);
      assert forall k :: 0 <= k < |text| - 1 ==> text[k] == text[..|text| - 1][k];
    } else {
      assert text[..|text|] == text;
    }
  }

  lemma TrimIsTrimmed(text: string)
    ensures IsTrimmed(text, Trim(text))
  {
    var i := TrimStartIsEnd(text);
    var j := TrimEndIsStart(text[i..]);
    hide IsSpace, TrimStart, TrimEnd;
    assert text[i..][..j] == text[i..i + j];
    assert forall k :: i <= k < |text| ==> text[k] == text[i..][k - i];
    assert IsMiddle(text, Trim(text), i, i + j);
  }

  lemma TrimmedIsUnique(text: string, s: string, t: string)
    requires IsTrimmed(text, s) && IsTrimmed(text, t)
    ensures s == t
  {
    hide IsSpace;
    var i: nat, j: nat :| IsMiddle(text, s, i, j);
    var k: nat, l: nat :| IsMiddle(text, t, k, l);
    if s != "" { assert s[0] == text[i] && s[|s| - 1] == text[j - 1]; }
    if t != "" { assert t[0] == text[k] && t[|t| - 1] == text[l - 1]; }
  }

  /** ASCII lower case, the folding of a case-insensitive pattern over ASCII letters. */
  function FoldCase(c: char): char {
    if 'A' <= c <= 'Z' then c + 32 as char else c
  }

  function Folded(s: string): string {
    seq(|s|, i requires 0 <= i < |s| => FoldCase(s[i]))
  }

  /** The same letter but for its case, or the same character. */
  predicate SameLetter(c: char, d: char) {
    || c == d
    || ('A' <= c <= 'Z' && d as int == c as int + 32)
    || ('A' <= d <= 'Z' && c as int == d as int + 32)
  }

  lemma FoldedAlike(c: char, d: char)
    ensures FoldCase(c) == FoldCase(d) <==> SameLetter(c, d)
  {
  }

  predicate IsWordChar(c: char) {
    'a' <= c <= 'z' || 'A' <= c <= 'Z' || '0' <= c <= '9' || c == '_'
  }

  /** A whole number as `String` writes it. */
  function Decimal(n: nat): (digits: string)
    ensures |digits| > 0 && forall c :: c in digits ==> '0' <= c <= '9'
  {
    if n < 10 then ['0' + n as char] else Decimal(n / 10) + ['0' + (n % 10) as char]
  }
}
