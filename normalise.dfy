/** The normalisation `word.toLowerCase().trim()` that `submitWord` applies before storing a word. */
module Normalisation {

  /** A code point that `String.prototype.trim` strips: an ECMAScript WhiteSpace
      (tab, vertical tab, form feed, the Zs space separators, no-break space, byte order mark)
      or LineTerminator (line feed, carriage return, line and paragraph separator). */
  predicate IsSpace(c: char) {
    c == '\t' || c == '\n' || c == '\U{B}' || c == '\U{C}' || c == '\r' || c == ' '
    || c == '\U{A0}' || c == '\U{1680}' || ('\U{2000}' <= c <= '\U{200A}')
    || c == '\U{2028}' || c == '\U{2029}' || c == '\U{202F}' || c == '\U{205F}'
    || c == '\U{3000}' || c == '\U{FEFF}'
  }

  /** An upper-case letter of Basic Latin or Latin-1 that `toLowerCase` maps one place down the table. */
  predicate IsUpper(c: char) {
    ('A' <= c <= 'Z') || ('\U{C0}' <= c <= '\U{DE}' && c != '\U{D7}')
  }

  /** `toLowerCase` on one code point: the letter 32 code points further on, or the code point itself. */
  function LowerChar(c: char): (r: char)
    ensures !IsUpper(r)
    ensures IsSpace(r) == IsSpace(c)
    ensures !IsUpper(c) ==> r == c
  {
    if IsUpper(c) then (c as int + 32) as char else c
  }

  /** `toLowerCase` on a string: code point by code point, length unchanged. */
  function Lower(s: string): (r: string)
    ensures |r| == |s|
    ensures forall k :: 0 <= k < |s| ==> r[k] == LowerChar(s[k])
  {
    seq(|s|, k requires 0 <= k < |s| => LowerChar(s[k]))
  }

  /** The lower case of a string holds no upper-case letter and has its spaces exactly where
      the string has them; a string with no upper-case letter is its own lower case, so
      lower-casing twice is lower-casing once. */
  lemma LowerSpec(s: string)
    ensures forall k :: 0 <= k < |s| ==> !IsUpper(Lower(s)[k])
    ensures forall k :: 0 <= k < |s| ==> (IsSpace(Lower(s)[k]) <==> IsSpace(s[k]))
    ensures (forall k :: 0 <= k < |s| ==> !IsUpper(s[k])) ==> Lower(s) == s
    ensures Lower(Lower(s)) == Lower(s)
  {
  }

  /** How many spaces `s` starts with. */
  function Lead(s: string): (i: nat)
    ensures i <= |s|
    ensures forall k :: 0 <= k < i ==> IsSpace(s[k])
    ensures i < |s| ==> !IsSpace(s[i])
  {
    if s != [] && IsSpace(s[0]) then
      var i := 1 + Lead(s[1..]);
      assert forall k :: 1 <= k < i ==> s[k] == s[1..][k - 1];
      i
    else 0
  }

  /** How many spaces `s` ends with. */
  function Trail(s: string): (n: nat)
    ensures n <= |s|
    ensures forall k :: |s| - n <= k < |s| ==> IsSpace(s[k])
    ensures n < |s| ==> !IsSpace(s[|s| - n - 1])
  {
    if s != [] && IsSpace(s[|s| - 1]) then
      var n := 1 + Trail(s[..|s| - 1]);
      assert forall k :: |s| - n <= k < |s| - 1 ==> s[k] == s[..|s| - 1][k];
      n
    else 0
  }

  /** `String.prototype.trim`: the leading spaces cut away, then the trailing ones.
      What is left starts where the leading spaces end, and only spaces follow it. */
  function Trim(s: string): (r: string)
    ensures Lead(s) + |r| <= |s| && r == s[Lead(s)..Lead(s) + |r|]
    ensures forall k :: Lead(s) + |r| <= k < |s| ==> IsSpace(s[k])
    ensures r == [] || (!IsSpace(r[0]) && !IsSpace(r[|r| - 1]))
  {
    var t := s[Lead(s)..];
    var r := t[..|t| - Trail(t)];
    assert forall k :: Lead(s) + |r| <= k < |s| ==> s[k] == t[k - Lead(s)];
    r
  }

  /** What `submitWord` stores for a submitted word (server.js:118): lower-cased, then trimmed.
      It neither starts nor ends with a space and holds no upper-case letter. */
  function Normalise(word: string): (r: string)
    ensures r == [] || (!IsSpace(r[0]) && !IsSpace(r[|r| - 1]))
    ensures forall k :: 0 <= k < |r| ==> !IsUpper(r[k])
  {
    Trim(Lower(word))
  }

  /** The normalised word is the stretch of the lower-cased word left once the spaces on
      either side are cut away. */
  lemma NormaliseSpec(word: string)
    ensures Lead(word) + |Normalise(word)| <= |word|
    ensures Normalise(word) == Lower(word)[Lead(word)..Lead(word) + |Normalise(word)|]
    ensures forall k :: 0 <= k < Lead(word) ==> IsSpace(word[k])
    ensures forall k :: Lead(word) + |Normalise(word)| <= k < |word| ==> IsSpace(word[k])
  {
    var l := Lower(word);
    assert forall k :: 0 <= k < |word| ==> IsSpace(l[k]) == IsSpace(word[k]);
    assert Lead(l) == Lead(word) by { LeadSameSpaces(l, word); }
  }

  /** Two equally long strings with spaces in the same places start with as many spaces. */
  lemma {:induction false} LeadSameSpaces(a: string, b: string)
    requires |a| == |b| && forall k :: 0 <= k < |a| ==> IsSpace(a[k]) == IsSpace(b[k])
    ensures Lead(a) == Lead(b)
  {
    if a != [] && IsSpace(a[0]) {
      LeadSameSpaces(a[1..], b[1..]);
    }
  }

  /** A string that neither starts nor ends with a space is left alone by `trim`. */
  lemma TrimKeepsTrimmed(s: string)
    requires s == [] || (!IsSpace(s[0]) && !IsSpace(s[|s| - 1]))
    ensures Trim(s) == s
  {
    assert Lead(s) == 0;
    assert Trail(s) == 0;
  }

  /** Normalising twice is normalising once: a stored word re-submitted is stored unchanged. */
  lemma NormaliseIdempotent(word: string)
    ensures Normalise(Normalise(word)) == Normalise(word)
  {
    var n := Normalise(word);
    assert Lower(n) == n;
    TrimKeepsTrimmed(n);
  }

  /** A word normalises to the empty word exactly when it is made of spaces only. */
  lemma NormalisedEmptyIffBlank(word: string)
    ensures Normalise(word) == [] <==> forall k :: 0 <= k < |word| ==> IsSpace(word[k])
  {
    var l := Lower(word);
    if Normalise(word) != [] {
      var k := Lead(l);
      assert Normalise(word)[0] == l[k] == LowerChar(word[k]);
    }
  }

  /** The spellings "Cat " and "CAT" of the word "cat" normalise to it. */
  lemma CatSpellings()
    ensures Normalise("Cat ") == "cat"
    ensures Normalise("CAT") == "cat"
    ensures Normalise("cat") == "cat"
  {
    assert LowerChar('C') == 'c' && LowerChar('A') == 'a' && LowerChar('T') == 't';
    assert LowerChar('a') == 'a' && LowerChar('t') == 't' && LowerChar(' ') == ' ';
    assert Lower("cat") == "cat";
    assert Lower("CAT") == "cat";
    assert Lower("Cat ") == "cat ";
    TrimKeepsTrimmed("cat");
    assert Lead("cat ") == 0;
    assert Trail("cat ") == 1 by {
      assert "cat "[..3] == "cat";
      assert Trail("cat") == 0;
    }
  }
}
