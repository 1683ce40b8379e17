/**
 * Go's `strings.Title`, which `AssignValues` applies to every request-parameter key
 * to turn it into an exported struct field name. The model covers ASCII: letters,
 * digits and `_` continue a word, every other ASCII character separates words, and
 * an ASCII lower-case letter that starts a word is upper-cased.
 */
module Strings {

  predicate IsLower(c: char) {
    'a' <= c <= 'z'
  }

  predicate IsUpper(c: char) {
    'A' <= c <= 'Z'
  }

  /** A character after which the next letter starts a new word. */
  predicate IsSeparator(c: char) {
    c as int < 0x80 && !('0' <= c <= '9' || IsLower(c) || IsUpper(c) || c == '_')
  }

  function ToUpper(c: char): (u: char)
    ensures IsLower(c) ==> IsUpper(u)
    ensures !IsLower(c) ==> u == c
  {
    if IsLower(c) then (c as int - 32) as char else c
  }

  predicate StartsWord(s: string, i: nat)
    requires i < |s|
  {
    i == 0 || IsSeparator(s[i - 1])
  }

  /**
   * `strings.Title`: the first letter of every word is upper-cased. Only lower-case
   * letters change, each into its upper-case form, and the result never has a
   * lower-case letter at the start of a word.
   */
  function Title(s: string): (r: string)
    ensures |r| == |s|
    ensures forall i :: 0 <= i < |s| ==> r[i] == s[i] || (IsLower(s[i]) && r[i] == ToUpper(s[i]))
    ensures forall i :: 0 <= i < |s| && StartsWord(r, i) ==> !IsLower(r[i])
    ensures forall i :: 0 <= i < |s| && !StartsWord(s, i) ==> r[i] == s[i]
  {
    seq(|s|, i requires 0 <= i < |s| => if StartsWord(s, i) then ToUpper(s[i]) else s[i])
  }

  /** Capitalising twice is capitalising once: upper-casing never changes whether a character separates words. */
  lemma TitleIdempotent(s: string)
    ensures Title(Title(s)) == Title(s)
  {
    var t := Title(s);
    assert forall i :: 0 <= i < |s| ==> IsSeparator(t[i]) == IsSeparator(s[i]);
  }

  /** A key is turned into a field name word by word, not only at its first letter. */
  lemma TitlePage()
    ensures Title("page") == "Page"
  {
  }

  lemma TitleQuery()
    ensures Title("query") == "Query"
  {
  }

  lemma TitleEveryWord()
    ensures Title("page-size") == "Page-Size"
  {
  }

  /** An underscore joins words. */
  lemma TitleUnderscoreJoins()
    ensures Title("page_size") == "Page_size"
  {
  }
}
