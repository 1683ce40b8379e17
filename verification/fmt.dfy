/**
 * `fmt.Fprintf(w, out)` with no arguments, as `ServeHTTP` writes a wireframe's output
 * (brisk.go:239): the output is read as a format string, so every `%` in it starts a
 * directive. The model covers `%%`, a `%` followed by a verb character, and a `%` at
 * the very end; a directive with flags, width, precision or an argument index is
 * answered with `None`.
 */
module Fmt {
  import opened Wrappers

  /** A character that `fmt` reads as a flag, width, precision or argument index after `%`. */
  predicate IsFlagOrWidth(c: char) {
    c in "#0+- [*.123456789"
  }

  function Prepend(p: string, r: Option<string>): (t: Option<string>)
    ensures t.Some? <==> r.Some?
    ensures t.Some? ==> t.value == p + r.value
  {
    match r
    case None => None
    case Some(s) => Some(p + s)
  }

  /**
   * What `fmt.Fprintf(w, s)` writes: `%%` becomes `%`, `%c` becomes `%!c(MISSING)`, a
   * final `%` becomes `%!(NOVERB)`, and text without `%` is written as it is.
   */
  function PrintfNoArgs(s: string): (r: Option<string>)
    ensures (forall i :: 0 <= i < |s| ==> s[i] != '%') ==> r == Some(s)
    ensures (forall i :: 0 <= i < |s| - 1 ==> s[i] == '%' ==> !IsFlagOrWidth(s[i + 1])) ==> r.Some?
    decreases |s|
  {
    if |s| == 0 then Some("")
    else if s[0] != '%' then
      assert forall i :: 0 <= i < |s| - 2 ==> s[1..][i] == s[i + 1];
      var rest := PrintfNoArgs(s[1..]);
      assert (forall i :: 0 <= i < |s| ==> s[i] != '%') ==> rest == Some(s[1..]) && [s[0]] + s[1..] == s;
      Prepend([s[0]], rest)
    else if |s| == 1 then Some("%!(NOVERB)")
    else if IsFlagOrWidth(s[1]) then None
    else
      assert forall i :: 0 <= i < |s| - 3 ==> s[2..][i] == s[i + 2];
      if s[1] == '%' then Prepend("%", PrintfNoArgs(s[2..]))
      else Prepend("%!" + [s[1]] + "(MISSING)", PrintfNoArgs(s[2..]))
  }

  /** A page whose text ends in `%` is written with `%!(NOVERB)` in place of the `%`. */
  lemma TrailingPercentMangled()
    ensures PrintfNoArgs("5%") == Some("5%!(NOVERB)")
  {
    assert "5%"[1..] == "%";
    assert ['5'] + "%!(NOVERB)" == "5%!(NOVERB)";
  }

  /** A `%` followed by a letter is written as a directive with a missing argument. */
  lemma PercentLetterMangled()
    ensures PrintfNoArgs("%d") == Some("%!d(MISSING)")
  {
    assert "%d"[2..] == "";
    assert "%!" + ['d'] + "(MISSING)" + "" == "%!d(MISSING)";
  }
}
