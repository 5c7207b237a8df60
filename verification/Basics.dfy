/** What several modules share. */
module Basics {
  datatype Option<+T> = None | Some(value: T)

  /** unicode.IsSpace */
  predicate Space(c: char) {
    || '\t' <= c <= '\r' || c == ' ' || c == '\U{85}' || c == '\U{a0}' || c == '\U{1680}'
    || '\U{2000}' <= c <= '\U{200a}' || c == '\U{2028}' || c == '\U{2029}' || c == '\U{202f}'
    || c == '\U{205f}' || c == '\U{3000}'
  }

  /** strings.TrimSpace */
  function Trim(s: string): (t: string)
    ensures |t| <= |s|
  {
    if s == "" then s
    else if Space(s[0]) then Trim(s[1..])
    else if Space(s[|s| - 1]) then Trim(s[..|s| - 1])
    else s
  }

  predicate Blanks(s: string) {
    forall i :: 0 <= i < |s| ==> Space(s[i])
  }

  /** Trimming takes exactly the white space at both ends away. */
  lemma {:induction false} TrimIs(a: string, t: string, b: string)
    requires Blanks(a) && Blanks(b) && (t != "" ==> !Space(t[0]) && !Space(t[|t| - 1]))
    ensures Trim(a + t + b) == t
    decreases |a| + |b|
  {
    hide Space;
    var s := a + t + b;
    if a != "" {
      assert s[0] == a[0] && s[1..] == a[1..] + t + b;
      TrimIs(a[1..], t, b);
    } else if t == "" && b != "" {
      assert s[0] == b[0] && s[1..] == "" + t + b[1..];
      TrimIs("", t, b[1..]);
    } else if b != "" {
      assert s[0] == t[0] && s[|s| - 1] == b[|b| - 1] && s[..|s| - 1] == a + t + b[..|b| - 1];
      TrimIs(a, t, b[..|b| - 1]);
    } else {
      assert s == t;
    }
  }
}
