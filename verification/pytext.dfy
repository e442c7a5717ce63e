/**
 * The parts of Python's `str` that the script tools rely on: the whitespace
 * class used by `str.strip()`, `str.isspace()` and the regular expression `\s`,
 * and `strip()` itself.
 */
module PyText {

  /** Python's `str.isspace()`: the characters `strip()` removes and `\s` matches. */
  predicate IsSpace(c: char) {
    ('\t' <= c <= '\r') || ('\U{1c}' <= c <= '\U{1f}') || c == ' ' ||
    c == '\U{85}' || c == '\U{a0}' || c == '\U{1680}' ||
    ('\U{2000}' <= c <= '\U{200a}') || c == '\U{2028}' || c == '\U{2029}' ||
    c == '\U{202f}' || c == '\U{205f}' || c == '\U{3000}'
  }

  /** Every character is whitespace (the empty string included). */
  predicate IsBlank(s: string) {
    forall i :: 0 <= i < |s| ==> IsSpace(s[i])
  }

  /** `str.lstrip()`. */
  function TrimLeft(s: string): string {
    if s != [] && IsSpace(s[0]) then TrimLeft(s[1..]) else s
  }

  /** `str.rstrip()`. */
  function TrimRight(s: string): string {
    if s != [] && IsSpace(s[|s| - 1]) then TrimRight(s[..|s| - 1]) else s
  }

  /** `lstrip` removes exactly a whitespace prefix, and stops at a non-space. */
  lemma {:induction false} TrimLeftShape(s: string)
    ensures var r := TrimLeft(s);
      |r| <= |s| && r == s[|s| - |r|..] && (r == [] || !IsSpace(r[0])) && IsBlank(s[..|s| - |r|])
  {
    if s != [] && IsSpace(s[0]) {
      var t := s[1..];
      TrimLeftShape(t);
      var n := |s| - |TrimLeft(t)|;
      assert t[|t| - |TrimLeft(t)|..] == s[n..];
      forall i | 0 <= i < n ensures IsSpace(s[i]) {
        if i > 0 {
          assert s[i] == t[..|t| - |TrimLeft(t)|][i - 1];
        }
      }
    } else {
      assert s[|s| - |s|..] == s;
    }
  }

  /** `rstrip` removes exactly a whitespace suffix, and stops at a non-space. */
  lemma {:induction false} TrimRightShape(s: string)
    ensures var r := TrimRight(s);
      |r| <= |s| && r == s[..|r|] && (r == [] || !IsSpace(r[|r| - 1])) && IsBlank(s[|r|..])
  {
    if s != [] && IsSpace(s[|s| - 1]) {
      var t := s[..|s| - 1];
      TrimRightShape(t);
      var n := |TrimRight(t)|;
      assert t[..n] == s[..n];
      forall i | n <= i < |s| ensures IsSpace(s[i]) {
        if i < |s| - 1 {
          assert s[i] == t[n..][i - n];
        }
      }
    } else {
      assert s[..|s|] == s;
    }
  }

  /** Python's `str.strip()` with no argument. */
  function Strip(s: string): string {
    TrimRight(TrimLeft(s))
  }

  /** `s.strip()` is falsy exactly when `s` is all whitespace. */
  lemma {:induction false} StripEmptyIffBlank(s: string)
    ensures Strip(s) == [] <==> IsBlank(s)
  {
    var l := TrimLeft(s);
    TrimLeftShape(s);
    TrimRightShape(l);
    if l == [] {
      assert s[..|s|] == s;
    } else {
      assert !IsSpace(s[|s| - |l|]);
      assert IsBlank(l[|TrimRight(l)|..]);
    }
  }
}
