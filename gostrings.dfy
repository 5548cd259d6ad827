/**
  The three routines of Go's `strings` package that the mail decoder and the
  peer filter rely on besides `strings.Compare(a, b) == 0`, which is written
  `a == b`. A Go string is modelled as the sequence of its characters (runes).
 */
module GoStrings {

  /** strings.HasPrefix */
  predicate HasPrefix(s: string, prefix: string) {
    |prefix| <= |s| && s[..|prefix|] == prefix
  }

  /** strings.Contains, written as a left-to-right scan; strings.Index finds the same answer by other means. */
  function Contains(s: string, sub: string): (b: bool)
    decreases |s|
  {
    if HasPrefix(s, sub) then true
    else if s == [] then false
    else Contains(s[1..], sub)
  }

  /** `sub` occurs in `s` at position `i`. */
  predicate OccursAt(s: string, sub: string, i: int) {
    0 <= i && i + |sub| <= |s| && s[i..i + |sub|] == sub
  }

  /** The scan finds `sub` exactly when it occurs somewhere in `s`. */
  lemma {:induction false} ContainsIff(s: string, sub: string)
    ensures Contains(s, sub) <==> exists i :: OccursAt(s, sub, i)
    decreases |s|
  {
    if HasPrefix(s, sub) {
      assert OccursAt(s, sub, 0);
    } else if s == [] {
      assert forall i :: !OccursAt(s, sub, i);
    } else {
      ContainsIff(s[1..], sub);
      if Contains(s[1..], sub) {
        var i :| OccursAt(s[1..], sub, i);
        assert s[1..][i..i + |sub|] == s[i + 1..i + 1 + |sub|];
        assert OccursAt(s, sub, i + 1);
      } else {
        forall i | OccursAt(s, sub, i) ensures false {
          assert i != 0;
          assert s[1..][i - 1..i - 1 + |sub|] == s[i..i + |sub|];
          assert OccursAt(s[1..], sub, i - 1);
        }
      }
    }
  }

  /**
    unicode.ToUpper on one rune, for every rune whose upper case is an ASCII
    character: the ASCII lower-case letters, the dotless i (U+0131) and the
    long s (U+017F). Every other rune is left as it is.
   */
  function UpperRune(c: char): char {
    if 'a' <= c <= 'z' then (c as int - 32) as char
    else if c == 'ı' then 'I'
    else if c == 'ſ' then 'S'
    else c
  }

  /**
    strings.ToUpper, length and order kept: each rune goes through
    `UpperRune`, so a-z, the dotless i and the long s are upper-cased and
    every other rune is left as it is.
   */
  function ToUpper(s: string): (upper: string) {
    seq(|s|, i requires 0 <= i < |s| => UpperRune(s[i]))
  }
}
