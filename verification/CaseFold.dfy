/** Values shared by the other modules: an optional value, and the
    case-insensitive comparison of the C runtime in its "C" locale. */
module CaseFold {

  datatype Option<+T> = None | Some(value: T)

  predicate IsAlpha(c: char) {
    'A' <= c <= 'Z' || 'a' <= c <= 'z'
  }

  function ToLower(c: char): char {
    if 'A' <= c <= 'Z' then c + 32 as char else c
  }

  function ToUpper(c: char): (r: char)
    ensures ToLower(r) == ToLower(c)
  {
    if 'a' <= c <= 'z' then c - 32 as char else c
  }

  /** What a comparison with `_tcsicmp` finds equal. */
  predicate SameText(s: string, t: string) {
    |s| == |t| && forall i | 0 <= i < |s| :: ToLower(s[i]) == ToLower(t[i])
  }

  /** What a comparison of at most n characters with `_tcsnicmp` finds equal,
      when the second string has at least n characters before its terminator. */
  predicate SamePrefix(s: string, t: string, n: nat)
    requires n <= |t|
  {
    n <= |s| && SameText(s[..n], t[..n])
  }

  /** Looking for either case of a letter is looking for it ignoring case. */
  lemma EitherCase(p: char, c: char)
    ensures IsAlpha(p) ==> ((c == ToUpper(p) || c == ToLower(p)) <==> ToLower(c) == ToLower(p))
    ensures !IsAlpha(p) ==> (c == p <==> ToLower(c) == ToLower(p))
  {
    if 'A' <= c <= 'Z' {
      assert ToLower(c) - 32 as char == c;
    }
    if 'A' <= p <= 'Z' {
      assert ToLower(p) - 32 as char == p;
    }
  }

  // ---------------------------------------------------------------------
  // What ignoring case means, without the fold

  /** A capital and the small letter at the same place of the alphabet. */
  predicate CapitalAndSmall(c: char, d: char) {
    'A' <= c <= 'Z' && 'a' <= d <= 'z' && c as int - 'A' as int == d as int - 'a' as int
  }

  predicate SameLetter(c: char, d: char) {
    c == d || CapitalAndSmall(c, d) || CapitalAndSmall(d, c)
  }

  /** The same string, with letters in either case. */
  predicate Recased(s: string, t: string) {
    |s| == |t| && forall i | 0 <= i < |s| :: SameLetter(s[i], t[i])
  }

  /** The fold makes exactly the two cases of a letter equal. */
  lemma FoldExact(c: char, d: char)
    ensures ToLower(c) == ToLower(d) <==> SameLetter(c, d)
  {
    if 'A' <= c <= 'Z' {
      assert ToLower(c) as int == c as int + 32;
    }
    if 'A' <= d <= 'Z' {
      assert ToLower(d) as int == d as int + 32;
    }
  }

  lemma SameTextExact(s: string, t: string)
    ensures SameText(s, t) <==> Recased(s, t)
  {
    if |s| == |t| {
      forall i | 0 <= i < |s|
        ensures ToLower(s[i]) == ToLower(t[i]) <==> SameLetter(s[i], t[i])
      {
        FoldExact(s[i], t[i]);
      }
    }
  }
}
