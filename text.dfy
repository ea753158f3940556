/**
 * The string primitives the components rely on: ASCII lower-casing
 * (standing in for `String.prototype.toLowerCase`), substring search
 * (`String.prototype.includes`) and `String.prototype.trim`.
 */
module Text {

  predicate IsUpper(c: char) { 'A' <= c <= 'Z' }

  function LowerChar(c: char): char {
    if IsUpper(c) then (c as int + 32) as char else c
  }

  /** ASCII lower-casing: every upper-case letter is mapped to its lower-case form. */
  function Lower(s: string): string {
    seq(|s|, i requires 0 <= i < |s| => LowerChar(s[i]))
  }

  predicate IsLowerCase(s: string) {
    forall i | 0 <= i < |s| :: !IsUpper(s[i])
  }

  lemma LowerIsLowerCase(s: string)
    ensures |Lower(s)| == |s| && IsLowerCase(Lower(s))
  {
  }

  /** Lower-casing text that has no upper-case letter gives it back unchanged. */
  lemma LowerOfLowerCase(s: string)
    requires IsLowerCase(s)
    ensures Lower(s) == s
  {
  }

  lemma LowerIdempotent(s: string)
    ensures Lower(Lower(s)) == Lower(s)
  {
    LowerIsLowerCase(s);
    LowerOfLowerCase(Lower(s));
  }

  /** `k` occurs in `s` starting at position `i`. */
  predicate OccursAt(s: string, k: string, i: nat) {
    i + |k| <= |s| && s[i..i + |k|] == k
  }

  /** `s.includes(k)`: `k` occurs in `s` at some position. */
  predicate Contains(s: string, k: string) {
    exists i: nat | i <= |s| :: OccursAt(s, k, i)
  }

  /** Nothing but the empty string occurs in the empty string. */
  lemma ContainsInEmpty(k: string)
    ensures Contains("", k) <==> k == ""
  {
    if k == "" {
      assert OccursAt("", k, 0);
    }
  }

  /** `k` cannot occur in `s` when its first character does not occur in `s`. */
  lemma FirstCharAbsent(s: string, k: string)
    requires |k| >= 1
    requires forall p | 0 <= p < |s| :: s[p] != k[0]
    ensures !Contains(s, k)
  {
    forall p: nat | p <= |s|
      ensures !OccursAt(s, k, p)
    {
      if p + |k| <= |s| {
        assert s[p..p + |k|][0] == s[p];
      }
    }
  }

  /** `k` cannot occur in `s` when its first two characters never stand side by side in `s`. */
  lemma PairAbsent(s: string, k: string)
    requires |k| >= 2
    requires forall p | 0 <= p < |s| - 1 :: s[p] != k[0] || s[p + 1] != k[1]
    ensures !Contains(s, k)
  {
    forall p: nat | p <= |s|
      ensures !OccursAt(s, k, p)
    {
      if p + |k| <= |s| {
        assert s[p..p + |k|][0] == s[p] && s[p..p + |k|][1] == s[p + 1];
      }
    }
  }

  /**
   * The characters `trim` strips: the ECMAScript WhiteSpace set (tab,
   * vertical tab, form feed, space, no-break space, byte-order mark and
   * the Unicode space separators) and the LineTerminator set.
   */
  predicate IsWhitespace(c: char) {
    var n := c as int;
    n == 0x09 || n == 0x0A || n == 0x0B || n == 0x0C || n == 0x0D || n == 0x20
    || n == 0xA0 || n == 0x1680 || (0x2000 <= n <= 0x200A) || n == 0x2028 || n == 0x2029
    || n == 0x202F || n == 0x205F || n == 0x3000 || n == 0xFEFF
  }

  /** Drops leading whitespace: the result is the suffix after a whitespace-only prefix. */
  function TrimStart(s: string): (r: string)
    ensures |r| <= |s| && r == s[|s| - |r|..]
    ensures forall i | 0 <= i < |s| - |r| :: IsWhitespace(s[i])
    ensures r == [] || !IsWhitespace(r[0])
  {
    if s != [] && IsWhitespace(s[0]) then TrimStart(s[1..]) else s
  }

  /** Drops trailing whitespace: the result is the prefix before a whitespace-only suffix. */
  function TrimEnd(s: string): (r: string)
    ensures |r| <= |s| && r == s[..|r|]
    ensures forall i | |r| <= i < |s| :: IsWhitespace(s[i])
    ensures r == [] || !IsWhitespace(r[|r| - 1])
  {
    if s != [] && IsWhitespace(s[|s| - 1]) then TrimEnd(s[..|s| - 1]) else s
  }

  function Trim(s: string): string {
    TrimEnd(TrimStart(s))
  }

  /** `!s.trim()` holds exactly when every character of `s` is whitespace. */
  lemma TrimEmptyIffBlank(s: string)
    ensures Trim(s) == "" <==> forall i | 0 <= i < |s| :: IsWhitespace(s[i])
  {
    var t := TrimStart(s);
    if t != [] {
      // the first kept character is not whitespace, so TrimEnd keeps it too
      assert !IsWhitespace(t[0]) && t[0] == s[|s| - |t|];
      assert |TrimEnd(t)| > 0;
    }
  }

}
