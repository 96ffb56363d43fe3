/**
  The string operations the name search uses: lower-casing (`toLowerCase`)
  and substring containment (`includes`). Lower-casing is ASCII-only.
 */
module Text {

  predicate IsUpper(c: char) {
    'A' <= c <= 'Z'
  }

  function LowerChar(c: char): char {
    if IsUpper(c) then (c as int - 'A' as int + 'a' as int) as char else c
  }

  /** `s` with every ASCII capital replaced by its small letter. */
  function Lower(s: string): (r: string)
    ensures |r| == |s|
    ensures forall i :: 0 <= i < |r| ==> !IsUpper(r[i])
    ensures forall i :: 0 <= i < |s| && !IsUpper(s[i]) ==> r[i] == s[i]
    ensures forall i :: 0 <= i < |s| && IsUpper(s[i]) ==> r[i] as int == s[i] as int - 'A' as int + 'a' as int
  {
    seq(|s|, i requires 0 <= i < |s| => LowerChar(s[i]))
  }

  /** Lower-casing twice is lower-casing once. */
  lemma LowerIdempotent(s: string)
    ensures Lower(Lower(s)) == Lower(s)
  {
  }

  /** `pattern` occurs in `text` starting at position 0. */
  predicate StartsWith(text: string, pattern: string) {
    |pattern| <= |text| && text[..|pattern|] == pattern
  }

  /** `String.prototype.includes`: `pattern` occurs in `text` at some position. */
  predicate Contains(text: string, pattern: string)
    decreases |text|
  {
    StartsWith(text, pattern) || (text != [] && Contains(text[1..], pattern))
  }

  /** `pattern` occurs in `text` starting at position `i`. */
  predicate OccursAt(text: string, pattern: string, i: int) {
    0 <= i && i + |pattern| <= |text| && text[i..i + |pattern|] == pattern
  }

  /** `Contains` holds exactly when `pattern` occurs at some position of `text`. */
  lemma {:induction false} ContainsIffOccurs(text: string, pattern: string)
    ensures Contains(text, pattern) <==> exists i :: OccursAt(text, pattern, i)
  {
    if text != [] {
      ContainsIffOccurs(text[1..], pattern);
      if exists i :: OccursAt(text, pattern, i) {
        var i :| OccursAt(text, pattern, i);
        if i > 0 {
          assert text[1..][i - 1..i - 1 + |pattern|] == text[i..i + |pattern|];
          assert OccursAt(text[1..], pattern, i - 1);
        }
      }
      if Contains(text[1..], pattern) {
        var j :| OccursAt(text[1..], pattern, j);
        assert text[1..][j..j + |pattern|] == text[j + 1..j + 1 + |pattern|];
        assert OccursAt(text, pattern, j + 1);
      }
      if StartsWith(text, pattern) {
        assert OccursAt(text, pattern, 0);
      }
    } else {
      if exists i :: OccursAt(text, pattern, i) {
        var i :| OccursAt(text, pattern, i);
        assert |pattern| == 0;
        assert StartsWith(text, pattern);
      }
      if Contains(text, pattern) {
        assert OccursAt(text, pattern, 0);
      }
    }
  }

  /** Every text contains the empty pattern, as `"".includes("")` is true. */
  lemma ContainsEmpty(text: string)
    ensures Contains(text, "")
  {
    assert text[..0] == "";
  }
}
