/** Substring search, the only URL test the worker performs. */
module Strings {

  /** `sub` occurs in `s` starting at index `i`. */
  ghost predicate OccursAt(s: string, sub: string, i: int) {
    0 <= i <= |s| - |sub| && s[i..i + |sub|] == sub
  }

  /** `sub` occurs somewhere in `s`. */
  ghost predicate Contains(s: string, sub: string) {
    exists i :: OccursAt(s, sub, i)
  }

  /** `String.prototype.includes`: tries every start position from the left. */
  function Includes(s: string, sub: string): bool
    decreases |s|
  {
    if |sub| > |s| then false
    else if s[..|sub|] == sub then true
    else Includes(s[1..], sub)
  }

  /** A slice of the tail is the slice of `s` one position further on. */
  lemma TailSlice(s: string, i: int, len: int)
    requires 0 <= i && 0 <= len && i + len + 1 <= |s|
    ensures s[1..][i..i + len] == s[i + 1..i + 1 + len]
  {
  }

  /** The left-to-right scan finds `sub` exactly when it occurs. */
  lemma {:induction false} IncludesIsContains(s: string, sub: string)
    ensures Includes(s, sub) <==> Contains(s, sub)
    decreases |s|
  {
    if |sub| > |s| {
    } else if s[..|sub|] == sub {
      assert OccursAt(s, sub, 0);
    } else {
      IncludesIsContains(s[1..], sub);
      if Contains(s[1..], sub) {
        var i :| OccursAt(s[1..], sub, i);
        TailSlice(s, i, |sub|);
        assert OccursAt(s, sub, i + 1);
      }
      if Contains(s, sub) {
        var i :| OccursAt(s, sub, i);
        assert i != 0;
        TailSlice(s, i - 1, |sub|);
        assert OccursAt(s[1..], sub, i - 1);
      }
    }
  }
}
