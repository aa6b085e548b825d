/** The string library functions that the wallet's handlers use. */
module Strings {
  import opened Wrappers

  predicate OccursAt(s: string, pat: string, k: nat) {
    k + |pat| <= |s| && s[k..k + |pat|] == pat
  }

  /** Where a pattern first occurs. */
  function Find(s: string, pat: string): Option<nat> {
    if |s| < |pat| then None
    else if s[..|pat|] == pat then Some(0)
    else if s == "" then None
    else match Find(s[1..], pat)
      case Some(k) => Some(k + 1)
      case None => None
  }

  predicate Contains(s: string, pat: string) { Find(s, pat).Some? }

  /** `strings.ReplaceAll` for a non-empty pattern: leftmost, non-overlapping. */
  function ReplaceAll(s: string, old': string, new': string): string
    requires old' != ""
  {
    if |s| < |old'| then s
    else if s[..|old'|] == old' then new' + ReplaceAll(s[|old'|..], old', new')
    else [s[0]] + ReplaceAll(s[1..], old', new')
  }

  /** `unicode.IsSpace`. */
  predicate IsSpace(c: char) {
    var n := c as int;
    9 <= n <= 13 || n == 32 || n == 0x85 || n == 0xA0 || n == 0x1680 || 0x2000 <= n <= 0x200A
    || n == 0x2028 || n == 0x2029 || n == 0x202F || n == 0x205F || n == 0x3000
  }

  function TrimLeft(s: string): string {
    if s != "" && IsSpace(s[0]) then TrimLeft(s[1..]) else s
  }

  function TrimRight(s: string): string {
    if s != "" && IsSpace(s[|s| - 1]) then TrimRight(s[..|s| - 1]) else s
  }

  function TrimSpace(s: string): string { TrimRight(TrimLeft(s)) }

  lemma {:induction false} FindIsFirst(s: string, pat: string)
    requires pat != ""
    ensures Find(s, pat).Some? ==> OccursAt(s, pat, Find(s, pat).value)
    ensures forall k: nat :: OccursAt(s, pat, k) ==> Find(s, pat).Some? && Find(s, pat).value <= k
  {
    if |s| >= |pat| && s[..|pat|] != pat {
      FindIsFirst(s[1..], pat);
      if Find(s[1..], pat).Some? {
        var j := Find(s[1..], pat).value;
        assert s[1..][j..j + |pat|] == s[j + 1..j + 1 + |pat|];
      }
      forall k: nat | OccursAt(s, pat, k) ensures Find(s, pat).Some? && Find(s, pat).value <= k {
        if k > 0 {
          assert s[1..][k - 1..k - 1 + |pat|] == s[k..k + |pat|];
          assert OccursAt(s[1..], pat, k - 1);
        }
      }
    }
  }

  lemma {:induction false} ReplaceShrinks(s: string, old': string, new': string)
    requires |new'| < |old'|
    ensures |ReplaceAll(s, old', new')| <= |s|
    ensures Contains(s, old') ==> |ReplaceAll(s, old', new')| < |s|
  {
    if |s| >= |old'| {
      if s[..|old'|] == old' { ReplaceShrinks(s[|old'|..], old', new'); } else { ReplaceShrinks(s[1..], old', new'); }
    }
  }

  /** Replacing until the pattern is gone. */
  function Exhaust(s: string, old': string, new': string): string
    requires |new'| < |old'|
    decreases |s|
  {
    if !Contains(s, old') then s
    else
      ReplaceShrinks(s, old', new');
      Exhaust(ReplaceAll(s, old', new'), old', new')
  }

  lemma {:induction false} ExhaustEnds(s: string, old': string, new': string)
    requires |new'| < |old'|
    ensures !Contains(Exhaust(s, old', new'), old')
    decreases |s|
  {
    if Contains(s, old') {
      ReplaceShrinks(s, old', new');
      ExhaustEnds(ReplaceAll(s, old', new'), old', new');
    }
  }

  /** Occurrence, character by character. */
  lemma OccursByElement(s: string, pat: string, k: nat)
    ensures OccursAt(s, pat, k) <==> k + |pat| <= |s| && forall j | k <= j < k + |pat| :: s[j] == pat[j - k]
  {
    if k + |pat| <= |s| {
      var w := s[k..k + |pat|];
      assert forall j | k <= j < k + |pat| :: s[j] == w[j - k];
      if forall j | k <= j < k + |pat| :: s[j] == pat[j - k] { assert w == pat; }
    }
  }

  predicate Trimmed(s: string) { s != "" ==> !IsSpace(s[0]) && !IsSpace(s[|s| - 1]) }

  lemma {:induction false} TrimRightTrims(s: string)
    ensures TrimRight(s) != "" ==> TrimRight(s)[0] == s[0] && !IsSpace(TrimRight(s)[|TrimRight(s)| - 1])
  {
    if s != "" && IsSpace(s[|s| - 1]) { TrimRightTrims(s[..|s| - 1]); }
  }

  lemma {:induction false} TrimLeftTrims(s: string)
    ensures TrimLeft(s) != "" ==> !IsSpace(TrimLeft(s)[0])
  {
    if s != "" && IsSpace(s[0]) { TrimLeftTrims(s[1..]); }
  }

  lemma TrimSpaceTrims(s: string)
    ensures Trimmed(TrimSpace(s))
  {
    TrimLeftTrims(s);
    TrimRightTrims(TrimLeft(s));
  }

  lemma TrimmedStays(s: string)
    requires Trimmed(s)
    ensures TrimSpace(s) == s
  {
  }

  predicate AllSpaces(s: string) { forall i | 0 <= i < |s| :: IsSpace(s[i]) }

  /** Trimming takes exactly the blanks at both ends. */
  lemma {:induction false} TrimTakesBlanks(before: string, core: string, after: string)
    requires AllSpaces(before) && AllSpaces(after) && Trimmed(core) && core != ""
    ensures TrimSpace(before + core + after) == core
  {
    TrimLeftTakes(before, core + after);
    assert before + core + after == before + (core + after);
    TrimRightTakes(core, after);
  }

  lemma {:induction false} TrimLeftTakes(before: string, rest: string)
    requires AllSpaces(before) && rest != "" && !IsSpace(rest[0])
    ensures TrimLeft(before + rest) == rest
  {
    if before == "" {
      assert before + rest == rest;
    } else {
      assert (before + rest)[1..] == before[1..] + rest;
      TrimLeftTakes(before[1..], rest);
    }
  }

  lemma {:induction false} TrimRightTakes(front: string, after: string)
    requires AllSpaces(after) && front != "" && !IsSpace(front[|front| - 1])
    ensures TrimRight(front + after) == front
  {
    if after == "" {
      assert front + after == front;
    } else {
      var n := |after| - 1;
      assert (front + after)[..|front| + n] == front + after[..n];
      TrimRightTakes(front, after[..n]);
    }
  }
}
