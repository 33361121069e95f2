/** Searching in text, shared by the parsers. */
module TextSearch {
  import opened Options

  predicate OccursAt(s: string, needle: string, i: nat) {
    i + |needle| <= |s| && s[i..i + |needle|] == needle
  }

  // The first occurrence at or after i.
  function FindFrom(s: string, needle: string, i: nat): (r: Option<nat>)
    ensures r.Some? ==> i <= r.value && OccursAt(s, needle, r.value) && forall j :: i <= j < r.value ==> !OccursAt(s, needle, j)
    ensures r.None? ==> forall j :: i <= j ==> !OccursAt(s, needle, j)
    decreases |s| - i
  {
    if i + |needle| > |s| then None
    else if OccursAt(s, needle, i) then Some(i)
    else FindFrom(s, needle, i + 1)
  }

  function Find(s: string, needle: string): (r: Option<nat>)
    ensures r.Some? ==> OccursAt(s, needle, r.value) && forall j :: 0 <= j < r.value ==> !OccursAt(s, needle, j)
    ensures r.None? ==> forall j: nat :: !OccursAt(s, needle, j)
  {
    FindFrom(s, needle, 0)
  }

  lemma FindIs(s: string, needle: string, i: nat)
    requires OccursAt(s, needle, i) && forall j :: 0 <= j < i ==> !OccursAt(s, needle, j)
    ensures Find(s, needle) == Some(i)
  {
  }

  // An occurrence found in a buffer is still the first one when more bytes arrive.
  lemma FindExtends(s: string, needle: string, more: string)
    requires Find(s, needle).Some?
    ensures Find(s + more, needle) == Find(s, needle)
  {
    var i := Find(s, needle).value;
    assert (s + more)[i..i + |needle|] == s[i..i + |needle|];
    forall j: nat | j < i ensures !OccursAt(s + more, needle, j) {
      assert !OccursAt(s, needle, j);
      assert (s + more)[j..j + |needle|] == s[j..j + |needle|];
    }
    FindIs(s + more, needle, i);
  }

  // Lower case, and case folding, on ASCII.
  function ToLower(s: string): string {
    seq(|s|, i requires 0 <= i < |s| => if 'A' <= s[i] <= 'Z' then (s[i] as int + 32) as char else s[i])
  }

  const CAPITALS: string := "ABCDEFGHIJKLMNOPQRSTUVWXYZ"
  const SMALL: string := "abcdefghijklmnopqrstuvwxyz"

  // The capital letters are folded to their small ones, and nothing else changes.
  lemma ToLowerAt(s: string, i: nat)
    requires i < |s|
    ensures |ToLower(s)| == |s|
    ensures s[i] !in CAPITALS ==> ToLower(s)[i] == s[i]
    ensures forall k :: 0 <= k < 26 && s[i] == CAPITALS[k] ==> ToLower(s)[i] == SMALL[k]
  {
    forall k | 0 <= k < 26 ensures CAPITALS[k] as int == 65 + k && SMALL[k] as int == 97 + k {}
    if 'A' <= s[i] <= 'Z' { assert s[i] == CAPITALS[s[i] as int - 65]; }
  }
}
