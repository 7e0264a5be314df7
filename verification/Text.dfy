/**
 * The `std::string` searches that the parsers use. A position one past the end of the text
 * stands for `std::string::npos`.
 */
module Text {
  import opened Wrappers

  /** `find_first_of(c)`: the first index of `c`, or `|s|`. */
  function Find(s: string, c: char): (p: nat)
    ensures p <= |s|
    ensures forall i :: 0 <= i < p ==> s[i] != c
    ensures p < |s| ==> s[p] == c
  {
    if s == "" || s[0] == c then 0 else 1 + Find(s[1..], c)
  }

  /** `find_last_of(c)`: the last index of `c`, or `|s|`. */
  function FindLast(s: string, c: char): (p: nat)
    ensures p <= |s|
    ensures p < |s| ==> s[p] == c
    ensures p == |s| ==> c !in s
    ensures forall i :: p < i < |s| ==> s[i] != c
  {
    if s == "" then 0
    else if s[|s| - 1] == c then |s| - 1
    else
      var p := FindLast(s[..|s| - 1], c);
      if p == |s| - 1 then |s| else p
  }

  /** `rfind(prefix, 0) == 0`. */
  predicate StartsWith(s: string, prefix: string) {
    prefix <= s
  }

  /** A differing character excludes a prefix, either way round. */
  lemma DifferAt(a: string, b: string, k: nat)
    requires k < |a| && k < |b| && a[k] != b[k]
    ensures !StartsWith(a, b) && !StartsWith(b, a)
  {
  }

  lemma PrefixesNest(a: string, b: string, s: string)
    requires StartsWith(s, a) && StartsWith(s, b)
    ensures StartsWith(a, b) || StartsWith(b, a)
  {
    if |a| <= |b| {
      assert a == b[..|a|];
    } else {
      assert b == a[..|b|];
    }
  }

  /** `marker` occurs in `text` at index `i`. */
  predicate OccursAt(text: string, marker: string, i: nat) {
    i + |marker| <= |text| && forall j :: 0 <= j < |marker| ==> text[i + j] == marker[j]
  }

  /** `marker` occurs somewhere in `text`. */
  ghost predicate Contains(text: string, marker: string) {
    exists i: nat :: OccursAt(text, marker, i)
  }

  /** `std::search` over `text[pos..]`: the leftmost occurrence. */
  function Search(text: string, marker: string, pos: nat): (r: Option<nat>)
    requires pos <= |text|
    ensures r.Some? ==> pos <= r.value && OccursAt(text, marker, r.value)
    ensures forall i: nat :: pos <= i && (r.Some? ==> i < r.value) ==> !OccursAt(text, marker, i)
    decreases |text| - pos
  {
    if OccursAt(text, marker, pos) then Some(pos)
    else if pos == |text| then None
    else Search(text, marker, pos + 1)
  }

  /** Moving one element from the front of the rest to the end of what is done. */
  lemma MoveOver<T>(done: seq<T>, x: T, rest: seq<T>)
    ensures (done + [x]) + rest == done + ([x] + rest)
  {
  }

  /** Splitting a text at its last `c` is unambiguous. */
  lemma SplitAtLast(a: string, x: string, b: string, y: string, c: char)
    requires c !in x && c !in y
    requires a + [c] + x == b + [c] + y
    ensures a == b && x == y
  {
    var s := a + [c] + x;
    assert forall i :: |a| < i < |s| ==> s[i] == x[i - |a| - 1];
    assert forall i :: |b| < i < |s| ==> s[i] == y[i - |b| - 1];
    assert s[|a|] == c && s[|b|] == c;
    assert a == s[..|a|] && b == s[..|b|];
    assert x == s[|a| + 1..] && y == s[|b| + 1..];
  }
}
