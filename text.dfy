/** `String.prototype.split` with a non-empty literal separator, and its
    inverse `Array.prototype.join`. */
module Text {
  import opened Js

  /** `sep` occurs in `s` starting at index `i`. */
  predicate OccursAt(s: string, sep: string, i: nat) {
    i + |sep| <= |s| && s[i..i + |sep|] == sep
  }

  /** The first index at or after `k` where `sep` occurs, as `s.indexOf(sep, k)`. */
  function FindFrom(s: string, sep: string, k: nat): (r: Option<nat>)
    requires k <= |s|
    ensures r.Some? ==> k <= r.value && OccursAt(s, sep, r.value)
    ensures r.Some? ==> forall j :: k <= j < r.value ==> !OccursAt(s, sep, j)
    ensures r.None? ==> forall j :: k <= j <= |s| ==> !OccursAt(s, sep, j)
    decreases |s| - k
  {
    if OccursAt(s, sep, k) then Some(k)
    else if k == |s| then None
    else FindFrom(s, sep, k + 1)
  }

  /** `s.split(sep)`: the pieces between the successive leftmost occurrences of `sep`. */
  function Split(s: string, sep: string): (r: seq<string>)
    requires sep != []
    ensures |r| >= 1
    decreases |s|
  {
    match FindFrom(s, sep, 0)
    case None => [s]
    case Some(i) => [s[..i]] + Split(s[i + |sep|..], sep)
  }

  /** When the leftmost occurrence of `sep` in `s` starts at `i`, the first piece
      is the text before it and the remaining pieces are the split of the text after it. */
  lemma SplitLeftmost(s: string, sep: string, i: nat)
    requires sep != []
    requires OccursAt(s, sep, i)
    requires forall j :: 0 <= j < i ==> !OccursAt(s, sep, j)
    ensures Split(s, sep)[0] == s[..i]
    ensures Split(s, sep)[1..] == Split(s[i + |sep|..], sep)
  {
    FindLeftmost(s, sep, 0, i);
    assert Split(s, sep) == [s[..i]] + Split(s[i + |sep|..], sep);
  }

  /** Searching from `k` finds the first occurrence at or after `k`. */
  lemma {:induction false} FindLeftmost(s: string, sep: string, k: nat, i: nat)
    requires k <= i && OccursAt(s, sep, i)
    requires forall j :: k <= j < i ==> !OccursAt(s, sep, j)
    ensures FindFrom(s, sep, k) == Some(i)
    decreases i - k
  {
    if k < i {
      assert !OccursAt(s, sep, k);
      FindLeftmost(s, sep, k + 1, i);
    }
  }

  /** A text in which `sep` does not occur splits into itself alone. */
  lemma SplitNone(s: string, sep: string)
    requires sep != []
    requires forall j :: 0 <= j <= |s| ==> !OccursAt(s, sep, j)
    ensures Split(s, sep) == [s]
  {
    assert FindFrom(s, sep, 0) == None;
  }

  /** `parts.join(sep)` */
  function Join(parts: seq<string>, sep: string): string {
    if parts == [] then ""
    else if |parts| == 1 then parts[0]
    else parts[0] + sep + Join(parts[1..], sep)
  }

  /** Joining the pieces of a split with the same separator gives back the text. */
  lemma {:induction false} JoinSplit(s: string, sep: string)
    requires sep != []
    ensures Join(Split(s, sep), sep) == s
    decreases |s|
  {
    match FindFrom(s, sep, 0)
    case None =>
    case Some(i) =>
      var rest := s[i + |sep|..];
      var parts := Split(rest, sep);
      JoinSplit(rest, sep);
      var all := [s[..i]] + parts;
      assert Split(s, sep) == all;
      assert all[0] == s[..i] && all[1..] == parts;
      assert Join(all, sep) == s[..i] + sep + Join(parts, sep);
      assert s == s[..i] + s[i..i + |sep|] + s[i + |sep|..];
  }

  /** No piece of a split contains the separator. */
  lemma {:induction false} SplitPiecesFree(s: string, sep: string, k: nat, j: nat)
    requires sep != []
    requires k < |Split(s, sep)|
    ensures !OccursAt(Split(s, sep)[k], sep, j)
    decreases |s|
  {
    match FindFrom(s, sep, 0)
    case None =>
    case Some(i) =>
      var rest := s[i + |sep|..];
      if k == 0 {
        if OccursAt(s[..i], sep, j) {
          assert s[j..j + |sep|] == s[..i][j..j + |sep|];
          assert OccursAt(s, sep, j);
        }
      } else {
        SplitPiecesFree(rest, sep, k - 1, j);
      }
  }

  /** When `c` is the character at `sep[m]`, and not at any earlier position of
      `sep`, and `a` holds no `c`, the first occurrence of `sep` in
      `a + sep + rest` is the one right after `a`. */
  lemma FirstOccurrenceAfter(a: string, sep: string, rest: string, c: char, m: nat)
    requires m < |sep| && sep[m] == c
    requires forall q :: 0 <= q < m ==> sep[q] != c
    requires c !in a
    ensures FindFrom(a + sep + rest, sep, 0) == Some(|a|)
  {
    var s := a + sep + rest;
    assert s[|a|..|a| + |sep|] == sep;
    assert OccursAt(s, sep, |a|);
    forall j | 0 <= j < |a| ensures !OccursAt(s, sep, j) {
      if j + |sep| <= |s| {
        assert s[j..j + |sep|][m] == s[j + m];
        if j + m < |a| {
          assert s[j + m] == a[j + m];
        } else {
          assert s[j + m] == sep[j + m - |a|];
        }
      }
    }
  }

  /** When `c` is a character of `sep` and `a` holds no `c`, `sep` does not occur in `a`. */
  lemma NoOccurrence(a: string, sep: string, c: char, m: nat)
    requires m < |sep| && sep[m] == c
    requires c !in a
    ensures FindFrom(a, sep, 0) == None
  {
    forall j | 0 <= j <= |a| ensures !OccursAt(a, sep, j) {
      if j + |sep| <= |a| {
        assert a[j..j + |sep|][m] == a[j + m];
      }
    }
  }

  /** Splitting `a + sep + rest` where `a` cannot hold a match peels off `a`. */
  lemma SplitPeel(a: string, sep: string, rest: string, c: char, m: nat)
    requires m < |sep| && sep[m] == c
    requires forall q :: 0 <= q < m ==> sep[q] != c
    requires c !in a
    ensures Split(a + sep + rest, sep) == [a] + Split(rest, sep)
  {
    var s := a + sep + rest;
    FirstOccurrenceAfter(a, sep, rest, c, m);
    assert s[..|a|] == a;
    assert s[|a| + |sep|..] == rest;
  }

  /** A text without any character `c` of `sep` splits into itself alone. */
  lemma SplitWhole(a: string, sep: string, c: char, m: nat)
    requires m < |sep| && sep[m] == c
    requires c !in a
    ensures Split(a, sep) == [a]
  {
    NoOccurrence(a, sep, c, m);
  }

  /** Splitting the join of pieces that hold no character `c` of `sep` gives
      back the pieces. */
  lemma {:induction false} SplitJoin(parts: seq<string>, sep: string, c: char, m: nat)
    requires |parts| >= 1
    requires m < |sep| && sep[m] == c
    requires forall q :: 0 <= q < m ==> sep[q] != c
    requires forall k :: 0 <= k < |parts| ==> c !in parts[k]
    ensures Split(Join(parts, sep), sep) == parts
    decreases |parts|
  {
    if |parts| == 1 {
      SplitWhole(parts[0], sep, c, m);
    } else {
      SplitJoin(parts[1..], sep, c, m);
      SplitPeel(parts[0], sep, Join(parts[1..], sep), c, m);
      assert parts == [parts[0]] + parts[1..];
    }
  }
}
