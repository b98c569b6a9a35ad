/**
 * The Python string operations the slide-file naming relies on:
 * `str.lower`, `str.endswith`, `str.split(sep)` and `os.path.splitext`.
 */
module Text {
  import opened Results

  /** `str.lower` on one character; only ASCII letters are folded. */
  function LowerChar(c: char): char {
    if 'A' <= c <= 'Z' then (c as int + 32) as char else c
  }

  function Lower(s: string): string {
    seq(|s|, k requires 0 <= k < |s| => LowerChar(s[k]))
  }

  predicate HasNoUpper(s: string) {
    forall k :: 0 <= k < |s| ==> !('A' <= s[k] <= 'Z')
  }

  /** Lower-casing leaves a string without capitals as it is. */
  lemma LowerKeepsLowerCase(s: string)
    requires HasNoUpper(s)
    ensures Lower(s) == s
  {
  }

  predicate EndsWith(s: string, suffix: string) {
    |suffix| <= |s| && s[|s| - |suffix|..] == suffix
  }

  /** `sep` occurs in `s` starting at index `j`. */
  predicate OccursAt(s: string, sep: string, j: int) {
    0 <= j && j + |sep| <= |s| && s[j..j + |sep|] == sep
  }

  lemma OccursShift(s: string, sep: string, j: nat)
    requires 1 <= |s|
    ensures OccursAt(s, sep, j + 1) <==> OccursAt(s[1..], sep, j)
  {
    if j + 1 + |sep| <= |s| {
      assert s[1..][j..j + |sep|] == s[j + 1..j + 1 + |sep|];
    }
  }

  lemma NotAtStart(s: string, sep: string)
    requires |sep| <= |s| && s[..|sep|] != sep
    ensures forall j :: j <= 0 ==> !OccursAt(s, sep, j)
  {
    assert s[0..|sep|] == s[..|sep|];
  }

  /** `s.find(sep)`: the leftmost index at which `sep` occurs, if any. */
  function Find(s: string, sep: string): (r: Option<nat>)
    requires 1 <= |sep|
    ensures r.Some? ==> OccursAt(s, sep, r.value)
    ensures r.Some? ==> forall j :: 0 <= j < r.value ==> !OccursAt(s, sep, j)
    ensures r.None? ==> forall j :: !OccursAt(s, sep, j)
    decreases |s|
  {
    if |s| < |sep| then
      None
    else if s[..|sep|] == sep then
      Some(0)
    else
      match Find(s[1..], sep)
      case Some(k) =>
        NotAtStart(s, sep);
        assert forall j :: 1 <= j ==> (OccursAt(s, sep, j) <==> OccursAt(s[1..], sep, j - 1)) by {
          forall j | 1 <= j ensures OccursAt(s, sep, j) <==> OccursAt(s[1..], sep, j - 1) {
            OccursShift(s, sep, j - 1);
          }
        }
        Some(k + 1)
      case None =>
        NotAtStart(s, sep);
        assert forall j :: 1 <= j ==> (OccursAt(s, sep, j) <==> OccursAt(s[1..], sep, j - 1)) by {
          forall j | 1 <= j ensures OccursAt(s, sep, j) <==> OccursAt(s[1..], sep, j - 1) {
            OccursShift(s, sep, j - 1);
          }
        }
        None
  }

  /** `sep.join(parts)`, the inverse of `Split`. */
  function Join(parts: seq<string>, sep: string): string
    requires 1 <= |parts|
    decreases |parts|
  {
    if |parts| == 1 then parts[0] else parts[0] + sep + Join(parts[1..], sep)
  }

  /** A separator found in a prefix of `s` is found in `s` at the same place. */
  lemma OccursInPrefix(s: string, sep: string, i: nat, j: int)
    requires i <= |s|
    requires OccursAt(s[..i], sep, j)
    ensures OccursAt(s, sep, j)
  {
    assert s[..i][j..j + |sep|] == s[j..j + |sep|];
  }

  /**
   * `s.split(sep)`: the pieces between the leftmost non-overlapping
   * occurrences of `sep`. Joining them back with `sep` gives `s`, and no
   * piece contains `sep`.
   */
  function Split(s: string, sep: string): (parts: seq<string>)
    requires 1 <= |sep|
    ensures 1 <= |parts|
    ensures Join(parts, sep) == s
    ensures forall k :: 0 <= k < |parts| ==> Find(parts[k], sep).None?
    decreases |s|
  {
    match Find(s, sep)
    case None => [s]
    case Some(i) =>
      var head := s[..i];
      var rest := Split(s[i + |sep|..], sep);
      assert head + sep + s[i + |sep|..] == s by {
        assert s[i..i + |sep|] == sep;
        assert s == s[..i] + s[i..i + |sep|] + s[i + |sep|..];
      }
      assert Find(head, sep).None? by {
        if Find(head, sep).Some? {
          OccursInPrefix(s, sep, i, Find(head, sep).value);
        }
      }
      assert ([head] + rest)[1..] == rest;
      [head] + rest
  }

  /** An occurrence with none before it is the one `Find` returns. */
  lemma FindIs(t: string, sep: string, i: nat)
    requires 1 <= |sep| && OccursAt(t, sep, i)
    requires forall j :: 0 <= j < i ==> !OccursAt(t, sep, j)
    ensures Find(t, sep) == Some(i)
  {
  }

  /**
   * Cutting at the leftmost occurrence: the piece before it, followed by the
   * separator, has its first occurrence exactly at the piece's end.
   */
  lemma LeftmostCut(s: string, sep: string, i: nat)
    requires 1 <= |sep| && Find(s, sep) == Some(i)
    ensures Find(s[..i] + sep, sep) == Some(i)
  {
    FirstOccurrenceCut(s, sep, i);
  }

  lemma FirstOccurrenceCut(s: string, sep: string, i: nat)
    requires 1 <= |sep| && OccursAt(s, sep, i)
    requires forall j :: 0 <= j < i ==> !OccursAt(s, sep, j)
    ensures Find(s[..i] + sep, sep) == Some(i)
  {
    var t := s[..i + |sep|];
    PrefixCut(s, sep, i);
    NoneEarlierInPrefix(s, sep, i, i + |sep|);
    FindIs(t, sep, i);
  }

  /** The piece before an occurrence, with the separator, is a prefix ending in it. */
  lemma PrefixCut(s: string, sep: string, i: nat)
    requires OccursAt(s, sep, i)
    ensures s[..i] + sep == s[..i + |sep|]
    ensures OccursAt(s[..i] + sep, sep, i)
  {
    assert s[i..i + |sep|] == sep;
    assert s[..i + |sep|] == s[..i] + s[i..i + |sep|];
  }

  /** No occurrence before `i` in `s` means none before `i` in a prefix. */
  lemma NoneEarlierInPrefix(s: string, sep: string, i: nat, m: nat)
    requires m <= |s|
    requires forall j :: 0 <= j < i ==> !OccursAt(s, sep, j)
    ensures forall j :: 0 <= j < i ==> !OccursAt(s[..m], sep, j)
  {
    forall j | 0 <= j < i ensures !OccursAt(s[..m], sep, j) {
      if OccursAt(s[..m], sep, j) {
        OccursInPrefix(s, sep, m, j);
      }
    }
  }

  /** Every piece but the last, with the separator after it, first contains it at its end. */
  predicate CutsLeftmost(parts: seq<string>, sep: string)
    requires 1 <= |sep|
  {
    forall k :: 0 <= k < |parts| - 1 ==> Find(parts[k] + sep, sep) == Some(|parts[k]|)
  }

  lemma ConsCuts(head: string, rest: seq<string>, sep: string)
    requires 1 <= |sep| && 1 <= |rest|
    requires Find(head + sep, sep) == Some(|head|) && CutsLeftmost(rest, sep)
    ensures CutsLeftmost([head] + rest, sep)
  {
    var parts := [head] + rest;
    forall k | 0 <= k < |parts| - 1 ensures Find(parts[k] + sep, sep) == Some(|parts[k]|) {
      if k > 0 {
        assert parts[k] == rest[k - 1];
      }
    }
  }

  /**
   * `Split` cuts at the leftmost occurrences. For `"aaa"` and `"aa"` this
   * gives `["", "a"]` and rules out `["a", ""]`.
   */
  lemma {:induction false} SplitCutsLeftmost(s: string, sep: string)
    requires 1 <= |sep|
    ensures CutsLeftmost(Split(s, sep), sep)
    decreases |s|
  {
    match Find(s, sep)
    case None =>
    case Some(i) =>
      var rest := Split(s[i + |sep|..], sep);
      assert Split(s, sep) == [s[..i]] + rest;
      LeftmostCut(s, sep, i);
      SplitCutsLeftmost(s[i + |sep|..], sep);
      ConsCuts(s[..i], rest, sep);
  }

  /** The index of the last occurrence of `c` in `s`, if any. */
  function LastIndexOf(s: string, c: char): (r: Option<nat>)
    ensures r.Some? ==> r.value < |s| && s[r.value] == c
    ensures r.Some? ==> forall k :: r.value < k < |s| ==> s[k] != c
    ensures r.None? ==> forall k :: 0 <= k < |s| ==> s[k] != c
  {
    if |s| == 0 then None
    else if s[|s| - 1] == c then Some(|s| - 1)
    else LastIndexOf(s[..|s| - 1], c)
  }

  /**
   * `os.path.splitext(name)[0]` for a bare file name: everything before the
   * last dot, unless only dots precede it (a leading-dot name has no
   * extension).
   */
  function Root(name: string): (r: string)
    ensures r <= name
    ensures r != name ==> name[|r|] == '.' && exists j :: 0 <= j < |r| && name[j] != '.'
    ensures r != name ==> forall k :: |r| < k < |name| ==> name[k] != '.'
    ensures r == name ==> forall k, j :: 0 <= j < k < |name| && name[k] == '.' ==> name[j] == '.'
  {
    match LastIndexOf(name, '.')
    case None => name
    case Some(d) =>
      if exists j :: 0 <= j < d && name[j] != '.' then name[..d] else name
  }
}
