/**
 * The few java.lang.String operations the boolean converter relies on:
 * split(",", 2), defined through a first-occurrence search, and
 * equalsIgnoreCase. Case mapping is
 * restricted to ASCII letters; every other character maps to itself.
 */
module JavaString {
  import opened Wrappers

  /** The position of the first `c` in `s`, or None: the search that split performs for a single-character separator. */
  function IndexOf(s: string, c: char): (r: Option<nat>)
    ensures r.None? <==> c !in s
    ensures r.Some? ==> r.value < |s| && s[r.value] == c && c !in s[..r.value]
  {
    if s == [] then None
    else if s[0] == c then Some(0)
    else match IndexOf(s[1..], c)
      case None => None
      case Some(i) =>
        assert s[..i + 1] == [s[0]] + s[1..][..i];
        Some(i + 1)
  }

  /**
   * String.split(sep, 2) for a one-character separator that is not a
   * regular-expression metacharacter: the text before the first separator and
   * everything after it (empty trailing text is kept, since the limit is
   * positive), or the whole string when it holds no separator.
   */
  function SplitOnce(s: string, sep: char): (parts: seq<string>)
    ensures 1 <= |parts| <= 2
    ensures |parts| == 1 <==> sep !in s
    ensures |parts| == 1 ==> parts[0] == s
    ensures |parts| == 2 ==> s == parts[0] + [sep] + parts[1] && sep !in parts[0]
  {
    match IndexOf(s, sep)
    case None => [s]
    case Some(i) =>
      assert s == s[..i] + [sep] + s[i + 1..];
      [s[..i], s[i + 1..]]
  }

  /** Splitting the join of a separator-free head and any tail gives back the two pieces. */
  lemma SplitOnceOfJoin(head: string, tail: string, sep: char)
    requires sep !in head
    ensures SplitOnce(head + [sep] + tail, sep) == [head, tail]
  {
    var s := head + [sep] + tail;
    assert s[|head|] == sep;
    var parts := SplitOnce(s, sep);
    assert s[..|head|] == head;
    assert s[|head| + 1..] == tail;
  }

  /** Character.toUpperCase, restricted to ASCII letters. */
  function ToUpperCase(c: char): (u: char)
    ensures 'a' <= c <= 'z' ==> 'A' <= u <= 'Z' && u as int == c as int - 32
    ensures !('a' <= c <= 'z') ==> u == c
  {
    if 'a' <= c <= 'z' then (c as int - 32) as char else c
  }

  /** Character.toLowerCase, restricted to ASCII letters. */
  function ToLowerCase(c: char): (l: char)
    ensures 'A' <= c <= 'Z' ==> 'a' <= l <= 'z' && l as int == c as int + 32
    ensures !('A' <= c <= 'Z') ==> l == c
  {
    if 'A' <= c <= 'Z' then (c as int + 32) as char else c
  }

  /** The per-character test of String.regionMatches(ignoreCase = true, ...). */
  predicate CharEqualsIgnoreCase(a: char, b: char): (r: bool)
    ensures a == b ==> r
    ensures r <==> ToLowerCase(a) == ToLowerCase(b)
  {
    a == b
    || ToUpperCase(a) == ToUpperCase(b)
    || ToLowerCase(ToUpperCase(a)) == ToLowerCase(ToUpperCase(b))
  }

  /** Pairwise CharEqualsIgnoreCase over two strings of equal length. */
  predicate RegionMatchesIgnoreCase(a: string, b: string): (r: bool)
    requires |a| == |b|
    ensures a == b ==> r
  {
    a == [] || (CharEqualsIgnoreCase(a[0], b[0]) && RegionMatchesIgnoreCase(a[1..], b[1..]))
  }

  /** String.equalsIgnoreCase: same length and every pair of characters equal up to case. */
  predicate EqualsIgnoreCase(a: string, b: string): (r: bool)
    ensures r ==> |a| == |b|
    ensures a == b ==> r
  {
    |a| == |b| && RegionMatchesIgnoreCase(a, b)
  }

  /** Two characters are equal up to case exactly when their lower-case forms agree. */
  lemma CharEqualsIgnoreCaseIsLowerEquality(a: char, b: char)
    ensures CharEqualsIgnoreCase(a, b) <==> ToLowerCase(a) == ToLowerCase(b)
  {
  }

  /**
   * Reference definition of equalsIgnoreCase: equal length and equal
   * lower-case forms at every position.
   */
  lemma {:induction false} EqualsIgnoreCaseIsLowerEquality(a: string, b: string)
    ensures EqualsIgnoreCase(a, b) <==>
      |a| == |b| && forall i :: 0 <= i < |a| ==> ToLowerCase(a[i]) == ToLowerCase(b[i])
  {
    if |a| == |b| && a != [] {
      EqualsIgnoreCaseIsLowerEquality(a[1..], b[1..]);
      CharEqualsIgnoreCaseIsLowerEquality(a[0], b[0]);
      if forall i :: 0 <= i < |a| ==> ToLowerCase(a[i]) == ToLowerCase(b[i]) {
        assert forall i :: 0 <= i < |a| - 1 ==> ToLowerCase(a[1..][i]) == ToLowerCase(b[1..][i]) by {
          forall i | 0 <= i < |a| - 1 ensures ToLowerCase(a[1..][i]) == ToLowerCase(b[1..][i]) {
            assert a[1..][i] == a[i + 1] && b[1..][i] == b[i + 1];
          }
        }
      }
      if EqualsIgnoreCase(a, b) {
        forall i | 0 <= i < |a| ensures ToLowerCase(a[i]) == ToLowerCase(b[i]) {
          if i > 0 {
            assert a[1..][i - 1] == a[i] && b[1..][i - 1] == b[i];
          }
        }
      }
    }
  }

  /** equalsIgnoreCase is reflexive: a string equals itself up to case. */
  lemma EqualsIgnoreCaseReflexive(a: string)
    ensures EqualsIgnoreCase(a, a)
  {
    EqualsIgnoreCaseIsLowerEquality(a, a);
  }

  /** equalsIgnoreCase is symmetric. */
  lemma EqualsIgnoreCaseSymmetric(a: string, b: string)
    ensures EqualsIgnoreCase(a, b) <==> EqualsIgnoreCase(b, a)
  {
    EqualsIgnoreCaseIsLowerEquality(a, b);
    EqualsIgnoreCaseIsLowerEquality(b, a);
  }

  /** equalsIgnoreCase is transitive. */
  lemma EqualsIgnoreCaseTransitive(a: string, b: string, c: string)
    requires EqualsIgnoreCase(a, b) && EqualsIgnoreCase(b, c)
    ensures EqualsIgnoreCase(a, c)
  {
    EqualsIgnoreCaseIsLowerEquality(a, b);
    EqualsIgnoreCaseIsLowerEquality(b, c);
    EqualsIgnoreCaseIsLowerEquality(a, c);
  }
}
