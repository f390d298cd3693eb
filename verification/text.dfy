/**
 * String operations the pipeline relies on: case mapping, substring search
 * (Python's `in` on strings), removal and replacement of one character,
 * suffix test, code-point ordering (Python's string `<`) and splitting a path
 * on '/'.
 *
 * Case mapping is ASCII-only: letters 'A'..'Z' and 'a'..'z' are mapped, every
 * other character is left as it is.
 */
module Text {

  function LowerChar(c: char): char {
    if 'A' <= c <= 'Z' then (c as int + 32) as char else c
  }

  function UpperChar(c: char): char {
    if 'a' <= c <= 'z' then (c as int - 32) as char else c
  }

  /** `s.lower()` */
  function Lower(s: string): string {
    seq(|s|, i requires 0 <= i < |s| => LowerChar(s[i]))
  }

  /** `s.upper()` */
  function Upper(s: string): string {
    seq(|s|, i requires 0 <= i < |s| => UpperChar(s[i]))
  }

  /** Lower-casing ignores the case the string was in before. */
  lemma LowerOfUpper(s: string)
    ensures Lower(Upper(s)) == Lower(s)
  {
  }

  /** Upper-casing ignores the case the string was in before. */
  lemma UpperOfLower(s: string)
    ensures Upper(Lower(s)) == Upper(s)
  {
  }

  /** An upper-cased string holds no lower-case ASCII letter. */
  lemma UpperHasNoLowercase(s: string, c: char)
    requires 'a' <= c <= 'z'
    ensures c !in Upper(s)
  {
  }

  /** `t` occurs in `s` starting at position `i`. */
  predicate OccursAt(s: string, t: string, i: int) {
    0 <= i <= |s| - |t| && s[i..i + |t|] == t
  }

  /** Python's `t in s` for strings: `t` occurs in `s` as a contiguous block. */
  predicate Contains(s: string, t: string) {
    exists i :: 0 <= i <= |s| - |t| && OccursAt(s, t, i)
  }

  /** Every character of a text that occurs in `s` is a character of `s`. */
  lemma CharsOfOccurrence(s: string, t: string)
    ensures Contains(s, t) ==> forall c :: c in t ==> c in s
  {
    if Contains(s, t) {
      var i :| 0 <= i <= |s| - |t| && OccursAt(s, t, i);
      forall c | c in t
        ensures c in s
      {
        var k :| 0 <= k < |t| && t[k] == c;
        assert s[i + k] == s[i..i + |t|][k];
      }
    }
  }

  /** A prefix occurs. */
  lemma PrefixOccurs(s: string, t: string)
    requires |t| <= |s| && s[..|t|] == t
    ensures Contains(s, t)
  {
    assert OccursAt(s, t, 0);
  }

  /** An occurrence in `a + [c] + b` lies inside `a`, inside `b`, or covers `c`. */
  lemma OccurrenceAroundSeparator(a: string, c: char, b: string, t: string, i: int)
    requires OccursAt(a + [c] + b, t, i)
    ensures OccursAt(a, t, i) || OccursAt(b, t, i - |a| - 1) || c in t
  {
    var s := a + [c] + b;
    if i + |t| <= |a| {
      assert s[i..i + |t|] == a[i..i + |t|];
    } else if i > |a| {
      assert s[i..i + |t|] == b[i - |a| - 1..i - |a| - 1 + |t|];
    } else {
      assert t[|a| - i] == s[|a|] == c;
    }
  }

  /** Occurrences in `a` and in `b` are occurrences in `a + [c] + b`. */
  lemma OccurrenceInJoin(a: string, c: char, b: string, t: string, i: int)
    ensures OccursAt(a, t, i) ==> OccursAt(a + [c] + b, t, i)
    ensures OccursAt(b, t, i) ==> OccursAt(a + [c] + b, t, |a| + 1 + i)
  {
    var s := a + [c] + b;
    if OccursAt(a, t, i) {
      assert s[i..i + |t|] == a[i..i + |t|];
    }
    if OccursAt(b, t, i) {
      assert s[|a| + 1 + i..|a| + 1 + i + |t|] == b[i..i + |t|];
    }
  }

  /**
   * A separator that the searched text does not contain splits the search:
   * `t` occurs in `a + [c] + b` exactly when it occurs in `a` or in `b`.
   */
  lemma SplitSearch(a: string, c: char, b: string, t: string)
    requires c !in t
    ensures Contains(a + [c] + b, t) <==> Contains(a, t) || Contains(b, t)
  {
    if Contains(a + [c] + b, t) {
      var i :| OccursAt(a + [c] + b, t, i);
      OccurrenceAroundSeparator(a, c, b, t, i);
    }
    if Contains(a, t) {
      var i :| OccursAt(a, t, i);
      OccurrenceInJoin(a, c, b, t, i);
    }
    if Contains(b, t) {
      var i :| OccursAt(b, t, i);
      OccurrenceInJoin(a, c, b, t, i);
    }
  }

  /** `s.replace(c, "")` for a one-character `c`. */
  function Without(s: string, c: char): (r: string)
    ensures |r| <= |s|
    ensures c !in r
  {
    if s == [] then []
    else if s[0] == c then Without(s[1..], c)
    else [s[0]] + Without(s[1..], c)
  }

  /** Removing a character distributes over concatenation. */
  lemma {:induction false} WithoutAppend(a: string, b: string, c: char)
    ensures Without(a + b, c) == Without(a, c) + Without(b, c)
  {
    if a == [] {
      assert a + b == b;
    } else {
      assert (a + b)[1..] == a[1..] + b;
      WithoutAppend(a[1..], b, c);
    }
  }

  /** Removing a character that is absent changes nothing. */
  lemma {:induction false} WithoutAbsent(s: string, c: char)
    requires c !in s
    ensures Without(s, c) == s
  {
    if s != [] {
      WithoutAbsent(s[1..], c);
    }
  }

  /** `s.replace(from, to)` for one-character `from` and `to`. */
  function Replace(s: string, from: char, to: char): (r: string)
    ensures |r| == |s|
    ensures forall k :: 0 <= k < |s| ==> r[k] == (if s[k] == from then to else s[k])
  {
    if s == [] then [] else [if s[0] == from then to else s[0]] + Replace(s[1..], from, to)
  }

  /** `s.endswith(suffix)` */
  predicate EndsWith(s: string, suffix: string) {
    |suffix| <= |s| && s[|s| - |suffix|..] == suffix
  }

  /** Python's `a <= b` on strings: lexicographic order of code points. */
  predicate LexLe(a: string, b: string) {
    a == [] || (b != [] && (a[0] < b[0] || (a[0] == b[0] && LexLe(a[1..], b[1..]))))
  }

  /** Any two strings are comparable. */
  lemma {:induction false} LexLeTotal(a: string, b: string)
    ensures LexLe(a, b) || LexLe(b, a)
  {
    if a != [] && b != [] && a[0] == b[0] {
      LexLeTotal(a[1..], b[1..]);
    }
  }

  /** The pieces of `s` between the '/' characters, as `s.split("/")`. */
  function Segments(s: string): (r: seq<string>)
    ensures |r| >= 1
  {
    if s == [] then [""]
    else
      var rest := Segments(s[1..]);
      if s[0] == '/' then [""] + rest else [[s[0]] + rest[0]] + rest[1..]
  }

  /** A string without '/' is a single segment. */
  lemma {:induction false} SegmentsOfPlain(s: string)
    requires '/' !in s
    ensures Segments(s) == [s]
  {
    if s != [] {
      SegmentsOfPlain(s[1..]);
      assert [s[0]] + s[1..] == s;
    }
  }

  /** Joining two strings with '/' concatenates their segments. */
  lemma {:induction false} SegmentsOfJoin(a: string, b: string)
    ensures Segments(a + "/" + b) == Segments(a) + Segments(b)
  {
    if a == [] {
      assert a + "/" + b == "/" + b;
      assert ("/" + b)[1..] == b;
    } else {
      assert (a + "/" + b)[1..] == a[1..] + "/" + b;
      SegmentsOfJoin(a[1..], b);
    }
  }
}
