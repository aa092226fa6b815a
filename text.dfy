/**
 * The string operations the bookmark search relies on: ASCII case folding,
 * substring containment (Python's `in` on strings), `str.split` with an
 * explicit one-character separator and `str.endswith`.
 */
module Text {

  /** ASCII case folding of one character; every other character is kept. */
  function LowerChar(c: char): char
  {
    if 'A' <= c <= 'Z' then (c as int - 'A' as int + 'a' as int) as char else c
  }

  /** `s.lower()`, restricted to the ASCII letters. */
  function Lower(s: string): (r: string)
    ensures |r| == |s|
    ensures forall k :: 0 <= k < |r| ==> !('A' <= r[k] <= 'Z')
    ensures forall k :: 0 <= k < |s| && !('A' <= s[k] <= 'Z') ==> r[k] == s[k]
    ensures forall k :: 0 <= k < |s| && 'A' <= s[k] <= 'Z' ==> r[k] as int == s[k] as int + 32
  {
    seq(|s|, k requires 0 <= k < |s| => LowerChar(s[k]))
  }

  /** Lower-casing twice is lower-casing once. */
  lemma LowerIdempotent(s: string)
    ensures Lower(Lower(s)) == Lower(s)
  {
  }

  /** `sub` sits in `s` starting at index `i`. */
  ghost predicate OccursAt(sub: string, s: string, i: nat)
  {
    i + |sub| <= |s| && s[i..i + |sub|] == sub
  }

  /** `sub` is a substring of `s`. */
  ghost predicate Occurs(sub: string, s: string)
  {
    exists i: nat :: OccursAt(sub, s, i)
  }

  lemma OccursAtShift(sub: string, s: string, i: nat)
    requires |s| > 0
    ensures OccursAt(sub, s, i + 1) <==> OccursAt(sub, s[1..], i)
  {
  }

  /** Python's `sub in s`: scans the start positions of `s` from the left. */
  function Contains(s: string, sub: string): (r: bool)
    ensures r <==> Occurs(sub, s)
    decreases |s|
  {
    if sub <= s then
      assert OccursAt(sub, s, 0) by { assert s[0..|sub|] == sub; }
      true
    else if s == [] then
      assert !Occurs(sub, s) by {
        forall i: nat ensures !OccursAt(sub, s, i) { }
      }
      false
    else
      var r := Contains(s[1..], sub);
      assert r <==> Occurs(sub, s) by {
        if r {
          var j: nat :| OccursAt(sub, s[1..], j);
          OccursAtShift(sub, s, j);
        } else {
          forall i: nat ensures !OccursAt(sub, s, i) {
            if i == 0 {
              if i + |sub| <= |s| { assert s[..|sub|] == s[0..|sub|]; }
            } else {
              OccursAtShift(sub, s, i - 1);
            }
          }
        }
      }
      r
  }

  /** The empty string occurs in every string. */
  lemma EmptyOccursEverywhere(s: string)
    ensures Occurs("", s)
  {
    assert OccursAt("", s, 0);
  }

  /** `s.endswith(suffix)`. */
  predicate EndsWith(s: string, suffix: string)
    ensures EndsWith(s, suffix) <==> exists p: string :: s == p + suffix
  {
    assert |suffix| <= |s| ==> s == s[..|s| - |suffix|] + s[|s| - |suffix|..];
    assert forall p: string :: s == p + suffix ==> s[|s| - |suffix|..] == suffix;
    |suffix| <= |s| && s[|s| - |suffix|..] == suffix
  }

  /** The inverse of `Split`: the parts with one `sep` between neighbours. */
  function Join(parts: seq<string>, sep: char): string
    requires |parts| >= 1
  {
    if |parts| == 1 then parts[0] else parts[0] + [sep] + Join(parts[1..], sep)
  }

  /**
   * Python's `s.split(sep)` for a one-character separator: every occurrence of
   * `sep` ends a part, so neighbouring separators give empty parts and the empty
   * string gives one empty part.
   */
  function Split(s: string, sep: char): (r: seq<string>)
    ensures |r| >= 1
    ensures Join(r, sep) == s
    ensures forall k :: 0 <= k < |r| ==> sep !in r[k]
  {
    if s == [] then [""]
    else
      var rest := Split(s[1..], sep);
      if s[0] == sep then
        assert [sep] + Join(rest, sep) == s;
        [""] + rest
      else
        var r := [[s[0]] + rest[0]] + rest[1..];
        assert r[1..] == rest[1..];
        r
  }

  /** Splitting the joined parts gives the parts back, when no part holds `sep`. */
  lemma {:induction false} SplitJoin(parts: seq<string>, sep: char)
    requires |parts| >= 1
    requires forall k :: 0 <= k < |parts| ==> sep !in parts[k]
    ensures Split(Join(parts, sep), sep) == parts
  {
    SplitJoinFirst(parts[0], if |parts| == 1 then [] else [sep] + Join(parts[1..], sep), sep);
    if |parts| > 1 {
      SplitJoin(parts[1..], sep);
      assert Join(parts, sep) == parts[0] + ([sep] + Join(parts[1..], sep));
    }
  }

  /** Splitting `w + tail`, where `w` holds no separator, puts `w` in front of the first part of `tail`. */
  lemma {:induction false} SplitJoinFirst(w: string, tail: string, sep: char)
    requires sep !in w
    requires tail == [] || tail[0] == sep
    ensures tail == [] ==> Split(w + tail, sep) == [w]
    ensures tail != [] ==> Split(w + tail, sep) == [w] + Split(tail[1..], sep)
    decreases |w|
  {
    if w == [] {
      assert w + tail == tail;
    } else {
      SplitJoinFirst(w[1..], tail, sep);
      assert (w + tail)[1..] == w[1..] + tail;
      assert (w + tail)[0] == w[0] && w[0] != sep;
      assert [w[0]] + w[1..] == w;
    }
  }

  /** An empty query is one empty sub-query: `"".split(" ") == [""]`. */
  lemma SplitEmpty(sep: char)
    ensures Split("", sep) == [""]
  {
  }
}
