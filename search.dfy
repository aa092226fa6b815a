/**
 * The bookmark search specification: the decoded bookmark tree, the
 * all-substrings matching predicate, and the depth-first list of matching
 * leaves that the bounded walk returns a prefix of.
 */
module Search {
  import opened Text

  /** The cap on the number of matches of one query (`max_matches_len`). */
  const MaxMatchesLen: nat := 10

  /**
   * A decoded bookmark entry. An entry whose `type` is `"folder"` becomes a
   * Folder with its `children` in stored order; an entry of any other type
   * becomes a Leaf with its `name` and `url`.
   */
  datatype Node = Folder(children: seq<Node>) | Leaf(name: string, url: string)

  /** The `roots` object of one bookmark file. */
  datatype Roots = Roots(bookmarkBar: Node, synced: Node, other: Node)

  /**
   * `contains_all_substrings`: every sub-query, lower-cased, is a substring of
   * the lower-cased text. The scan stops at the first sub-query that is missing.
   */
  function ContainsAllSubstrings(text: string, substrings: seq<string>): (r: bool)
    ensures r <==> forall k :: 0 <= k < |substrings| ==> Occurs(Lower(substrings[k]), Lower(text))
  {
    if substrings == [] then true
    else if !Contains(Lower(text), Lower(substrings[0])) then false
    else
      var r := ContainsAllSubstrings(text, substrings[1..]);
      assert forall k :: 1 <= k < |substrings| ==> substrings[k] == substrings[1..][k - 1];
      r
  }

  /** Every sub-query lower-cased. */
  function LowerAll(substrings: seq<string>): (r: seq<string>)
    ensures |r| == |substrings|
    ensures forall k :: 0 <= k < |r| ==> r[k] == Lower(substrings[k])
  {
    seq(|substrings|, k requires 0 <= k < |substrings| => Lower(substrings[k]))
  }

  /** Matching ignores case on both sides: lower-casing the title or the sub-queries changes nothing. */
  lemma ContainsAllSubstringsIgnoresCase(text: string, substrings: seq<string>)
    ensures ContainsAllSubstrings(text, substrings) == ContainsAllSubstrings(Lower(text), LowerAll(substrings))
  {
    LowerIdempotent(text);
    forall k | 0 <= k < |substrings| ensures Lower(LowerAll(substrings)[k]) == Lower(substrings[k]) {
      LowerIdempotent(substrings[k]);
    }
  }

  /** The outcome depends only on which sub-queries there are, not on their positions. */
  lemma ContainsAllSubstringsMembers(text: string, substrings: seq<string>)
    ensures ContainsAllSubstrings(text, substrings)
        <==> forall s :: s in substrings ==> Occurs(Lower(s), Lower(text))
  {
  }

  /** The order of the sub-queries does not matter: any reordering gives the same outcome. */
  lemma SubQueryOrderIrrelevant(text: string, a: seq<string>, b: seq<string>)
    requires multiset(a) == multiset(b)
    ensures ContainsAllSubstrings(text, a) == ContainsAllSubstrings(text, b)
  {
    ContainsAllSubstringsMembers(text, a);
    ContainsAllSubstringsMembers(text, b);
    forall s ensures s in a <==> s in b {
      assert s in a <==> s in multiset(a);
      assert s in b <==> s in multiset(b);
    }
  }

  /** All of `a + b` occur exactly when all of `a` and all of `b` occur. */
  lemma ContainsAllSubstringsConcat(text: string, a: seq<string>, b: seq<string>)
    ensures ContainsAllSubstrings(text, a + b) == (ContainsAllSubstrings(text, a) && ContainsAllSubstrings(text, b))
  {
    var t := Lower(text);
    if ContainsAllSubstrings(text, a) && ContainsAllSubstrings(text, b) {
      forall k | 0 <= k < |a + b| ensures Occurs(Lower((a + b)[k]), t) {
        if k < |a| {
          assert (a + b)[k] == a[k];
        } else {
          assert (a + b)[k] == b[k - |a|];
        }
      }
    }
    if ContainsAllSubstrings(text, a + b) {
      forall k | 0 <= k < |a| ensures Occurs(Lower(a[k]), t) {
        assert (a + b)[k] == a[k];
      }
      forall k | 0 <= k < |b| ensures Occurs(Lower(b[k]), t) {
        assert (a + b)[|a| + k] == b[k];
      }
    }
  }

  /** The sub-queries of a query: its pieces between single spaces. */
  function SubQueries(query: string): (r: seq<string>)
    ensures |r| >= 1
    ensures forall k :: 0 <= k < |r| ==> ' ' !in r[k]
    ensures Join(r, ' ') == query
  {
    Split(query, ' ')
  }

  /** A node that the walk appends: a leaf whose name holds every sub-query. */
  predicate IsMatch(n: Node, query: string)
    ensures IsMatch(n, query) <==>
      n.Leaf? && forall w :: w in SubQueries(query) ==> Occurs(Lower(w), Lower(n.name))
  {
    n.Leaf? && ContainsAllSubstrings(n.name, SubQueries(query))
  }

  /** All matching leaves under `n`, in depth-first pre-order, with no cap. */
  function Matches(n: Node, query: string): (r: seq<Node>)
    ensures |r| <= |Leaves(n)|
    decreases n
  {
    match n
    case Leaf(_, _) => if IsMatch(n, query) then [n] else []
    case Folder(children) => MatchesAll(children, query)
  }

  /** All matching leaves under a sequence of siblings, visited in stored order. */
  function MatchesAll(ns: seq<Node>, query: string): (r: seq<Node>)
    ensures |r| <= |LeavesAll(ns)|
    decreases ns
  {
    if ns == [] then [] else Matches(ns[0], query) + MatchesAll(ns[1..], query)
  }

  /** The matches of one bookmark file: bar, then synced, then other. */
  function RootsMatches(roots: Roots, query: string): (r: seq<Node>)
    ensures r == FilterMatches(RootsLeaves(roots), query)
  {
    MatchesAreFilteredLeaves(roots.bookmarkBar, query);
    MatchesAreFilteredLeaves(roots.synced, query);
    MatchesAreFilteredLeaves(roots.other, query);
    FilterMatchesConcat(Leaves(roots.bookmarkBar), Leaves(roots.synced), query);
    FilterMatchesConcat(Leaves(roots.bookmarkBar) + Leaves(roots.synced), Leaves(roots.other), query);
    Matches(roots.bookmarkBar, query) + Matches(roots.synced, query) + Matches(roots.other, query)
  }

  /** Every leaf under `n`, in depth-first pre-order (the reference walk). */
  function Leaves(n: Node): (r: seq<Node>)
    ensures forall k :: 0 <= k < |r| ==> r[k].Leaf?
    decreases n
  {
    match n
    case Leaf(_, _) => [n]
    case Folder(children) => LeavesAll(children)
  }

  function LeavesAll(ns: seq<Node>): (r: seq<Node>)
    ensures forall k :: 0 <= k < |r| ==> r[k].Leaf?
    decreases ns
  {
    if ns == [] then [] else Leaves(ns[0]) + LeavesAll(ns[1..])
  }

  /** The nodes of `s` that match `query`, in the order of `s`. */
  function FilterMatches(s: seq<Node>, query: string): (r: seq<Node>)
    ensures |r| <= |s|
  {
    if s == [] then []
    else (if IsMatch(s[0], query) then [s[0]] else []) + FilterMatches(s[1..], query)
  }

  /** A node is kept by the filter exactly when it is in `s` and matches. */
  lemma {:induction false} FilterMatchesMembers(s: seq<Node>, query: string, n: Node)
    ensures n in FilterMatches(s, query) <==> n in s && IsMatch(n, query)
  {
    if s != [] {
      FilterMatchesMembers(s[1..], query, n);
      assert s == [s[0]] + s[1..];
    }
  }

  lemma {:induction false} FilterMatchesConcat(a: seq<Node>, b: seq<Node>, query: string)
    ensures FilterMatches(a + b, query) == FilterMatches(a, query) + FilterMatches(b, query)
  {
    if a == [] {
      assert a + b == b;
    } else {
      var head := if IsMatch(a[0], query) then [a[0]] else [];
      assert (a + b)[0] == a[0];
      assert (a + b)[1..] == a[1..] + b;
      calc {
        FilterMatches(a + b, query);
        head + FilterMatches(a[1..] + b, query);
        { FilterMatchesConcat(a[1..], b, query); }
        head + (FilterMatches(a[1..], query) + FilterMatches(b, query));
        FilterMatches(a, query) + FilterMatches(b, query);
      }
    }
  }

  /**
   * The walk's matches are exactly the leaves of the tree that pass the
   * predicate, in depth-first order: folders never appear, and no matching
   * leaf is skipped or reordered.
   */
  lemma {:induction false} MatchesAreFilteredLeaves(n: Node, query: string)
    ensures Matches(n, query) == FilterMatches(Leaves(n), query)
    decreases n
  {
    match n
    case Leaf(_, _) =>
    case Folder(children) => MatchesAllAreFilteredLeaves(children, query);
  }

  lemma {:induction false} MatchesAllAreFilteredLeaves(ns: seq<Node>, query: string)
    ensures MatchesAll(ns, query) == FilterMatches(LeavesAll(ns), query)
    decreases ns
  {
    if ns != [] {
      MatchesAreFilteredLeaves(ns[0], query);
      MatchesAllAreFilteredLeaves(ns[1..], query);
      FilterMatchesConcat(Leaves(ns[0]), LeavesAll(ns[1..]), query);
    }
  }

  /**
   * Only leaves that pass the predicate are ever matched: a folder never is,
   * whatever the query.
   */
  lemma RootsMatchesAreMatchingLeaves(roots: Roots, query: string)
    ensures forall m :: m in RootsMatches(roots, query) ==> IsMatch(m, query)
  {
    forall m | m in RootsMatches(roots, query) ensures IsMatch(m, query) {
      var n := if m in Matches(roots.bookmarkBar, query) then roots.bookmarkBar
        else if m in Matches(roots.synced, query) then roots.synced
        else roots.other;
      MatchesAreFilteredLeaves(n, query);
      FilterMatchesMembers(Leaves(n), query, m);
    }
  }

  /** The empty query has the one sub-query `""`, which every title contains. */
  lemma EmptyQueryMatchesEveryTitle(title: string)
    ensures ContainsAllSubstrings(title, SubQueries(""))
  {
    EmptyOccursEverywhere(Lower(title));
  }

  lemma {:induction false} FilterEmptyQueryKeepsLeaves(s: seq<Node>)
    requires forall k :: 0 <= k < |s| ==> s[k].Leaf?
    ensures FilterMatches(s, "") == s
  {
    if s != [] {
      EmptyQueryMatchesEveryTitle(s[0].name);
      FilterEmptyQueryKeepsLeaves(s[1..]);
    }
  }

  /** With an empty query every leaf of the tree matches, in depth-first order. */
  lemma EmptyQueryMatchesEveryLeaf(n: Node)
    ensures Matches(n, "") == Leaves(n)
  {
    MatchesAreFilteredLeaves(n, "");
    FilterEmptyQueryKeepsLeaves(Leaves(n));
  }

  /** Every leaf of the file's three root sections, bar first, then synced, then other. */
  function RootsLeaves(roots: Roots): seq<Node>
  {
    Leaves(roots.bookmarkBar) + Leaves(roots.synced) + Leaves(roots.other)
  }

  /** With an empty query a file's matches are all its leaves, in section order. */
  lemma EmptyQueryMatchesEveryRootLeaf(roots: Roots)
    ensures RootsMatches(roots, "") == RootsLeaves(roots)
  {
    EmptyQueryMatchesEveryLeaf(roots.bookmarkBar);
    EmptyQueryMatchesEveryLeaf(roots.synced);
    EmptyQueryMatchesEveryLeaf(roots.other);
  }

  /** Visiting one more sibling appends that sibling's matches. */
  lemma {:induction false} MatchesAllSnoc(ns: seq<Node>, n: Node, query: string)
    ensures MatchesAll(ns + [n], query) == MatchesAll(ns, query) + Matches(n, query)
  {
    if ns == [] {
      assert [n][1..] == [];
    } else {
      assert (ns + [n])[0] == ns[0];
      assert (ns + [n])[1..] == ns[1..] + [n];
      calc {
        MatchesAll(ns + [n], query);
        Matches(ns[0], query) + MatchesAll(ns[1..] + [n], query);
        { MatchesAllSnoc(ns[1..], n, query); }
        Matches(ns[0], query) + MatchesAll(ns[1..], query) + Matches(n, query);
        MatchesAll(ns, query) + Matches(n, query);
      }
    }
  }

  /** The first `n` elements of `s`, or all of `s` when it is shorter. */
  function Take<T>(s: seq<T>, n: nat): (r: seq<T>)
    ensures |r| == if n < |s| then n else |s|
    ensures r <= s
  {
    if n < |s| then s[..n] else s
  }

  /**
   * A cap shared by two consecutive walks: taking up to `n` from `a` and then
   * up to what is left of `n` from `b` is taking up to `n` from `a + b`.
   */
  lemma TakeConcat<T>(a: seq<T>, b: seq<T>, n: nat)
    ensures Take(a, n) + Take(b, n - |Take(a, n)|) == Take(a + b, n)
  {
  }
}
