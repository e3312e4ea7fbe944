/**
  Ordering the collected posts: `posts.sort_by(|a, b| b.front_matter.date.cmp(&a.front_matter.date))`,
  a stable sort that puts the newest post first and keeps posts with equal
  dates in the order they were found.
*/
module Collection {
  import opened Dates
  import opened Document

  function DateOf(p: Post): Timestamp {
    p.frontMatter.date
  }

  /** Newest first: no post is earlier than a post after it. */
  predicate NewestFirst(s: seq<Post>) {
    forall i, j :: 0 <= i < j < |s| ==> !Earlier(DateOf(s[i]), DateOf(s[j]))
  }

  /** The posts of `s` dated exactly `t`, in their order in `s`. */
  function DatedAt(s: seq<Post>, t: Timestamp): (r: seq<Post>)
  {
    if s == [] then [] else (if DateOf(s[0]) == t then [s[0]] else []) + DatedAt(s[1..], t)
  }

  /** Places `x` into the newest-first `s` after every post that is not earlier than `x`. */
  function Insert(x: Post, s: seq<Post>): seq<Post> {
    if s == [] then [x]
    else if Earlier(DateOf(s[0]), DateOf(x)) then [x] + s
    else [s[0]] + Insert(x, s[1..])
  }

  /** The result of the stable newest-first sort of `s`, as insertion of each post in turn. */
  function SortNewestFirst(s: seq<Post>): seq<Post> {
    if s == [] then [] else Insert(s[|s| - 1], SortNewestFirst(s[..|s| - 1]))
  }

  // ---------------------------------------------------------------------
  // Helper facts

  lemma NotEarlierTransitive(a: Timestamp, b: Timestamp, c: Timestamp)
    ensures !Earlier(a, b) && !Earlier(b, c) ==> !Earlier(a, c)
  {
  }

  lemma {:induction false} DatedAtAppend(a: seq<Post>, b: seq<Post>, t: Timestamp)
    ensures DatedAt(a + b, t) == DatedAt(a, t) + DatedAt(b, t)
    decreases |a|
  {
    if a == [] {
      assert a + b == b;
    } else {
      DatedAtAppend(a[1..], b, t);
      assert (a + b)[0] == a[0] && (a + b)[1..] == a[1..] + b;
    }
  }

  /** `DatedAt` selects: what it keeps comes from `s` and has date `t`, and it keeps a post whenever `s` has one. */
  lemma {:induction false} DatedAtSelects(s: seq<Post>, t: Timestamp)
    ensures forall k :: 0 <= k < |DatedAt(s, t)| ==> DatedAt(s, t)[k] in s && DateOf(DatedAt(s, t)[k]) == t
    ensures (exists k :: 0 <= k < |s| && DateOf(s[k]) == t) <==> DatedAt(s, t) != []
    decreases |s|
  {
    if s != [] {
      DatedAtSelects(s[1..], t);
      if DateOf(s[0]) != t {
        forall k | 0 <= k < |s| && DateOf(s[k]) == t
          ensures exists k' :: 0 <= k' < |s[1..]| && DateOf(s[1..][k']) == t
        {
          assert DateOf(s[1..][k - 1]) == t;
        }
      } else {
        assert DateOf(s[0]) == t;
      }
      forall k | 0 <= k < |s[1..]| && DateOf(s[1..][k]) == t
        ensures exists k' :: 0 <= k' < |s| && DateOf(s[k']) == t
      {
        assert DateOf(s[k + 1]) == t;
      }
    }
  }

  lemma NewestFirstTail(s: seq<Post>)
    requires NewestFirst(s) && s != []
    ensures NewestFirst(s[1..])
    ensures forall k :: 1 <= k < |s| ==> !Earlier(DateOf(s[0]), DateOf(s[k]))
  {
  }

  lemma ConsNewestFirst(h: Post, s: seq<Post>)
    requires NewestFirst(s)
    requires forall k :: 0 <= k < |s| ==> !Earlier(DateOf(h), DateOf(s[k]))
    ensures NewestFirst([h] + s)
  {
    var r := [h] + s;
    forall i, j | 0 <= i < j < |r|
      ensures !Earlier(DateOf(r[i]), DateOf(r[j]))
    {
      if i > 0 {
        assert r[i] == s[i - 1] && r[j] == s[j - 1];
      } else {
        assert r[j] == s[j - 1];
      }
    }
  }

  /** The first post of a newest-first sequence is not earlier than any post in it. */
  lemma NewestComesFirst(s: seq<Post>, p: Post)
    requires NewestFirst(s) && p in s
    ensures !Earlier(DateOf(s[0]), DateOf(p))
  {
    var k :| 0 <= k < |s| && s[k] == p;
    if k > 0 {
      assert !Earlier(DateOf(s[0]), DateOf(s[k]));
    }
  }

  lemma {:induction false} InsertMultiset(x: Post, s: seq<Post>)
    ensures multiset(Insert(x, s)) == multiset(s) + multiset{x}
    decreases |s|
  {
    if s != [] && !Earlier(DateOf(s[0]), DateOf(x)) {
      InsertMultiset(x, s[1..]);
      assert s == [s[0]] + s[1..];
    }
  }

  lemma {:induction false} InsertNewestFirst(x: Post, s: seq<Post>)
    requires NewestFirst(s)
    ensures NewestFirst(Insert(x, s))
    decreases |s|
  {
    if s == [] {
    } else if Earlier(DateOf(s[0]), DateOf(x)) {
      forall k | 0 <= k < |s|
        ensures !Earlier(DateOf(x), DateOf(s[k]))
      {
        if k > 0 {
          assert !Earlier(DateOf(s[0]), DateOf(s[k]));
        }
        EarlierIsStrictTotalOrder(DateOf(s[k]), DateOf(s[0]), DateOf(x));
      }
      ConsNewestFirst(x, s);
    } else {
      NewestFirstTail(s);
      InsertNewestFirst(x, s[1..]);
      var r := Insert(x, s[1..]);
      InsertMultiset(x, s[1..]);
      forall k | 0 <= k < |r|
        ensures !Earlier(DateOf(s[0]), DateOf(r[k]))
      {
        assert r[k] in multiset(r);
        if r[k] != x {
          assert r[k] in s[1..];
        }
      }
      ConsNewestFirst(s[0], r);
    }
  }

  /** Inserting `x` adds it after every post of its own date and leaves the other dates alone. */
  lemma {:induction false} InsertDatedAt(x: Post, s: seq<Post>, t: Timestamp)
    requires NewestFirst(s)
    ensures DatedAt(Insert(x, s), t) == DatedAt(s, t) + (if DateOf(x) == t then [x] else [])
    decreases |s|
  {
    if s == [] {
    } else if Earlier(DateOf(s[0]), DateOf(x)) {
      if DateOf(x) == t {
        forall k | 0 <= k < |s|
          ensures DateOf(s[k]) != t
        {
          if k > 0 {
            assert !Earlier(DateOf(s[0]), DateOf(s[k]));
          }
          EarlierIsStrictTotalOrder(DateOf(s[k]), DateOf(s[0]), DateOf(x));
        }
        DatedAtSelects(s, t);
      }
    } else {
      NewestFirstTail(s);
      InsertDatedAt(x, s[1..], t);
      assert ([s[0]] + Insert(x, s[1..]))[1..] == Insert(x, s[1..]);
    }
  }

  /** The insertion point: after every post not earlier than `x`, before the first post earlier than it. */
  lemma {:induction false} InsertAt(x: Post, s: seq<Post>, j: nat)
    requires NewestFirst(s) && j <= |s|
    requires j > 0 ==> !Earlier(DateOf(s[j - 1]), DateOf(x))
    requires j < |s| ==> Earlier(DateOf(s[j]), DateOf(x))
    ensures Insert(x, s) == s[..j] + [x] + s[j..]
    decreases j
  {
    if j > 0 {
      if j > 1 {
        assert !Earlier(DateOf(s[0]), DateOf(s[j - 1]));
      }
      NotEarlierTransitive(DateOf(s[0]), DateOf(s[j - 1]), DateOf(x));
      NewestFirstTail(s);
      InsertAt(x, s[1..], j - 1);
      assert s[1..][..j - 1] == s[1..j] && s[1..][j - 1..] == s[j..];
      assert s[..j] == [s[0]] + s[1..j];
    }
  }

  // ---------------------------------------------------------------------
  // The stable sort and its characterisation

  /**
    `SortNewestFirst` sorts: its result is newest first, a permutation of
    the input, and for every date lists the posts of that date in input
    order (stability).
  */
  lemma {:induction false} SortIsStable(s: seq<Post>)
    ensures NewestFirst(SortNewestFirst(s))
    ensures multiset(SortNewestFirst(s)) == multiset(s)
    ensures forall t :: DatedAt(SortNewestFirst(s), t) == DatedAt(s, t)
    decreases |s|
  {
    if s != [] {
      var init, x := s[..|s| - 1], s[|s| - 1];
      assert s == init + [x];
      SortIsStable(init);
      SortStepSorts(init, x);
      SortStepKeepsDateOrder(init, x);
    }
  }

  /** Sorting one more post inserts it into the sorted shorter sequence. */
  lemma SortSnoc(init: seq<Post>, x: Post)
    ensures SortNewestFirst(init + [x]) == Insert(x, SortNewestFirst(init))
  {
    var s := init + [x];
    assert s[..|s| - 1] == init && s[|s| - 1] == x;
  }

  /** Inserting the last post into the sorted prefix keeps it newest first and a permutation of the input. */
  lemma SortStepSorts(init: seq<Post>, x: Post)
    requires NewestFirst(SortNewestFirst(init))
    requires multiset(SortNewestFirst(init)) == multiset(init)
    ensures NewestFirst(SortNewestFirst(init + [x]))
    ensures multiset(SortNewestFirst(init + [x])) == multiset(init + [x])
  {
    SortSnoc(init, x);
    InsertNewestFirst(x, SortNewestFirst(init));
    InsertMultiset(x, SortNewestFirst(init));
  }

  /** The posts of a single post's date: that post, or none. */
  lemma DatedAtSingle(x: Post, t: Timestamp)
    ensures DatedAt([x], t) == if DateOf(x) == t then [x] else []
  {
    assert [x][1..] == [];
  }

  /** Inserting the last post into the sorted prefix keeps the input order of the posts of date `t`. */
  lemma SortStepAt(init: seq<Post>, x: Post, t: Timestamp)
    requires NewestFirst(SortNewestFirst(init))
    requires DatedAt(SortNewestFirst(init), t) == DatedAt(init, t)
    ensures DatedAt(SortNewestFirst(init + [x]), t) == DatedAt(init + [x], t)
  {
    SortSnoc(init, x);
    InsertDatedAt(x, SortNewestFirst(init), t);
    DatedAtAppend(init, [x], t);
    DatedAtSingle(x, t);
  }

  /** Inserting the last post into the sorted prefix keeps, for every date, the input order of that date's posts. */
  lemma SortStepKeepsDateOrder(init: seq<Post>, x: Post)
    requires NewestFirst(SortNewestFirst(init))
    requires forall t :: DatedAt(SortNewestFirst(init), t) == DatedAt(init, t)
    ensures forall t :: DatedAt(SortNewestFirst(init + [x]), t) == DatedAt(init + [x], t)
  {
    forall t
      ensures DatedAt(SortNewestFirst(init + [x]), t) == DatedAt(init + [x], t)
    {
      SortStepAt(init, x, t);
    }
  }

  /** A newest-first sequence that holds a post of date `t` starts with a post no earlier than `t`. */
  lemma FirstIsNewest(s: seq<Post>, t: Timestamp)
    requires NewestFirst(s) && DatedAt(s, t) != []
    ensures s != [] && !Earlier(DateOf(s[0]), t)
  {
    var r := DatedAt(s, t);
    DatedAtSelects(s, t);
    assert r[0] in s && DateOf(r[0]) == t;
    NewestComesFirst(s, r[0]);
  }

  /** Two newest-first sequences with the same posts per date start with the same post. */
  lemma SameFirst(s: seq<Post>, u: seq<Post>)
    requires NewestFirst(s) && NewestFirst(u) && s != [] && u != []
    requires DatedAt(s, DateOf(s[0])) == DatedAt(u, DateOf(s[0]))
    requires DatedAt(s, DateOf(u[0])) == DatedAt(u, DateOf(u[0]))
    ensures s[0] == u[0]
  {
    var d, e := DateOf(s[0]), DateOf(u[0]);
    FirstIsNewest(s, e);
    FirstIsNewest(u, d);
    EarlierIsStrictTotalOrder(d, e, d);
    assert DatedAt(s, d)[0] == s[0];
  }

  /**
    There is only one stable newest-first order: two newest-first
    sequences that list the posts of every date identically are equal.
  */
  lemma {:induction false} StableOrderIsUnique(s: seq<Post>, u: seq<Post>)
    requires NewestFirst(s) && NewestFirst(u)
    requires forall t :: DatedAt(s, t) == DatedAt(u, t)
    ensures s == u
    decreases |s|
  {
    assert s != [] ==> DatedAt(s, DateOf(s[0])) != [];
    assert u != [] ==> DatedAt(u, DateOf(u[0])) != [];
    if s != [] && u != [] {
      SameFirst(s, u);
      forall t
        ensures DatedAt(s[1..], t) == DatedAt(u[1..], t)
      {
        var h := if DateOf(s[0]) == t then [s[0]] else [];
        assert DatedAt(s, t) == h + DatedAt(s[1..], t);
        assert DatedAt(u, t) == h + DatedAt(u[1..], t);
        assert DatedAt(s, t) == DatedAt(u, t);
        assert DatedAt(s[1..], t) == DatedAt(s, t)[|h|..];
        assert DatedAt(u[1..], t) == DatedAt(u, t)[|h|..];
      }
      NewestFirstTail(s);
      NewestFirstTail(u);
      StableOrderIsUnique(s[1..], u[1..]);
      assert s == [s[0]] + s[1..] && u == [u[0]] + u[1..];
    }
  }

  /** Any newest-first reordering that keeps the order within each date is `SortNewestFirst`. */
  lemma StableSortCharacterised(s: seq<Post>, u: seq<Post>)
    requires NewestFirst(u)
    requires forall t :: DatedAt(u, t) == DatedAt(s, t)
    ensures u == SortNewestFirst(s)
  {
    SortIsStable(s);
    StableOrderIsUnique(u, SortNewestFirst(s));
  }

  /** A post dated 2024-06-01 sorts before one dated 2024-01-01. */
  lemma TwoPostsExample(a: Post, b: Post)
    requires DateOf(a) == DateTime(2024, 1, 1, 0, 0) && DateOf(b) == DateTime(2024, 6, 1, 0, 0)
    ensures SortNewestFirst([a, b]) == [b, a]
  {
    assert [a, b][..1] == [a] && [a][..0] == [];
    assert SortNewestFirst([a]) == [a];
    assert Earlier(DateOf(a), DateOf(b));
  }

  // ---------------------------------------------------------------------
  // The in-place sort

  lemma SwapIntoPlace(sorted: seq<Post>, x: Post, j: nat)
    requires 0 < j <= |sorted|
    ensures (sorted[..j] + [x] + sorted[j..])[j - 1 := x][j := sorted[j - 1]]
         == sorted[..j - 1] + [x] + sorted[j - 1..]
  {
    assert sorted[j - 1..] == [sorted[j - 1]] + sorted[j..];
    assert sorted[..j] == sorted[..j - 1] + [sorted[j - 1]];
  }

  /** Moves `a[i]` left into place among the newest-first `a[..i]`, one adjacent swap at a time. */
  method InsertIntoPlace(a: array<Post>, i: nat)
    requires i < a.Length && NewestFirst(a[..i])
    modifies a
    ensures a[..i + 1] == Insert(old(a[i]), old(a[..i]))
    ensures a[i + 1..] == old(a[i + 1..])
  {
    ghost var sorted := a[..i];
    var x := a[i];
    var j := i;
    assert a[..i + 1] == sorted[..j] + [x] + sorted[j..];
    while j > 0 && Earlier(DateOf(a[j - 1]), DateOf(x))
      invariant 0 <= j <= i
      invariant a[..i + 1] == sorted[..j] + [x] + sorted[j..]
      invariant a[i + 1..] == old(a[i + 1..])
      invariant j < i ==> Earlier(DateOf(sorted[j]), DateOf(x))
    {
      ghost var before := a[..i + 1];
      assert before[j - 1] == sorted[j - 1] && before[j] == x;
      a[j - 1], a[j] := x, a[j - 1];
      assert a[..i + 1] == before[j - 1 := x][j := sorted[j - 1]];
      SwapIntoPlace(sorted, x, j);
      j := j - 1;
    }
    assert j > 0 ==> a[..i + 1][j - 1] == sorted[j - 1];
    InsertAt(x, sorted, j);
  }

  /** Sorts the posts in place, newest first, stably (Rust's `sort_by` is a stable sort). */
  method SortPosts(a: array<Post>)
    modifies a
    ensures a[..] == SortNewestFirst(old(a[..]))
  {
    ghost var input := a[..];
    var i := 0;
    while i < a.Length
      invariant 0 <= i <= a.Length
      invariant a[..i] == SortNewestFirst(input[..i])
      invariant a[i..] == input[i..]
    {
      SortIsStable(input[..i]);
      assert a[i] == input[i] by {
        assert a[i..][0] == input[i..][0];
      }
      InsertIntoPlace(a, i);
      assert input[..i + 1] == input[..i] + [input[i]];
      SortSnoc(input[..i], input[i]);
      i := i + 1;
    }
    assert input[..a.Length] == input;
  }
}
