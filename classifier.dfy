/**
 * Classification of a repository's files by path suffix. The scope walks
 * the directory tree breadth-first with a queue; this module defines what
 * that walk produces, level by level, and proves that it keeps exactly the
 * matching files of the whole tree.
 */
module Classifier {
  import opened Platform

  predicate EndsWith(s: string, suffix: string) {
    |suffix| <= |s| && s[|s| - |suffix|..] == suffix
  }

  /** A path test with a group of suffixes: some suffix of the group ends the path. */
  predicate EndsWithAny(s: string, suffixes: seq<string>) {
    exists x :: x in suffixes && EndsWith(s, x)
  }

  /** The walk keeps an entry when it is not a directory and its path has one of the suffixes. */
  predicate Keeps(e: Entry, suffixes: seq<string>) {
    e.File? && EndsWithAny(e.path, suffixes)
  }

  /** The number of entries in a listing and in all the listings below it. */
  function Size(q: seq<Entry>): nat
    decreases q
  {
    if q == [] then 0
    else
      assert q[0] in q;
      1 + (if q[0].Dir? then Size(q[0].children) else 0) + Size(q[1..])
  }

  /** The next level down: the listings of the directories of `q`, in order. */
  function Children(q: seq<Entry>): seq<Entry> {
    if q == [] then []
    else (if q[0].Dir? then q[0].children else []) + Children(q[1..])
  }

  /** The kept entries of one listing, in order. */
  function Matching(q: seq<Entry>, suffixes: seq<string>): (r: seq<Entry>)
    ensures forall e :: e in r ==> e in q && Keeps(e, suffixes)
  {
    if q == [] then []
    else (if Keeps(q[0], suffixes) then [q[0]] else []) + Matching(q[1..], suffixes)
  }

  /** Every entry of a listing and of all listings below it, each directory before its contents. */
  function Flatten(q: seq<Entry>): seq<Entry>
    decreases q
  {
    if q == [] then []
    else
      assert q[0] in q;
      [q[0]] + (if q[0].Dir? then Flatten(q[0].children) else []) + Flatten(q[1..])
  }

  /**
   * Breadth-first order as a reference: the kept entries of the top level,
   * then those of the level below, and so on.
   */
  function LevelOrder(q: seq<Entry>, suffixes: seq<string>): seq<Entry>
    decreases Size(q)
  {
    if q == [] then []
    else
      SizeSplit(q);
      Matching(q, suffixes) + LevelOrder(Children(q), suffixes)
  }

  /**
   * What a queue-driven walk yields from the queue `q`: take the head; a
   * directory appends its listing to the back, a kept entry is emitted.
   */
  ghost function Walk(q: seq<Entry>, suffixes: seq<string>): seq<Entry>
    decreases Size(q)
  {
    if q == [] then []
    else
      SizeAppend(q[1..], if q[0].Dir? then q[0].children else []);
      if q[0].Dir? then Walk(q[1..] + q[0].children, suffixes)
      else (if Keeps(q[0], suffixes) then [q[0]] else []) + Walk(q[1..], suffixes)
  }

  lemma {:induction false} SizeAppend(a: seq<Entry>, b: seq<Entry>)
    ensures Size(a + b) == Size(a) + Size(b)
    decreases a
  {
    if a == [] {
      assert a + b == b;
    } else {
      assert (a + b)[0] == a[0] && (a + b)[1..] == a[1..] + b;
      SizeAppend(a[1..], b);
    }
  }

  /** Each level down holds one entry fewer per entry of this level. */
  lemma {:induction false} SizeSplit(q: seq<Entry>)
    ensures Size(q) == |q| + Size(Children(q))
    decreases q
  {
    if q != [] {
      SizeSplit(q[1..]);
      SizeAppend(if q[0].Dir? then q[0].children else [], Children(q[1..]));
    }
  }

  lemma {:induction false} MatchingAppend(a: seq<Entry>, b: seq<Entry>, suffixes: seq<string>)
    ensures Matching(a + b, suffixes) == Matching(a, suffixes) + Matching(b, suffixes)
    decreases a
  {
    if a == [] {
      assert a + b == b;
    } else {
      assert (a + b)[0] == a[0] && (a + b)[1..] == a[1..] + b;
      MatchingAppend(a[1..], b, suffixes);
    }
  }

  lemma {:induction false} FlattenAppend(a: seq<Entry>, b: seq<Entry>)
    ensures Flatten(a + b) == Flatten(a) + Flatten(b)
    decreases a
  {
    if a == [] {
      assert a + b == b;
    } else {
      assert (a + b)[0] == a[0] && (a + b)[1..] == a[1..] + b;
      FlattenAppend(a[1..], b);
    }
  }

  /** One step of the walk on a non-empty queue: the head is taken off the front. */
  lemma WalkHead(q: seq<Entry>, suffixes: seq<string>)
    requires q != []
    ensures q[0].Dir? ==> Walk(q, suffixes) == Walk(q[1..] + q[0].children, suffixes)
    ensures !q[0].Dir? ==>
              Walk(q, suffixes) == (if Keeps(q[0], suffixes) then [q[0]] else []) + Walk(q[1..], suffixes)
  {
  }

  /** The next level of a non-empty listing: the head's listing, then that of the rest. */
  lemma ChildrenHead(q: seq<Entry>, suffixes: seq<string>)
    requires q != []
    ensures Children(q) == (if q[0].Dir? then q[0].children else []) + Children(q[1..])
    ensures Matching(q, suffixes) == (if Keeps(q[0], suffixes) then [q[0]] else []) + Matching(q[1..], suffixes)
  {
  }

  /**
   * Walking a queue `q + r` emits the kept entries of `q`, then continues
   * with `r` followed by the next level of `q`.
   */
  lemma {:induction false} WalkFront(q: seq<Entry>, r: seq<Entry>, suffixes: seq<string>)
    ensures Walk(q + r, suffixes) == Matching(q, suffixes) + Walk(r + Children(q), suffixes)
    decreases q
  {
    if q == [] {
      assert q + r == r && r + Children(q) == r;
    } else {
      var e, rest := q[0], q[1..];
      assert (q + r)[0] == e && (q + r)[1..] == rest + r;
      WalkHead(q + r, suffixes);
      ChildrenHead(q, suffixes);
      if e.Dir? {
        WalkFront(rest, r + e.children, suffixes);
        calc {
          Walk(q + r, suffixes);
          Walk((rest + r) + e.children, suffixes);
          { assert (rest + r) + e.children == rest + (r + e.children); }
          Walk(rest + (r + e.children), suffixes);
          Matching(rest, suffixes) + Walk((r + e.children) + Children(rest), suffixes);
          { assert (r + e.children) + Children(rest) == r + Children(q); }
          Matching(rest, suffixes) + Walk(r + Children(q), suffixes);
          { assert [] + Matching(rest, suffixes) == Matching(q, suffixes); }
          Matching(q, suffixes) + Walk(r + Children(q), suffixes);
        }
      } else {
        WalkFront(rest, r, suffixes);
        var head := if Keeps(e, suffixes) then [e] else [];
        calc {
          Walk(q + r, suffixes);
          head + Walk(rest + r, suffixes);
          head + (Matching(rest, suffixes) + Walk(r + Children(rest), suffixes));
          { assert [] + Children(rest) == Children(rest) == Children(q); }
          head + (Matching(rest, suffixes) + Walk(r + Children(q), suffixes));
          (head + Matching(rest, suffixes)) + Walk(r + Children(q), suffixes);
          Matching(q, suffixes) + Walk(r + Children(q), suffixes);
        }
      }
    }
  }

  /** The queue-driven walk yields exactly breadth-first order. */
  lemma {:induction false} WalkIsLevelOrder(q: seq<Entry>, suffixes: seq<string>)
    ensures Walk(q, suffixes) == LevelOrder(q, suffixes)
    decreases Size(q)
  {
    if q != [] {
      WalkFront(q, [], suffixes);
      assert q + [] == q && [] + Children(q) == Children(q);
      SizeSplit(q);
      WalkIsLevelOrder(Children(q), suffixes);
    }
  }

  lemma {:induction false} MatchingCount(q: seq<Entry>, suffixes: seq<string>, x: Entry)
    ensures multiset(Matching(q, suffixes))[x] == if Keeps(x, suffixes) then multiset(q)[x] else 0
    decreases q
  {
    if q != [] {
      assert q == [q[0]] + q[1..];
      MatchingCount(q[1..], suffixes, x);
    }
  }

  /** The whole tree of a non-empty listing: its head, the tree below the head, then the rest. */
  lemma FlattenHead(q: seq<Entry>)
    requires q != []
    ensures Flatten(q) == [q[0]] + Flatten(if q[0].Dir? then q[0].children else []) + Flatten(q[1..])
  {
  }

  /** Regrouping the four parts of a multiset union. */
  lemma MultisetRegroup<X>(a: multiset<X>, b: multiset<X>, c: multiset<X>, d: multiset<X>)
    ensures a + b + (c + d) == (a + c) + (b + d)
  {
  }

  /** `FlattenHead`, counted. */
  lemma FlattenHeadCount(q: seq<Entry>)
    requires q != []
    ensures multiset(Flatten(q))
            == multiset([q[0]]) + multiset(Flatten(if q[0].Dir? then q[0].children else [])) + multiset(Flatten(q[1..]))
  {
    FlattenHead(q);
  }

  /** The whole tree below a non-empty listing, counted: below its head, then below the rest. */
  lemma ChildrenHeadCount(q: seq<Entry>)
    requires q != []
    ensures multiset(Flatten(Children(q)))
            == multiset(Flatten(if q[0].Dir? then q[0].children else [])) + multiset(Flatten(Children(q[1..])))
  {
    ChildrenHead(q, []);
    FlattenAppend(if q[0].Dir? then q[0].children else [], Children(q[1..]));
  }

  /** The whole tree is the top level followed, as a multiset, by the whole tree below it. */
  lemma {:induction false} FlattenSplit(q: seq<Entry>)
    ensures multiset(Flatten(q)) == multiset(q) + multiset(Flatten(Children(q)))
    decreases q
  {
    if q != [] {
      FlattenHeadCount(q);
      ChildrenHeadCount(q);
      FlattenSplit(q[1..]);
      assert q == [q[0]] + q[1..];
      MultisetRegroup(multiset([q[0]]), multiset(Flatten(if q[0].Dir? then q[0].children else [])),
                      multiset(q[1..]), multiset(Flatten(Children(q[1..]))));
    }
  }

  /**
   * Completeness and soundness of the classification: every entry occurs
   * in breadth-first order as often as it occurs in the whole tree when it
   * is kept, and not at all otherwise, whatever its depth.
   */
  lemma {:induction false} LevelOrderCount(q: seq<Entry>, suffixes: seq<string>, x: Entry)
    ensures multiset(LevelOrder(q, suffixes))[x] == if Keeps(x, suffixes) then multiset(Flatten(q))[x] else 0
    decreases Size(q)
  {
    if q != [] {
      SizeSplit(q);
      LevelOrderCount(Children(q), suffixes, x);
      MatchingCount(q, suffixes, x);
      FlattenSplit(q);
    }
  }

  /** An entry is classified exactly when it lies somewhere in the tree and is kept. */
  lemma LevelOrderMembers(q: seq<Entry>, suffixes: seq<string>, x: Entry)
    ensures x in LevelOrder(q, suffixes) <==> x in Flatten(q) && Keeps(x, suffixes)
  {
    LevelOrderCount(q, suffixes, x);
  }
}
