/**
 * The space the graph search walks: configurations reachable by blank moves,
 * sets of tile strings closed under moves, and a finite set that holds every
 * rearrangement of a start board (which bounds how much the search can expand).
 */
module StateSpace {
  import opened Board

  /** The configuration a tile string stands for on an n-wide board: the blank at its first index. */
  function ConfigOf(t: seq<char>, n: int): Config
  {
    Config(t, n, if Blank in t then IndexOf(t, Blank) else 0)
  }

  /** A valid configuration is the one its tiles stand for. */
  lemma ConfigOfValid(c: Config)
    requires ValidConfig(c)
    ensures ConfigOf(c.tiles, c.n) == c
  {
    BlankIndexUnique(c);
  }

  /** `target` is reached from `c` by at most `k` legal blank moves. */
  ghost predicate ReachesWithin(c: Config, target: seq<char>, k: nat)
    decreases k
  {
    c.tiles == target
    || (k > 0 && Placed(c)
        && exists d :: Slide(c, d).Some? && ReachesWithin(Slide(c, d).value, target, k - 1))
  }

  /** Some sequence of legal blank moves leads from `c` to the tiles `target`. */
  ghost predicate Reachable(c: Config, target: seq<char>)
  {
    exists k: nat :: ReachesWithin(c, target, k)
  }

  /** Every legal move from a tile string of `s` lands in `s` or in `frontier`. */
  ghost predicate ClosedUnder(s: set<seq<char>>, frontier: set<seq<char>>, n: int)
  {
    forall t, d :: t in s && Placed(ConfigOf(t, n)) && Slide(ConfigOf(t, n), d).Some? ==>
      Slide(ConfigOf(t, n), d).value.tiles in s || Slide(ConfigOf(t, n), d).value.tiles in frontier
  }

  /** A set closed under moves holds everything reachable from its members. */
  lemma {:induction false} ClosedHoldsReachable(s: set<seq<char>>, c: Config, target: seq<char>, k: nat)
    requires ClosedUnder(s, {}, c.n)
    requires ValidConfig(c) && c.tiles in s
    requires ReachesWithin(c, target, k)
    ensures target in s
    decreases k
  {
    if c.tiles != target {
      var d :| Slide(c, d).Some? && ReachesWithin(Slide(c, d).value, target, k - 1);
      ConfigOfValid(c);
      SlideKeepsValid(c, d);
      ClosedHoldsReachable(s, Slide(c, d).value, target, k - 1);
    }
  }

  /** Nothing outside a closed set is reachable from inside it. */
  lemma ClosedExcludesUnreachable(s: set<seq<char>>, c: Config, target: seq<char>)
    requires ClosedUnder(s, {}, c.n)
    requires ValidConfig(c) && c.tiles in s && target !in s
    ensures !Reachable(c, target)
  {
    if Reachable(c, target) {
      var k: nat :| ReachesWithin(c, target, k);
      ClosedHoldsReachable(s, c, target, k);
    }
  }

  /** A path that reaches a configuration can be extended by one more legal move. */
  lemma {:induction false} ReachExtend(c: Config, mid: Config, d: Direction, k: nat)
    requires ValidConfig(c) && ValidConfig(mid) && mid.n == c.n
    requires ReachesWithin(c, mid.tiles, k)
    requires Slide(mid, d).Some?
    ensures ReachesWithin(c, Slide(mid, d).value.tiles, k + 1)
    decreases k
  {
    var target := Slide(mid, d).value.tiles;
    if c.tiles == mid.tiles {
      ConfigOfValid(c);
      ConfigOfValid(mid);
      assert ReachesWithin(Slide(c, d).value, target, k);
    } else {
      var d' :| Slide(c, d').Some? && ReachesWithin(Slide(c, d').value, mid.tiles, k - 1);
      SlideKeepsValid(c, d');
      ReachExtend(Slide(c, d').value, mid, d, k - 1);
    }
  }

  /** A board hanging below `root` by a chain of `k` legal moves is reached from it within `k` moves. */
  lemma {:induction false} DescendsReachesWithin(b: SlideBoard, root: SlideBoard)
    requires root.Valid() && b.n == root.n && b.depth >= root.depth
    requires Descends(b, root)
    ensures ReachesWithin(root.AsConfig(), b.tiles, b.depth - root.depth)
    decreases b.depth - root.depth
  {
    if b.depth > root.depth {
      var p, d := ParentMove(b, root);
      DescendsReachesWithin(p, root);
      ReachStep(root, p, b, d);
    } else {
      assert b == root;
    }
  }

  /** The parent a descendant hangs from, and the move that built it. */
  lemma ParentMove(b: SlideBoard, root: SlideBoard) returns (p: SlideBoard, d: Direction)
    requires b.depth > root.depth && Descends(b, root)
    ensures p.Valid() && p.depth == b.depth - 1 && p.n == b.n && Descends(p, root)
    ensures ValidConfig(p.AsConfig()) && Slide(p.AsConfig(), d).Some? && Slide(p.AsConfig(), d).value.tiles == b.tiles
  {
    p := b.parent;
    d :| Slide(p.AsConfig(), d) == Some(b.AsConfig());
  }

  /** `ReachExtend` for a parent board and the child one move below it. */
  lemma ReachStep(root: SlideBoard, p: SlideBoard, b: SlideBoard, d: Direction)
    requires root.Valid() && p.Valid() && p.n == root.n && p.depth >= root.depth && b.depth == p.depth + 1
    requires ReachesWithin(root.AsConfig(), p.tiles, p.depth - root.depth)
    requires Slide(p.AsConfig(), d).Some? && Slide(p.AsConfig(), d).value.tiles == b.tiles
    ensures ReachesWithin(root.AsConfig(), b.tiles, b.depth - root.depth)
  {
    ReachExtend(root.AsConfig(), p.AsConfig(), d, p.depth - root.depth);
  }

  /** The tiles of a board hanging below `root` are reachable from it: the parent chain is a solution path. */
  lemma DescendsReachable(b: SlideBoard, root: SlideBoard)
    requires root.Valid() && b.n == root.n && b.depth >= root.depth
    requires Descends(b, root)
    ensures Reachable(root.AsConfig(), b.tiles)
  {
    DescendsReachesWithin(b, root);
  }

  /** Moves from a string that is already in the set need no frontier entry of their own. */
  lemma ClosedAfterSkip(e: set<seq<char>>, f0: set<seq<char>>, f1: set<seq<char>>, t: seq<char>, n: int)
    requires ClosedUnder(e, f0, n) && f0 <= f1 + {t} && t in e
    ensures ClosedUnder(e, f1, n)
  {
  }

  /** The move from `c` in direction `d`, when legal, lands in `e` or in `f`. */
  ghost predicate Settled(c: Config, d: Direction, e: set<seq<char>>, f: set<seq<char>>)
    requires Placed(c)
  {
    Slide(c, d).Some? ==> Slide(c, d).value.tiles in e || Slide(c, d).value.tiles in f
  }

  /**
   * Adding the valid configuration `c` to the set `e` keeps it closed, once
   * every move from `c` is settled in the grown set `e'` or the new frontier
   * `f2`, and the old frontier lost nothing but `c`.
   */
  lemma ClosedAfterExpand(e: set<seq<char>>, e': set<seq<char>>, f0: set<seq<char>>, f1: set<seq<char>>,
                          f2: set<seq<char>>, c: Config)
    requires ClosedUnder(e, f0, c.n) && f0 <= f1 + {c.tiles} && f1 <= f2 && e' == e + {c.tiles}
    requires ValidConfig(c) && forall d :: Settled(c, d, e', f2)
    ensures ClosedUnder(e', f2, c.n)
  {
    forall t, d | t in e' && Placed(ConfigOf(t, c.n)) && Slide(ConfigOf(t, c.n), d).Some?
      ensures Slide(ConfigOf(t, c.n), d).value.tiles in e' || Slide(ConfigOf(t, c.n), d).value.tiles in f2
    {
      if t == c.tiles {
        ConfigOfValid(c);
        assert Settled(c, d, e', f2);
      } else {
        assert t in e;
      }
    }
  }

  /** A subset is no larger than its superset. */
  lemma {:induction false} SubsetCardinality<T>(a: set<T>, b: set<T>)
    requires a <= b
    ensures |a| <= |b|
    decreases |a|
  {
    if a != {} {
      var x :| x in a;
      SubsetCardinality(a - {x}, b - {x});
    }
  }

  /** All strings of length `len` over the characters `alpha`. */
  function Words(alpha: set<char>, len: nat): set<seq<char>>
  {
    if len == 0 then {[]}
    else set w, c | w in Words(alpha, len - 1) && c in alpha :: w + [c]
  }

  /** A string over `alpha` is one of the words of its length. */
  lemma {:induction false} WordsContain(alpha: set<char>, w: seq<char>)
    requires forall i :: 0 <= i < |w| ==> w[i] in alpha
    ensures w in Words(alpha, |w|)
    decreases |w|
  {
    if |w| > 0 {
      var front := w[..|w| - 1];
      WordsContain(alpha, front);
      assert w == front + [w[|w| - 1]];
    }
  }

  /** Every rearrangement of `start` is a word of its length over its characters. */
  lemma RearrangementInWords(start: seq<char>, t: seq<char>)
    requires multiset(t) == multiset(start)
    ensures t in Words(Elements(start), |start|)
  {
    assert |t| == |multiset(t)| == |multiset(start)| == |start|;
    forall i | 0 <= i < |t|
      ensures t[i] in Elements(start)
    {
      assert t[i] in multiset(t);
    }
    WordsContain(Elements(start), t);
  }

  /** A rearrangement of a board whose tiles all occur in the goal has the same property. */
  lemma CoversRearrangement(start: seq<char>, t: seq<char>, goal: seq<char>)
    requires multiset(t) == multiset(start) && Covers(start, goal)
    ensures Covers(t, goal)
  {
    forall i | 0 <= i < |t| && t[i] != Blank
      ensures t[i] in goal
    {
      assert t[i] in multiset(start);
      var j :| 0 <= j < |start| && start[j] == t[i];
    }
  }
}
