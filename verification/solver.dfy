/**
 * Generic graph search over sliding boards: a fringe (FIFO queue, LIFO stack
 * or stable priority queue) with its statistics, and the one search loop that
 * BFS, DFS, greedy best-first search and A* share.
 */
module Solver {
  import opened Board
  import opened StateSpace

  /**
   * The order a fringe hands boards back in. `LeastCost(f)` scores a board by
   * `f(depth, heuristic)`: the two scores in use are `h` (greedy best-first)
   * and `depth + h` (A*).
   */
  datatype Strategy = Fifo | Lifo | LeastCost(f: (int, int) -> int)

  /** Inserting one element anywhere adds it to the multiset. */
  lemma InsertMultiset<T>(s: seq<T>, p: nat, x: T)
    requires p <= |s|
    ensures multiset(s[..p] + [x] + s[p..]) == multiset(s) + multiset{x}
  {
    assert s == s[..p] + s[p..];
  }

  /**
   * Scores `k` in non-increasing order, and among equal scores the later
   * stamp in `t` further left: the order of a priority queue's list, whose
   * least score sits at the end and, among equals, the earliest arrival last.
   */
  ghost predicate Ordered(k: seq<int>, t: seq<nat>)
  {
    |t| == |k|
    && (forall i, j :: 0 <= i < j < |k| ==> k[i] >= k[j])
    && (forall i, j :: 0 <= i < j < |k| && k[i] == k[j] ==> t[i] > t[j])
  }

  /** Dropping the last entry keeps the order; the last one is least and, among equals, earliest. */
  lemma OrderedPop(k: seq<int>, t: seq<nat>)
    requires Ordered(k, t) && |k| > 0
    ensures Ordered(k[..|k| - 1], t[..|k| - 1])
    ensures forall i :: 0 <= i < |k| - 1 ==> k[i] >= k[|k| - 1]
    ensures forall i :: 0 <= i < |k| - 1 && k[i] == k[|k| - 1] ==> t[i] > t[|k| - 1]
  {
  }

  /** Inserting `key` between the entries above it and those not above it keeps the keys non-increasing. */
  lemma InsertKeepsDescending(k: seq<int>, p: nat, key: int)
    requires p <= |k| && forall i, j :: 0 <= i < j < |k| ==> k[i] >= k[j]
    requires forall i :: 0 <= i < p ==> k[i] > key
    requires forall i :: p <= i < |k| ==> k[i] <= key
    ensures forall i, j :: 0 <= i < j < |k| + 1 ==> (k[..p] + [key] + k[p..])[i] >= (k[..p] + [key] + k[p..])[j]
  {
    var k' := k[..p] + [key] + k[p..];
    assert forall i :: 0 <= i < p ==> k'[i] == k[i];
    assert k'[p] == key;
    assert forall i :: p < i < |k'| ==> k'[i] == k[i - 1];
  }

  /**
   * Inserting `key` with a stamp later than all others, right of every entry
   * above it, keeps the tie-break: among equal keys, later stamps come first.
   */
  lemma InsertKeepsTieBreak(k: seq<int>, t: seq<nat>, p: nat, key: int, stamp: nat)
    requires p <= |k| == |t|
    requires forall i, j :: 0 <= i < j < |k| && k[i] == k[j] ==> t[i] > t[j]
    requires forall i :: 0 <= i < |t| ==> t[i] < stamp
    requires forall i :: 0 <= i < p ==> k[i] > key
    ensures var k', t' := k[..p] + [key] + k[p..], t[..p] + [stamp] + t[p..];
      forall i, j :: 0 <= i < j < |k'| && k'[i] == k'[j] ==> t'[i] > t'[j]
  {
    var k', t' := k[..p] + [key] + k[p..], t[..p] + [stamp] + t[p..];
    assert forall i :: 0 <= i < p ==> k'[i] == k[i] && t'[i] == t[i];
    assert k'[p] == key && t'[p] == stamp;
    assert forall i :: p < i < |k'| ==> k'[i] == k[i - 1] && t'[i] == t[i - 1];
  }

  /**
   * Inserting `key` left of every entry that is not above it, with a stamp
   * later than all others, keeps the order and its tie-break.
   */
  lemma OrderedInsert(k: seq<int>, t: seq<nat>, p: nat, key: int, stamp: nat)
    requires Ordered(k, t) && p <= |k|
    requires forall i :: 0 <= i < |t| ==> t[i] < stamp
    requires forall i :: 0 <= i < p ==> k[i] > key
    requires forall i :: p <= i < |k| ==> k[i] <= key
    ensures Ordered(k[..p] + [key] + k[p..], t[..p] + [stamp] + t[p..])
  {
    InsertKeepsDescending(k, p, key);
    InsertKeepsTieBreak(k, t, p, key, stamp);
  }

  /**
   * A fringe: the boards waiting to be expanded, the number of boards added
   * after the first, and the largest size reached. A LeastCost fringe keeps
   * its boards sorted by non-increasing score, so the least score is at the end.
   */
  class Fringe {
    const strategy: Strategy
    const usesHeuristic: bool
    var items: seq<SlideBoard>
    var numCreated: int
    var maxFringe: nat
    /** The score of each stored board of a LeastCost fringe. */
    ghost var keys: seq<int>
    /** When each stored board was added, counting adds from 0. */
    ghost var stamps: seq<nat>
    /** How many adds there have been. */
    ghost var clock: nat

    /** `__len__`. */
    function Size(): nat
      reads this
    {
      |items|
    }

    /** The score of a stored board under a LeastCost strategy. */
    function Score(b: SlideBoard): int
      requires strategy.LeastCost? && b.heuristic.Some?
      reads b
    {
      strategy.f(b.depth, b.heuristic.value)
    }

    /** Every board of `s` carries its heuristic, and `k` lists their scores. */
    ghost predicate Keyed(s: seq<SlideBoard>, k: seq<int>)
      reads s
    {
      strategy.LeastCost? && |k| == |s|
      && forall i :: 0 <= i < |s| ==> s[i].heuristic.Some? && k[i] == Score(s[i])
    }

    /** The container invariant: one stamp per board, all in the past, and the order of a LeastCost fringe. */
    ghost predicate Stored()
      reads this, items
    {
      |stamps| == |items|
      && (forall i :: 0 <= i < |stamps| ==> stamps[i] < clock)
      && (strategy.LeastCost? ==> Keyed(items, keys) && Ordered(keys, stamps))
    }

    /** The fringe invariant: the container invariant plus the statistics. */
    ghost predicate Valid()
      reads this, items
    {
      Stored() && |items| <= maxFringe <= clock && numCreated == clock - 1
      && usesHeuristic == strategy.LeastCost?
    }

    /** `Queue()`: FIFO, no heuristic. The first add will not count as created. */
    constructor Queue()
      ensures Valid() && strategy == Fifo && !usesHeuristic
      ensures items == [] && numCreated == -1 && maxFringe == 0
    {
      strategy := Fifo;
      usesHeuristic := false;
      items := [];
      numCreated := -1;
      maxFringe := 0;
      keys := [];
      stamps := [];
      clock := 0;
    }

    /** `Stack()`: LIFO, no heuristic. */
    constructor Stack()
      ensures Valid() && strategy == Lifo && !usesHeuristic
      ensures items == [] && numCreated == -1 && maxFringe == 0
    {
      strategy := Lifo;
      usesHeuristic := false;
      items := [];
      numCreated := -1;
      maxFringe := 0;
      keys := [];
      stamps := [];
      clock := 0;
    }

    /** `PriorityQueue(f)`: least score first, heuristic generated on every add. */
    constructor PriorityQueue(f: (int, int) -> int)
      ensures Valid() && strategy == LeastCost(f) && usesHeuristic
      ensures items == [] && numCreated == -1 && maxFringe == 0
    {
      strategy := LeastCost(f);
      usesHeuristic := true;
      items := [];
      numCreated := -1;
      maxFringe := 0;
      keys := [];
      stamps := [];
      clock := 0;
    }

    /**
     * `bisect_left` on the key `-f`: the first position whose key is not below
     * `x`. Every board before it scores more than `-x`, every board from it on
     * at most `-x`.
     */
    method BisectLeft(x: int) returns (lo: nat)
      requires Keyed(items, keys) && Ordered(keys, stamps)
      ensures lo <= |items|
      ensures forall i :: 0 <= i < lo ==> -Score(items[i]) < x
      ensures forall i :: lo <= i < |items| ==> -Score(items[i]) >= x
    {
      lo := 0;
      var hi := |items|;
      while lo < hi
        invariant 0 <= lo <= hi <= |items|
        invariant forall i :: 0 <= i < lo ==> -keys[i] < x
        invariant forall i :: hi <= i < |items| ==> -keys[i] >= x
      {
        var mid := (lo + hi) / 2;
        if -Score(items[mid]) < x {
          lo := mid + 1;
        } else {
          hi := mid;
        }
      }
    }

    /** Inserting a scored board and its score at the same place keeps them paired. */
    lemma KeyedInsert(s: seq<SlideBoard>, k: seq<int>, p: nat, state: SlideBoard)
      requires Keyed(s, k) && p <= |s| && state.heuristic.Some?
      ensures Keyed(s[..p] + [state] + s[p..], k[..p] + [Score(state)] + k[p..])
    {
      var s' := s[..p] + [state] + s[p..];
      var k' := k[..p] + [Score(state)] + k[p..];
      assert forall i :: 0 <= i < p ==> s'[i] == s[i] && k'[i] == k[i];
      assert forall i :: p < i < |s'| ==> s'[i] == s[i - 1] && k'[i] == k[i - 1];
    }

    /** Inserting the current time among stamps from the past leaves only stamps before the next tick. */
    lemma StampsInsert(t: seq<nat>, p: nat, now: nat)
      requires p <= |t| && forall i :: 0 <= i < |t| ==> t[i] < now
      ensures forall i :: 0 <= i < |t| + 1 ==> (t[..p] + [now] + t[p..])[i] < now + 1
    {
    }

    /**
     * `_add`: append the board (queue, stack), or insert it left of every
     * board whose score is not above its own (priority queue). `p` is where it went.
     */
    method Store(state: SlideBoard) returns (ghost p: nat)
      requires Stored()
      requires strategy.LeastCost? ==> state.heuristic.Some?
      modifies this`items, this`keys, this`stamps, this`clock
      ensures Stored() && clock == old(clock) + 1
      ensures p <= |old(items)|
      ensures items == old(items)[..p] + [state] + old(items)[p..]
      ensures stamps == old(stamps)[..p] + [old(clock)] + old(stamps)[p..]
      ensures !strategy.LeastCost? ==> p == |old(items)|
      ensures strategy.LeastCost? ==>
                (forall i :: 0 <= i < p ==> Score(old(items)[i]) > Score(state))
                && (forall i :: p <= i < |old(items)| ==> Score(old(items)[i]) <= Score(state))
    {
      if strategy.LeastCost? {
        var pos := BisectLeft(-Score(state));
        OrderedInsert(keys, stamps, pos, Score(state), clock);
        StampsInsert(stamps, pos, clock);
        KeyedInsert(items, keys, pos, state);
        items := items[..pos] + [state] + items[pos..];
        keys := keys[..pos] + [Score(state)] + keys[pos..];
        stamps := stamps[..pos] + [clock] + stamps[pos..];
        p := pos;
      } else {
        p := |items|;
        StampsInsert(stamps, p, clock);
        assert items[..p] + [state] + items[p..] == items + [state];
        assert stamps[..p] + [clock] + stamps[p..] == stamps + [clock];
        items := items + [state];
        stamps := stamps + [clock];
      }
      clock := clock + 1;
    }

    /**
     * `add`: generate the heuristic when the strategy uses one, store the
     * board, count it and raise the high-water mark.
     */
    method Add(state: SlideBoard, goal: SlideBoard)
      requires Valid()
      requires usesHeuristic ==> state !in items && state.n > 0 && Covers(state.tiles, goal.tiles)
      modifies this, state
      ensures Valid()
      ensures numCreated == old(numCreated) + 1
      ensures maxFringe == if |items| > old(maxFringe) then |items| else old(maxFringe)
      ensures |items| == |old(items)| + 1
      ensures multiset(items) == multiset(old(items)) + multiset{state}
      ensures usesHeuristic ==> state.heuristic == Some(Manhattan(state.tiles, goal.tiles, state.n))
      ensures !usesHeuristic ==> state.heuristic == old(state.heuristic)
      ensures !strategy.LeastCost? ==> items == old(items) + [state]
      ensures clock == old(clock) + 1
      ensures exists p :: 0 <= p <= |old(items)|
                && items == old(items)[..p] + [state] + old(items)[p..]
                && stamps == old(stamps)[..p] + [old(clock)] + old(stamps)[p..]
      ensures strategy.LeastCost? ==>
                exists p :: 0 <= p <= |old(items)|
                  && items == old(items)[..p] + [state] + old(items)[p..]
                  && (forall i :: 0 <= i < p ==> Score(old(items)[i]) > Score(state))
                  && (forall i :: p <= i < |old(items)| ==> Score(old(items)[i]) <= Score(state))
    {
      if usesHeuristic {
        state.GenerateHeuristic(goal);
      }
      ghost var before := items;
      ghost var p := Store(state);
      InsertMultiset(before, p, state);
      numCreated := numCreated + 1;
      if |items| > maxFringe {
        maxFringe := |items|;
      }
      if strategy.LeastCost? {
        assert forall i :: 0 <= i < p ==> Score(before[i]) > Score(state);
        assert forall i :: p <= i < |before| ==> Score(before[i]) <= Score(state);
      }
    }

    /** `Queue._remove`: take the board at the head. */
    method PopFront() returns (r: SlideBoard)
      requires Stored() && items != [] && strategy.Fifo?
      modifies this`items, this`stamps
      ensures Stored()
      ensures r == old(items)[0] && items == old(items)[1..] && stamps == old(stamps)[1..]
    {
      r := items[0];
      items := items[1..];
      stamps := stamps[1..];
    }

    /**
     * `Stack._remove` and `PriorityQueue._remove`: take the board at the end,
     * which in a priority queue has the least score and, among those, arrived first.
     */
    method PopBack() returns (r: SlideBoard)
      requires Stored() && items != []
      modifies this`items, this`keys, this`stamps
      ensures Stored()
      ensures r == old(items)[|old(items)| - 1] && items == old(items)[..|old(items)| - 1]
      ensures stamps == old(stamps)[..|old(items)| - 1]
      ensures strategy.LeastCost? ==>
                r.heuristic.Some?
                && (forall i :: 0 <= i < |items| ==> Score(items[i]) >= Score(r))
                && (forall i :: 0 <= i < |items| && Score(items[i]) == Score(r) ==>
                      stamps[i] > old(stamps)[|old(items)| - 1])
    {
      var last := |items| - 1;
      r := items[last];
      if strategy.LeastCost? {
        OrderedPop(keys, stamps);
        keys := keys[..last];
      }
      items := items[..last];
      stamps := stamps[..last];
    }

    /**
     * `remove`: None on an empty fringe, which stays as it is; otherwise the
     * head of the queue, the top of the stack, or the least-score board that
     * was added first.
     */
    method Remove() returns (r: SlideBoard?)
      requires Valid()
      modifies this
      ensures Valid()
      ensures numCreated == old(numCreated) && maxFringe == old(maxFringe)
      ensures old(items) == [] ==> r == null && items == [] && stamps == old(stamps)
      ensures old(items) != [] ==> r != null && |items| == |old(items)| - 1
                                   && multiset(old(items)) == multiset(items) + multiset{r}
      ensures old(items) != [] && strategy.Fifo? ==> r == old(items)[0] && items == old(items)[1..]
      ensures old(items) != [] && !strategy.Fifo? ==>
                r == old(items)[|old(items)| - 1] && items == old(items)[..|old(items)| - 1]
      ensures old(items) != [] && strategy.LeastCost? ==>
                r.heuristic.Some?
                && (forall i :: 0 <= i < |items| ==> Score(items[i]) >= Score(r))
                && (forall i :: 0 <= i < |items| && Score(items[i]) == Score(r) ==>
                      stamps[i] > old(stamps)[|old(items)| - 1])
    {
      if items == [] {
        return null;
      }
      ghost var before := items;
      if strategy.Fifo? {
        r := PopFront();
        assert before == [r] + items;
      } else {
        r := PopBack();
        assert before == items + [r];
      }
    }
  }

  // ---------------------------------------------------------------------------
  // Graph search
  // ---------------------------------------------------------------------------

  /** What a search returns: (node, depth, num_created, num_expanded, max_fringe). */
  datatype Outcome = Outcome(node: SlideBoard?, depth: int, numCreated: int, numExpanded: int, maxFringe: int)

  /** The fixed tuple a search returns when the fringe runs dry. */
  const Failure: Outcome := Outcome(null, -1, 0, 0, 0)

  /**
   * A board the search built from `start`: valid, as wide as the start, a
   * rearrangement of its tiles, and hanging below it by a parent chain of
   * legal moves as long as their depth difference.
   */
  ghost predicate Spawned(start: SlideBoard, b: SlideBoard)
  {
    b.Valid() && b.n == start.n && multiset(b.tiles) == multiset(start.tiles)
    && b.depth >= start.depth && Descends(b, start)
  }

  /**
   * Every board of `items` was built by the search from `start`, stated one
   * board at a time so that the verifier unfolds it only as far as needed.
   */
  ghost predicate AllSpawned(start: SlideBoard, items: seq<SlideBoard>)
    decreases |items|
  {
    items == [] || (Spawned(start, items[0]) && AllSpawned(start, items[1..]))
  }

  /** `AllSpawned` says that every member was built from the start. */
  lemma {:induction false} AllSpawnedMeans(start: SlideBoard, items: seq<SlideBoard>)
    ensures AllSpawned(start, items) <==> forall b :: b in items ==> Spawned(start, b)
    decreases |items|
  {
    if items != [] {
      AllSpawnedMeans(start, items[1..]);
      assert forall b :: b in items <==> b == items[0] || b in items[1..];
    }
  }

  /** Adding one built board to built boards leaves only built boards. */
  lemma AllSpawnedGrow(start: SlideBoard, before: seq<SlideBoard>, after: seq<SlideBoard>, x: SlideBoard)
    requires AllSpawned(start, before) && Spawned(start, x)
    requires multiset(after) == multiset(before) + multiset{x}
    ensures AllSpawned(start, after)
  {
    AllSpawnedMeans(start, before);
    AllSpawnedMeans(start, after);
    GrowByOne(before, after, x);
  }

  /** The tile strings of the boards in a fringe. */
  ghost function Tiles(items: seq<SlideBoard>): set<seq<char>>
  {
    set b | b in items :: b.tiles
  }

  /** Appending a new string keeps a sequence free of repeats. */
  lemma ExtendOrder(order: seq<seq<char>>, t: seq<char>)
    requires Distinct(order) && t !in order
    ensures Distinct(order + [t])
    ensures (set u | u in order + [t]) == (set u | u in order) + {t}
  {
  }

  /** A legal move from a board the search built gives a board the search built. */
  lemma SpawnedChild(start: SlideBoard, node: SlideBoard, child: SlideBoard, d: Direction)
    requires Spawned(start, node)
    requires child.parent == node && child.depth == node.depth + 1
    requires Slide(node.AsConfig(), d) == Some(child.AsConfig())
    ensures Spawned(start, child)
  {
    ValidChild(node, child, d);
    DescendsChild(start, node, child, d);
  }

  lemma ValidChild(node: SlideBoard, child: SlideBoard, d: Direction)
    requires node.Valid()
    requires Slide(node.AsConfig(), d) == Some(child.AsConfig())
    ensures child.Valid() && child.n == node.n && multiset(child.tiles) == multiset(node.tiles)
  {
    SlideKeepsValid(node.AsConfig(), d);
  }

  /** One more legal move extends a parent chain by one link. */
  lemma DescendsChild(start: SlideBoard, node: SlideBoard, child: SlideBoard, d: Direction)
    requires Descends(node, start) && node.depth >= start.depth && node.Valid()
    requires child.parent == node && child.depth == node.depth + 1
    requires Slide(node.AsConfig(), d) == Some(child.AsConfig())
    ensures Descends(child, start)
  {
  }

  /** Taking one board out of a fringe loses at most its tiles. */
  lemma TilesAfterRemove(before: seq<SlideBoard>, after: seq<SlideBoard>, r: SlideBoard)
    requires multiset(before) == multiset(after) + multiset{r}
    ensures Tiles(before) <= Tiles(after) + {r.tiles}
    ensures forall b :: b in after ==> b in before
  {
    forall b | b in before
      ensures b.tiles in Tiles(after) + {r.tiles}
    {
      assert b in multiset(before);
      if b != r {
        assert b in multiset(after);
      }
    }
    forall b | b in after
      ensures b in before
    {
      assert b in multiset(after);
      assert b in multiset(before);
    }
  }

  /**
   * `_try_add`: a successor that exists and whose tiles were not expanded
   * goes into the fringe; anything else leaves the fringe untouched.
   */
  method TryAdd(fringe: Fringe, expanded: set<seq<char>>, goal: SlideBoard, node: SlideBoard?)
    requires fringe.Valid()
    requires node != null && node.tiles !in expanded && fringe.usesHeuristic ==>
               node !in fringe.items && node.n > 0 && Covers(node.tiles, goal.tiles)
    modifies fringe, node
    ensures fringe.Valid()
    ensures node == null || node.tiles in expanded ==>
              fringe.items == old(fringe.items) && fringe.numCreated == old(fringe.numCreated)
              && fringe.maxFringe == old(fringe.maxFringe)
    ensures node != null && node.tiles in expanded ==> node.heuristic == old(node.heuristic)
    ensures node != null && node.tiles !in expanded ==>
              multiset(fringe.items) == multiset(old(fringe.items)) + multiset{node}
              && |fringe.items| == |old(fringe.items)| + 1
              && fringe.numCreated == old(fringe.numCreated) + 1
              && fringe.maxFringe == (if |fringe.items| > old(fringe.maxFringe) then |fringe.items|
                                      else old(fringe.maxFringe))
    ensures node != null && node.tiles !in expanded && fringe.usesHeuristic ==>
              node.heuristic == Some(Manhattan(node.tiles, goal.tiles, node.n))
    ensures node != null && node.tiles !in expanded && !fringe.usesHeuristic ==>
              node.heuristic == old(node.heuristic)
    ensures node != null && node.tiles !in expanded && !fringe.strategy.LeastCost? ==>
              fringe.items == old(fringe.items) + [node]
    ensures node != null && node.tiles !in expanded ==>
              fringe.clock == old(fringe.clock) + 1
              && exists p :: 0 <= p <= |old(fringe.items)|
                   && fringe.items == old(fringe.items)[..p] + [node] + old(fringe.items)[p..]
                   && fringe.stamps == old(fringe.stamps)[..p] + [old(fringe.clock)] + old(fringe.stamps)[p..]
    ensures node != null && node.tiles !in expanded && fringe.strategy.LeastCost? ==>
              exists p :: 0 <= p <= |old(fringe.items)|
                && fringe.items == old(fringe.items)[..p] + [node] + old(fringe.items)[p..]
                && (forall i :: 0 <= i < p ==> fringe.Score(old(fringe.items)[i]) > fringe.Score(node))
                && (forall i :: p <= i < |old(fringe.items)| ==> fringe.Score(old(fringe.items)[i]) <= fringe.Score(node))
    ensures |fringe.items| - fringe.numCreated == |old(fringe.items)| - old(fringe.numCreated)
  {
    if node != null && node.tiles !in expanded {
      fringe.Add(node, goal);
    }
  }

  /** Growing a sequence by one element keeps the old elements and adds only that one. */
  lemma GrowByOne<T>(before: seq<T>, after: seq<T>, x: T)
    requires multiset(after) == multiset(before) + multiset{x}
    ensures forall b :: b in before ==> b in after
    ensures forall b :: b in after ==> b in before || b == x
    ensures x in after
  {
    assert x in multiset(after);
    forall b | b in before
      ensures b in after
    {
      assert b in multiset(before);
      assert b in multiset(after);
    }
    forall b | b in after
      ensures b in before || b == x
    {
      assert b in multiset(after);
      if b != x {
        assert b in multiset(before);
      }
    }
  }

  /** A fringe that keeps all its boards keeps all their tile strings. */
  lemma TilesGrow(before: seq<SlideBoard>, after: seq<SlideBoard>)
    requires forall b :: b in before ==> b in after
    ensures Tiles(before) <= Tiles(after)
  {
  }

  /**
   * One `_try_add` of the successor `child` of `node` in direction `d`: every
   * fringe board still comes from the start, none is lost, and the successor
   * (when the move is legal) is expanded or waiting in the fringe.
   */
  lemma AfterTryAdd(start: SlideBoard, node: SlideBoard, child: SlideBoard?, d: Direction,
                    expanded: set<seq<char>>, before: seq<SlideBoard>, after: seq<SlideBoard>)
    requires Spawned(start, node) && AllSpawned(start, before)
    requires child == null <==> Slide(node.AsConfig(), d) == None
    requires child != null ==> child.parent == node && child.depth == node.depth + 1
                               && Slide(node.AsConfig(), d) == Some(child.AsConfig())
    requires child == null || child.tiles in expanded ==> after == before
    requires child != null && child.tiles !in expanded ==>
               multiset(after) == multiset(before) + multiset{child}
    ensures AllSpawned(start, after)
    ensures forall b :: b in before ==> b in after
    ensures Tiles(before) <= Tiles(after)
    ensures Slide(node.AsConfig(), d).Some? ==>
              Slide(node.AsConfig(), d).value.tiles in expanded
              || Slide(node.AsConfig(), d).value.tiles in Tiles(after)
  {
    if child != null && child.tiles !in expanded {
      SpawnedChild(start, node, child, d);
      AllSpawnedGrow(start, before, after, child);
      GrowByOne(before, after, child);
      assert child.tiles in Tiles(after);
      TilesGrow(before, after);
    }
  }

  /** A settled successor stays settled as the fringe grows. */
  lemma SettledGrows(c: Config, d: Direction, expanded: set<seq<char>>,
                     before: seq<SlideBoard>, after: seq<SlideBoard>)
    requires Placed(c) && Settled(c, d, expanded, Tiles(before))
    requires Tiles(before) <= Tiles(after)
    ensures Settled(c, d, expanded, Tiles(after))
  {
  }

  /**
   * The expansion step of `_graph_search`: offer the four successors of
   * `node` (up, down, left, right) to the fringe. Afterwards every legal
   * successor is expanded or waiting, and the fringe lost nothing.
   */
  method Expand(fringe: Fringe, expanded: set<seq<char>>, goal: SlideBoard, node: SlideBoard,
                ghost start: SlideBoard)
    requires fringe.Valid() && Spawned(start, node)
    requires AllSpawned(start, fringe.items)
    requires fringe.usesHeuristic ==> Covers(start.tiles, goal.tiles)
    modifies fringe
    ensures fringe.Valid()
    ensures AllSpawned(start, fringe.items)
    ensures Tiles(old(fringe.items)) <= Tiles(fringe.items)
    ensures forall d :: Settled(node.AsConfig(), d, expanded, Tiles(fringe.items))
    ensures fringe.numCreated >= old(fringe.numCreated) && fringe.maxFringe >= old(fringe.maxFringe)
    ensures |fringe.items| - fringe.numCreated == |old(fringe.items)| - old(fringe.numCreated)
  {
    ghost var childUp := Offer(fringe, expanded, goal, node, Up, start);
    ghost var items1 := fringe.items;
    ghost var childDown := Offer(fringe, expanded, goal, node, Down, start);
    ghost var items2 := fringe.items;
    ghost var childLeft := Offer(fringe, expanded, goal, node, Left, start);
    ghost var items3 := fringe.items;
    ghost var childRight := Offer(fringe, expanded, goal, node, Right, start);
    assert Tiles(items1) <= Tiles(fringe.items);
    assert Tiles(items2) <= Tiles(fringe.items);
    forall d
      ensures Settled(node.AsConfig(), d, expanded, Tiles(fringe.items))
    {
      match d
      case Up => SettledGrows(node.AsConfig(), Up, expanded, items1, fringe.items);
      case Down => SettledGrows(node.AsConfig(), Down, expanded, items2, fringe.items);
      case Left => SettledGrows(node.AsConfig(), Left, expanded, items3, fringe.items);
      case Right =>
    }
  }

  /** `node.space_up()`, `space_down()`, `space_left()` or `space_right()`, as `d` says. */
  method Successor(node: SlideBoard, d: Direction) returns (child: SlideBoard?)
    requires Placed(node.AsConfig())
    ensures child == null <==> Slide(node.AsConfig(), d) == None
    ensures child != null ==> fresh(child) && child.parent == node && child.depth == node.depth + 1
                              && Slide(node.AsConfig(), d) == Some(child.AsConfig())
  {
    match d
    case Up => child := node.SpaceUp();
    case Down => child := node.SpaceDown();
    case Left => child := node.SpaceLeft();
    case Right => child := node.SpaceRight();
  }

  /**
   * One line `_try_add(fringe, expanded, goal, node.space_<d>())` of the
   * expansion step: build the successor in direction `d` and offer it.
   */
  method Offer(fringe: Fringe, expanded: set<seq<char>>, goal: SlideBoard, node: SlideBoard,
               d: Direction, ghost start: SlideBoard) returns (ghost child: SlideBoard?)
    requires fringe.Valid() && Spawned(start, node)
    requires AllSpawned(start, fringe.items)
    requires fringe.usesHeuristic ==> Covers(start.tiles, goal.tiles)
    modifies fringe
    ensures fringe.Valid()
    ensures AllSpawned(start, fringe.items)
    ensures Tiles(old(fringe.items)) <= Tiles(fringe.items)
    ensures Settled(node.AsConfig(), d, expanded, Tiles(fringe.items))
    ensures fringe.numCreated >= old(fringe.numCreated) && fringe.maxFringe >= old(fringe.maxFringe)
    ensures |fringe.items| - fringe.numCreated == |old(fringe.items)| - old(fringe.numCreated)
    ensures child == null <==> Slide(node.AsConfig(), d) == None
    ensures child != null ==> child.parent == node && child.depth == node.depth + 1
                              && Slide(node.AsConfig(), d) == Some(child.AsConfig())
    ensures child == null || child.tiles in expanded ==>
              fringe.items == old(fringe.items) && fringe.numCreated == old(fringe.numCreated)
              && fringe.maxFringe == old(fringe.maxFringe)
    ensures child != null && child.tiles !in expanded ==>
              multiset(fringe.items) == multiset(old(fringe.items)) + multiset{child}
              && fringe.numCreated == old(fringe.numCreated) + 1
    ensures forall b :: b in old(fringe.items) ==> b in fringe.items
    ensures |fringe.items| <= |old(fringe.items)| + 1
  {
    var successor := Successor(node, d);
    OfferSuccessor(fringe, expanded, goal, node, successor, d, start);
    child := successor;
  }

  /** `_try_add` of the successor `child` of `node`, with what the search needs to know about it. */
  method OfferSuccessor(fringe: Fringe, expanded: set<seq<char>>, goal: SlideBoard, node: SlideBoard,
                        child: SlideBoard?, ghost d: Direction, ghost start: SlideBoard)
    requires fringe.Valid() && Spawned(start, node)
    requires AllSpawned(start, fringe.items)
    requires fringe.usesHeuristic ==> Covers(start.tiles, goal.tiles)
    requires child == null <==> Slide(node.AsConfig(), d) == None
    requires child != null ==> child !in fringe.items && child.parent == node
                               && child.depth == node.depth + 1
                               && Slide(node.AsConfig(), d) == Some(child.AsConfig())
    modifies fringe, child
    ensures fringe.Valid()
    ensures AllSpawned(start, fringe.items)
    ensures Tiles(old(fringe.items)) <= Tiles(fringe.items)
    ensures Settled(node.AsConfig(), d, expanded, Tiles(fringe.items))
    ensures fringe.numCreated >= old(fringe.numCreated) && fringe.maxFringe >= old(fringe.maxFringe)
    ensures |fringe.items| - fringe.numCreated == |old(fringe.items)| - old(fringe.numCreated)
    ensures child == null || child.tiles in expanded ==>
              fringe.items == old(fringe.items) && fringe.numCreated == old(fringe.numCreated)
              && fringe.maxFringe == old(fringe.maxFringe)
    ensures child != null && child.tiles !in expanded ==>
              multiset(fringe.items) == multiset(old(fringe.items)) + multiset{child}
              && fringe.numCreated == old(fringe.numCreated) + 1
    ensures forall b :: b in old(fringe.items) ==> b in fringe.items
    ensures |fringe.items| <= |old(fringe.items)| + 1
  {
    ghost var before := fringe.items;
    if child != null {
      ValidChild(node, child, d);
      if fringe.usesHeuristic {
        CoversRearrangement(start.tiles, child.tiles, goal.tiles);
      }
    }
    TryAdd(fringe, expanded, goal, child);
    AfterTryAdd(start, node, child, d, expanded, before, fringe.items);
  }

  /** `t` stands for a valid configuration of the start's width holding the start's tiles. */
  ghost predicate Arranged(start: SlideBoard, t: seq<char>)
  {
    ValidConfig(ConfigOf(t, start.n)) && multiset(t) == multiset(start.tiles)
  }

  /**
   * The search loop's invariant over the fringe's boards, the expanded set
   * and the order of expansion: every fringe board comes from the start;
   * every expanded string is a valid rearrangement of the start whose moves
   * all lead to expanded strings or to the fringe; the start is expanded or
   * waiting; the goal has never been expanded; and `order` lists the
   * expanded set without repetition.
   */
  ghost predicate SearchInv(start: SlideBoard, goal: SlideBoard, items: seq<SlideBoard>,
                            expanded: set<seq<char>>, order: seq<seq<char>>)
  {
    AllSpawned(start, items)
    && (forall t {:trigger Arranged(start, t)} :: t in expanded ==> Arranged(start, t))
    && ClosedUnder(expanded, Tiles(items), start.n)
    && (start.tiles in expanded || start.tiles in Tiles(items))
    && goal.tiles !in expanded && expanded <= Words(Elements(start.tiles), |start.tiles|)
    && Distinct(order) && expanded == (set t | t in order) && |order| == |expanded|
  }

  /** A board taken out of a fringe of built boards was built, and so are those left. */
  lemma RemovedSpawned(start: SlideBoard, before: seq<SlideBoard>, after: seq<SlideBoard>, node: SlideBoard)
    requires AllSpawned(start, before) && multiset(before) == multiset(after) + multiset{node}
    ensures Spawned(start, node) && AllSpawned(start, after)
  {
    AllSpawnedMeans(start, before);
    AllSpawnedMeans(start, after);
    TilesAfterRemove(before, after, node);
    assert node in multiset(before);
  }

  /** Before the first removal the fringe holds only the start, and nothing is expanded. */
  lemma StartInv(start: SlideBoard, goal: SlideBoard)
    requires start.Valid()
    ensures SearchInv(start, goal, [start], {}, [])
  {
    assert Tiles([start]) == {start.tiles};
  }

  /** Removing from a one-board fringe yields that board and empties the fringe. */
  lemma OnlyBoard(before: seq<SlideBoard>, after: seq<SlideBoard>, node: SlideBoard)
    requires |before| == 1 && multiset(before) == multiset(after) + multiset{node}
    ensures node == before[0] && after == []
  {
    assert node in multiset(before);
    assert |multiset(after)| == 0;
  }

  /** Skipping a removed board whose tiles were already expanded keeps the invariant. */
  lemma SkipKeepsInv(start: SlideBoard, goal: SlideBoard, before: seq<SlideBoard>, after: seq<SlideBoard>,
                     node: SlideBoard, expanded: set<seq<char>>, order: seq<seq<char>>)
    requires SearchInv(start, goal, before, expanded, order)
    requires multiset(before) == multiset(after) + multiset{node} && node.tiles in expanded
    ensures SearchInv(start, goal, after, expanded, order)
  {
    TilesAfterRemove(before, after, node);
    AllSpawnedMeans(start, before);
    AllSpawnedMeans(start, after);
    ClosedAfterSkip(expanded, Tiles(before), Tiles(after), node.tiles, start.n);
  }

  /**
   * Expanding a removed board that is new and not the goal keeps the
   * invariant, once all its legal successors are expanded or in the fringe.
   * The expanded set grows by one and stays among the start's rearrangements.
   */
  lemma ExpandKeepsInv(start: SlideBoard, goal: SlideBoard, before: seq<SlideBoard>, rest: seq<SlideBoard>,
                       after: seq<SlideBoard>, node: SlideBoard, expanded: set<seq<char>>, order: seq<seq<char>>)
    requires Spawned(start, node) && SearchInv(start, goal, before, expanded, order)
    requires multiset(before) == multiset(rest) + multiset{node}
    requires node.tiles !in expanded && node.tiles != goal.tiles
    requires AllSpawned(start, after)
    requires Tiles(rest) <= Tiles(after)
    requires forall d :: Settled(node.AsConfig(), d, expanded + {node.tiles}, Tiles(after))
    ensures SearchInv(start, goal, after, expanded + {node.tiles}, order + [node.tiles])
    ensures |expanded| < |expanded + {node.tiles}| <= |Words(Elements(start.tiles), |start.tiles|)|
  {
    var e' := expanded + {node.tiles};
    TilesAfterRemove(before, rest, node);
    ExpandedGrows(start, node, expanded);
    ExtendOrder(order, node.tiles);
    ClosedAfterExpand(expanded, e', Tiles(before), Tiles(rest), Tiles(after), node.AsConfig());
  }

  /** The tiles of a board the search built may join the expanded set. */
  lemma ExpandedGrows(start: SlideBoard, node: SlideBoard, expanded: set<seq<char>>)
    requires Spawned(start, node)
    requires forall t {:trigger Arranged(start, t)} :: t in expanded ==> Arranged(start, t)
    requires expanded <= Words(Elements(start.tiles), |start.tiles|)
    ensures forall t {:trigger Arranged(start, t)} :: t in expanded + {node.tiles} ==> Arranged(start, t)
    ensures expanded + {node.tiles} <= Words(Elements(start.tiles), |start.tiles|)
    ensures |expanded + {node.tiles}| <= |Words(Elements(start.tiles), |start.tiles|)|
  {
    ConfigOfValid(node.AsConfig());
    RearrangementInWords(start.tiles, node.tiles);
    SubsetCardinality(expanded + {node.tiles}, Words(Elements(start.tiles), |start.tiles|));
  }

  /**
   * Step 2 of the search loop: add the removed board's tiles to the expanded
   * set, then offer its four successors. A new, non-goal board taken from a
   * fringe that met the invariant leaves a fringe that meets it again, and the
   * expanded set grows by exactly that board's tiles.
   */
  method ExpandNode(fringe: Fringe, expanded: set<seq<char>>, goal: SlideBoard, node: SlideBoard,
                    ghost start: SlideBoard, ghost before: seq<SlideBoard>, ghost order: seq<seq<char>>)
    returns (grown: set<seq<char>>)
    requires fringe.Valid() && SearchInv(start, goal, before, expanded, order)
    requires multiset(before) == multiset(fringe.items) + multiset{node}
    requires node.tiles !in expanded && node.tiles != goal.tiles
    requires fringe.usesHeuristic ==> Covers(start.tiles, goal.tiles)
    modifies fringe
    ensures grown == expanded + {node.tiles}
    ensures fringe.Valid() && SearchInv(start, goal, fringe.items, grown, order + [node.tiles])
    ensures |expanded| < |grown| <= |Words(Elements(start.tiles), |start.tiles|)|
    ensures |fringe.items| - fringe.numCreated == |old(fringe.items)| - old(fringe.numCreated)
    ensures fringe.maxFringe >= old(fringe.maxFringe)
  {
    ghost var rest := fringe.items;
    RemovedSpawned(start, before, rest, node);
    grown := expanded + {node.tiles};
    Expand(fringe, grown, goal, node, start);
    ExpandKeepsInv(start, goal, before, rest, fringe.items, node, expanded, order);
  }

  /** When the fringe runs dry the start's component is fully expanded, so the goal is unreachable. */
  lemma ExhaustedUnreachable(start: SlideBoard, goal: SlideBoard, expanded: set<seq<char>>, order: seq<seq<char>>)
    requires start.Valid() && SearchInv(start, goal, [], expanded, order)
    ensures !Reachable(start.AsConfig(), goal.tiles)
  {
    assert Tiles([]) == {};
    ClosedExcludesUnreachable(expanded, start.AsConfig(), goal.tiles);
  }

  /**
   * `_graph_search`: add the start board (not counted as created), then run
   * the search loop. `order` is the sequence of expanded tile strings.
   *
   * The search succeeds exactly when the goal's tiles can be reached from the
   * start by legal moves; the returned board hangs below the start by a chain
   * of such moves as long as its depth difference from the start, and no tile string is expanded twice.
   * The start's heuristic is generated only when the fringe uses one.
   */
  method GraphSearch(start: SlideBoard, goal: SlideBoard, fringe: Fringe) returns (r: Outcome, ghost order: seq<seq<char>>)
    requires start.Valid() && fringe.Valid() && fringe.items == []
    requires fringe.usesHeuristic ==> Covers(start.tiles, goal.tiles)
    modifies fringe, start
    ensures r.node != null <==> Reachable(start.AsConfig(), goal.tiles)
    ensures r.node != null ==> r.node.tiles == goal.tiles && Spawned(start, r.node) && r.depth == r.node.depth
                               && r.numCreated == fringe.numCreated && r.numExpanded == |order|
                               && r.maxFringe == fringe.maxFringe
    ensures r.node != null ==> r.numExpanded + |fringe.items| <= r.numCreated && 1 <= r.maxFringe
    ensures r.node == null ==> r == Failure
    ensures fringe.Valid()
    ensures Distinct(order) && goal.tiles !in order
    ensures forall t :: t in order ==> Arranged(start, t)
    ensures !fringe.usesHeuristic ==> start.heuristic == old(start.heuristic)
    ensures fringe.usesHeuristic ==> start.heuristic == Some(Manhattan(start.tiles, goal.tiles, start.n))
    ensures start.tiles == goal.tiles ==>
              r == Outcome(start, start.depth, old(fringe.numCreated) + 1, 0,
                           if old(fringe.maxFringe) > 0 then old(fringe.maxFringe) else 1)
  {
    fringe.Add(start, goal);
    r, order := SearchLoop(start, goal, fringe);
  }

  /**
   * The loop of `_graph_search` on a fringe holding only the start:
   * repeatedly remove a board, skip it when its tiles were expanded, return it
   * when it equals the goal, and otherwise expand it. A found board comes
   * with at least as many boards created as expanded plus still waiting.
   * When the start already is the goal, the first removal returns it.
   */
  method SearchLoop(start: SlideBoard, goal: SlideBoard, fringe: Fringe) returns (r: Outcome, ghost order: seq<seq<char>>)
    requires start.Valid() && fringe.Valid() && fringe.items == [start]
    requires fringe.usesHeuristic ==> Covers(start.tiles, goal.tiles)
    modifies fringe
    ensures r.node != null <==> Reachable(start.AsConfig(), goal.tiles)
    ensures r.node != null ==> r.node.tiles == goal.tiles && Spawned(start, r.node) && r.depth == r.node.depth
                               && r.numCreated == fringe.numCreated && r.numExpanded == |order|
                               && r.maxFringe == fringe.maxFringe
    ensures r.node != null ==> r.numExpanded + |fringe.items| <= r.numCreated && 1 <= r.maxFringe
    ensures r.node == null ==> r == Failure
    ensures fringe.Valid()
    ensures Distinct(order) && goal.tiles !in order
    ensures forall t :: t in order ==> Arranged(start, t)
    ensures start.tiles == goal.tiles ==>
              r == Outcome(start, start.depth, old(fringe.numCreated), 0, old(fringe.maxFringe))
  {
    ghost var universe := Words(Elements(start.tiles), |start.tiles|);
    var expanded: set<seq<char>> := {};
    order := [];
    StartInv(start, goal);
    while fringe.Size() > 0
      invariant fringe.Valid() && SearchInv(start, goal, fringe.items, expanded, order)
      invariant |order| + |fringe.items| <= fringe.numCreated + 1 && 1 <= fringe.maxFringe
      invariant start.tiles == goal.tiles ==> fringe.items == [start] && expanded == {}
                                              && fringe.numCreated == old(fringe.numCreated)
                                              && fringe.maxFringe == old(fringe.maxFringe)
      decreases |universe| - |expanded|, |fringe.items|
    {
      ghost var before := fringe.items;
      var node := fringe.Remove();
      if start.tiles == goal.tiles {
        OnlyBoard(before, fringe.items, node);
        assert node.tiles == goal.tiles && expanded == {};
      }
      if node.tiles in expanded {
        SkipKeepsInv(start, goal, before, fringe.items, node, expanded, order);
        continue;
      }
      if node.Equals(goal) {
        RemovedSpawned(start, before, fringe.items, node);
        DescendsReachable(node, start);
        return Outcome(node, node.depth, fringe.numCreated, |expanded|, fringe.maxFringe), order;
      }
      expanded := ExpandNode(fringe, expanded, goal, node, start, before, order);
      order := order + [node.tiles];
    }
    ExhaustedUnreachable(start, goal, expanded, order);
    return Failure, order;
  }

  /**
   * What every search promises: it finds a board exactly when the goal's
   * tiles are reachable from the start; a found board has the goal's tiles,
   * hangs below the start by a chain of legal moves as long as its depth
   * difference from the start, and
   * its depth is reported; otherwise the failure tuple comes back. A start
   * that already is the goal is returned at once, with nothing created or
   * expanded and a fringe that held one board.
   */
  ghost predicate Answers(start: SlideBoard, goal: SlideBoard, r: Outcome)
  {
    (r.node != null <==> Reachable(start.AsConfig(), goal.tiles))
    && (r.node != null ==> r.node.tiles == goal.tiles && Spawned(start, r.node) && r.depth == r.node.depth)
    && (r.node == null ==> r == Failure)
    && (r.node != null ==> 0 <= r.numExpanded <= r.numCreated && 1 <= r.maxFringe <= r.numCreated + 1)
    && (start.tiles == goal.tiles ==> r == Outcome(start, start.depth, 0, 0, 1))
  }

  /** `BFS`: graph search with a FIFO queue. */
  method BFS(start: SlideBoard, goal: SlideBoard) returns (r: Outcome)
    requires start.Valid()
    modifies start
    ensures Answers(start, goal, r)
    ensures start.heuristic == old(start.heuristic)
  {
    var fringe := new Fringe.Queue();
    ghost var order;
    r, order := GraphSearch(start, goal, fringe);
  }

  /** `DFS`: graph search with a LIFO stack. */
  method DFS(start: SlideBoard, goal: SlideBoard) returns (r: Outcome)
    requires start.Valid()
    modifies start
    ensures Answers(start, goal, r)
    ensures start.heuristic == old(start.heuristic)
  {
    var fringe := new Fringe.Stack();
    ghost var order;
    r, order := GraphSearch(start, goal, fringe);
  }

  /**
   * `GBFS`: graph search with a priority queue on the heuristic alone. Every
   * tile of the start must occur in the goal, or the heuristic cannot be computed.
   */
  method GBFS(start: SlideBoard, goal: SlideBoard) returns (r: Outcome)
    requires start.Valid() && Covers(start.tiles, goal.tiles)
    modifies start
    ensures Answers(start, goal, r)
    ensures start.heuristic == Some(Manhattan(start.tiles, goal.tiles, start.n))
  {
    var fringe := new Fringe.PriorityQueue((g, h) => h);
    ghost var order;
    r, order := GraphSearch(start, goal, fringe);
  }

  /** `AStar`: graph search with a priority queue on depth plus heuristic. */
  method AStar(start: SlideBoard, goal: SlideBoard) returns (r: Outcome)
    requires start.Valid() && Covers(start.tiles, goal.tiles)
    modifies start
    ensures Answers(start, goal, r)
    ensures start.heuristic == Some(Manhattan(start.tiles, goal.tiles, start.n))
  {
    var fringe := new Fringe.PriorityQueue((g, h) => g + h);
    ghost var order;
    r, order := GraphSearch(start, goal, fringe);
  }
}
