/**
 * An n x n sliding-tile board stored as a row-major string of tiles with one
 * blank: validated construction, the four blank moves, equality by tiles and
 * the Manhattan-distance heuristic cached in a field.
 */
module Board {

  datatype Option<T> = None | Some(value: T)

  /** Why `create` rejects a board, one constructor per check, in the order the checks run. */
  datatype BadBoard = NonPositiveSize | WrongLength | MissingBlank | DuplicateTiles

  datatype Result<T> = Ok(value: T) | Err(error: BadBoard)

  /** The blank cell is the space character. */
  const Blank: char := ' '

  // ---------------------------------------------------------------------------
  // Tile strings
  // ---------------------------------------------------------------------------

  /** The set of characters of `s`, as `set(s)` builds it. */
  function Elements(s: seq<char>): (r: set<char>)
    ensures forall c :: c in r <==> c in s
  {
    if s == [] then {} else {s[0]} + Elements(s[1..])
  }

  /** No element occurs twice. */
  predicate Distinct<T(==)>(s: seq<T>)
  {
    forall i, j :: 0 <= i < j < |s| ==> s[i] != s[j]
  }

  /** A non-empty string has no duplicates exactly when its head is not repeated and its tail has none. */
  lemma DistinctCons(s: seq<char>)
    requires s != []
    ensures Distinct(s) <==> s[0] !in s[1..] && Distinct(s[1..])
  {
    var tail := s[1..];
    if s[0] in tail {
      var k :| 0 <= k < |tail| && tail[k] == s[0];
      assert s[0] == s[k + 1];
    }
    if s[0] !in tail && Distinct(tail) {
      forall i, j | 0 <= i < j < |s|
        ensures s[i] != s[j]
      {
        assert s[j] == tail[j - 1];
        if i > 0 {
          assert s[i] == tail[i - 1];
        }
      }
    }
    if Distinct(s) {
      forall i, j | 0 <= i < j < |tail|
        ensures tail[i] != tail[j]
      {
        assert tail[i] == s[i + 1] && tail[j] == s[j + 1];
      }
    }
  }

  /** `len(set(s)) == len(s)` is exactly "no duplicates", the fourth test of `create`. */
  lemma {:induction false} ElementsCardinality(s: seq<char>)
    ensures |Elements(s)| <= |s|
    ensures |Elements(s)| == |s| <==> Distinct(s)
  {
    if s != [] {
      var tail := s[1..];
      ElementsCardinality(tail);
      DistinctCons(s);
      if s[0] in tail {
        assert Elements(s) == Elements(tail);
      } else {
        assert s[0] !in Elements(tail);
        assert |Elements(s)| == |Elements(tail)| + 1;
      }
    }
  }

  /** `str.index`: the first position of `c` in `s`. */
  function IndexOf(s: seq<char>, c: char): (i: nat)
    requires c in s
    ensures i < |s| && s[i] == c
    ensures forall j :: 0 <= j < i ==> s[j] != c
  {
    if s[0] == c then 0 else 1 + IndexOf(s[1..], c)
  }

  /** In a string without duplicates, the index of the character at `i` is `i`. */
  lemma IndexOfDistinct(s: seq<char>, i: int)
    requires Distinct(s) && 0 <= i < |s|
    ensures IndexOf(s, s[i]) == i
  {
  }

  /** The four checks of `create` pass. */
  predicate WellFormed(strRep: seq<char>, n: int)
  {
    n > 0 && |strRep| == n * n && Blank in strRep && Distinct(strRep)
  }

  /**
   * The first check of `create` that fails, or None when the string and size
   * describe a board. The checks run in the order size, length, blank, duplicates.
   */
  function Validate(strRep: seq<char>, n: int): (r: Option<BadBoard>)
    ensures r == None <==> WellFormed(strRep, n)
    ensures r == Some(NonPositiveSize) <==> n <= 0
    ensures r == Some(WrongLength) <==> n > 0 && |strRep| != n * n
    ensures r == Some(MissingBlank) <==> n > 0 && |strRep| == n * n && Blank !in strRep
    ensures r == Some(DuplicateTiles) <==> n > 0 && |strRep| == n * n && Blank in strRep && !Distinct(strRep)
  {
    ElementsCardinality(strRep);
    if n <= 0 then Some(NonPositiveSize)
    else if |strRep| != n * n then Some(WrongLength)
    else if Blank !in strRep then Some(MissingBlank)
    else if |Elements(strRep)| != |strRep| then Some(DuplicateTiles)
    else None
  }

  /**
   * The string expression of `_space_move`: the characters at `a` and `b`
   * exchanged by slicing around the smaller and the larger index.
   */
  function SwapTiles(s: seq<char>, a: int, b: int): (r: seq<char>)
    requires 0 <= a < |s| && 0 <= b < |s| && a != b
    ensures |r| == |s| && r[a] == s[b] && r[b] == s[a]
    ensures forall k :: 0 <= k < |s| && k != a && k != b ==> r[k] == s[k]
  {
    var lo := if a < b then a else b;
    var hi := if a < b then b else a;
    s[..lo] + [s[hi]] + s[lo + 1..hi] + [s[lo]] + s[hi + 1..]
  }

  lemma SplitAround(s: seq<char>, lo: int, hi: int)
    requires 0 <= lo < hi < |s|
    ensures s == s[..lo] + [s[lo]] + s[lo + 1..hi] + [s[hi]] + s[hi + 1..]
  {
  }

  /** Exchanging two single characters around a middle part keeps the multiset. */
  lemma ExchangePermutes(front: seq<char>, x: char, middle: seq<char>, y: char, back: seq<char>)
    ensures multiset(front + [y] + middle + [x] + back) == multiset(front + [x] + middle + [y] + back)
  {
    calc {
      multiset(front + [y] + middle + [x] + back);
      multiset(front) + multiset([y]) + multiset(middle) + multiset([x]) + multiset(back);
      multiset(front) + multiset([x]) + multiset(middle) + multiset([y]) + multiset(back);
      multiset(front + [x] + middle + [y] + back);
    }
  }

  /** Swapping two tiles permutes the string. */
  lemma SwapTilesPermutes(s: seq<char>, a: int, b: int)
    requires 0 <= a < |s| && 0 <= b < |s| && a != b
    ensures multiset(SwapTiles(s, a, b)) == multiset(s)
  {
    var lo := if a < b then a else b;
    var hi := if a < b then b else a;
    var front, x, middle, y, back := s[..lo], s[lo], s[lo + 1..hi], s[hi], s[hi + 1..];
    assert SwapTiles(s, a, b) == front + [y] + middle + [x] + back;
    SplitAround(s, lo, hi);
    ExchangePermutes(front, x, middle, y, back);
  }

  /** Swapping two tiles keeps them distinct. */
  lemma SwapTilesDistinct(s: seq<char>, a: int, b: int)
    requires 0 <= a < |s| && 0 <= b < |s| && a != b && Distinct(s)
    ensures Distinct(SwapTiles(s, a, b))
  {
    var r := SwapTiles(s, a, b);
    forall i, j | 0 <= i < j < |r|
      ensures r[i] != r[j]
    {
      var i' := if i == a then b else if i == b then a else i;
      var j' := if j == a then b else if j == b then a else j;
      assert r[i] == s[i'] && r[j] == s[j'] && i' != j';
      if i' < j' {
        assert s[i'] != s[j'];
      } else {
        assert s[j'] != s[i'];
      }
    }
  }

  // ---------------------------------------------------------------------------
  // Row-major coordinates
  // ---------------------------------------------------------------------------

  /** Python's `divmod(c, n)` for `c >= 0`, `n > 0` agrees with Dafny's `/` and `%`. */
  function Row(c: int, n: int): int requires n > 0 { c / n }
  function Col(c: int, n: int): int requires n > 0 { c % n }

  /** Division is determined by a quotient and an in-range remainder. */
  lemma DivModUnique(c: int, n: int, q: int, r: int)
    requires n > 0 && 0 <= r < n && c == q * n + r
    ensures c / n == q && c % n == r
  {
    var q0, r0 := c / n, c % n;
    assert c == q0 * n + r0;
    assert (q0 - q) * n == r - r0;
    if q0 > q {
      MulAtLeast(q0 - q, n);
    } else if q0 < q {
      MulAtLeast(q - q0, n);
    }
  }

  lemma MulAtLeast(e: int, n: int)
    requires e >= 1 && n > 0
    ensures e * n >= n
  {
  }

  /** A cell is fixed by its row and column. */
  lemma SameCell(c1: int, c2: int, n: int)
    requires n > 0 && c1 / n == c2 / n && c1 % n == c2 % n
    ensures c1 == c2
  {
    assert c1 == (c1 / n) * n + c1 % n;
    assert c2 == (c2 / n) * n + c2 % n;
  }

  /** The rows of an n x n board run from 0 to n - 1. */
  lemma RowBound(c: int, n: int)
    requires n > 0 && 0 <= c < n * n
    ensures 0 <= c / n < n
  {
    var q, r := c / n, c % n;
    assert c == q * n + r;
    if q >= n {
      MulAtLeast(q - n + 1, n);
    }
  }

  /** Blank in the first row iff its index is below n; one row up is n cells back. */
  lemma UpStep(s: int, n: int)
    requires n > 0 && 0 <= s
    ensures s >= n <==> s / n != 0
    ensures s >= n ==> (s - n) / n == s / n - 1 && (s - n) % n == s % n
  {
    var q, r := s / n, s % n;
    DivModUnique(s, n, q, r);
    if s >= n {
      DivModUnique(s - n, n, q - 1, r);
    } else {
      DivModUnique(s, n, 0, s);
    }
  }

  /** Blank in the last row iff its index is at least n*n - n; one row down is n cells on. */
  lemma DownStep(s: int, n: int)
    requires n > 0 && 0 <= s < n * n
    ensures s < n * n - n <==> s / n != n - 1
    ensures s < n * n - n ==> (s + n) / n == s / n + 1 && (s + n) % n == s % n && s + n < n * n
  {
    var q, r := s / n, s % n;
    RowBound(s, n);
    assert s == q * n + r;
    DivModUnique(s + n, n, q + 1, r);
    if q == n - 1 {
      assert s == n * n - n + r;
    } else {
      MulAtLeast(n - 1 - q, n);
      assert (n - 1 - q) * n == n * n - n - q * n;
    }
  }

  /** Outside the first column, one column left is one cell back. */
  lemma LeftStep(s: int, n: int)
    requires n > 0 && 0 <= s
    ensures s % n != 0 ==> (s - 1) / n == s / n && (s - 1) % n == s % n - 1 && s >= 1
  {
    var q, r := s / n, s % n;
    assert s == q * n + r;
    if r != 0 {
      DivModUnique(s - 1, n, q, r - 1);
    }
  }

  /** Outside the last column, one column right is one cell on. */
  lemma RightStep(s: int, n: int)
    requires n > 0 && 0 <= s < n * n
    ensures s % n != n - 1 ==> (s + 1) / n == s / n && (s + 1) % n == s % n + 1 && s + 1 < n * n
  {
    var q, r := s / n, s % n;
    RowBound(s, n);
    assert s == q * n + r;
    if r != n - 1 {
      DivModUnique(s + 1, n, q, r + 1);
      MulAtLeast(n - q, n);
      assert (n - q) * n == n * n - q * n;
    }
  }

  // ---------------------------------------------------------------------------
  // Blank moves
  // ---------------------------------------------------------------------------

  /** The value part of a board: its tiles, its width and the index of the blank. */
  datatype Config = Config(tiles: seq<char>, n: int, spaceInd: int)

  /** The shape every board has: a positive width, n*n tiles, the blank index in range. */
  predicate Placed(c: Config)
  {
    c.n > 0 && |c.tiles| == c.n * c.n && 0 <= c.spaceInd < |c.tiles|
  }

  /** A board as `create` accepts it, with its blank at `spaceInd`. */
  predicate ValidConfig(c: Config)
  {
    Placed(c) && c.tiles[c.spaceInd] == Blank && Distinct(c.tiles)
  }

  /** The blank index of a valid configuration is the first (and only) blank. */
  lemma BlankIndexUnique(c: Config)
    requires ValidConfig(c)
    ensures Blank in c.tiles && c.spaceInd == IndexOf(c.tiles, Blank)
  {
    var j := IndexOf(c.tiles, Blank);
  }

  datatype Direction = Up | Down | Left | Right

  /** The legality test each `space_*` method hands to `_space_move`. */
  function CanMove(c: Config, d: Direction): bool
    requires c.n > 0
  {
    match d
    case Up => c.spaceInd >= c.n
    case Down => c.spaceInd < c.n * c.n - c.n
    case Left => c.spaceInd % c.n != 0
    case Right => c.spaceInd % c.n != c.n - 1
  }

  /** The new blank index each `space_*` method hands to `_space_move`. */
  function Target(c: Config, d: Direction): int
  {
    match d
    case Up => c.spaceInd - c.n
    case Down => c.spaceInd + c.n
    case Left => c.spaceInd - 1
    case Right => c.spaceInd + 1
  }

  /** The blank sits on the edge that a move in direction `d` would cross. */
  predicate AtEdge(c: Config, d: Direction)
    requires c.n > 0
  {
    match d
    case Up => Row(c.spaceInd, c.n) == 0
    case Down => Row(c.spaceInd, c.n) == c.n - 1
    case Left => Col(c.spaceInd, c.n) == 0
    case Right => Col(c.spaceInd, c.n) == c.n - 1
  }

  /** Cell `t` is the neighbour of cell `s` in direction `d`. */
  predicate Neighbour(s: int, t: int, n: int, d: Direction)
    requires n > 0
  {
    match d
    case Up => Row(t, n) == Row(s, n) - 1 && Col(t, n) == Col(s, n)
    case Down => Row(t, n) == Row(s, n) + 1 && Col(t, n) == Col(s, n)
    case Left => Row(t, n) == Row(s, n) && Col(t, n) == Col(s, n) - 1
    case Right => Row(t, n) == Row(s, n) && Col(t, n) == Col(s, n) + 1
  }

  /** The legality test is the edge test, and a legal target is the neighbouring cell. */
  lemma MoveGeometry(c: Config, d: Direction)
    requires Placed(c)
    ensures CanMove(c, d) <==> !AtEdge(c, d)
    ensures CanMove(c, d) ==> 0 <= Target(c, d) < |c.tiles| && Target(c, d) != c.spaceInd
    ensures CanMove(c, d) ==> Neighbour(c.spaceInd, Target(c, d), c.n, d)
  {
    match d
    case Up => UpStep(c.spaceInd, c.n);
    case Down => DownStep(c.spaceInd, c.n);
    case Left => LeftStep(c.spaceInd, c.n);
    case Right => RightStep(c.spaceInd, c.n);
  }

  /**
   * `space_up`, `space_down`, `space_left`, `space_right` on the value part of
   * a board: None when the move is illegal, otherwise the board with the blank
   * swapped into its neighbouring cell.
   */
  function Slide(c: Config, d: Direction): (r: Option<Config>)
    requires Placed(c)
    ensures r == None <==> AtEdge(c, d)
    ensures r.Some? ==> Placed(r.value) && r.value.n == c.n
    ensures r.Some? ==> Neighbour(c.spaceInd, r.value.spaceInd, c.n, d)
    ensures r.Some? ==> r.value.tiles[r.value.spaceInd] == c.tiles[c.spaceInd]
                        && r.value.tiles[c.spaceInd] == c.tiles[r.value.spaceInd]
    ensures r.Some? ==> forall k :: 0 <= k < |c.tiles| && k != c.spaceInd && k != r.value.spaceInd ==>
                                      r.value.tiles[k] == c.tiles[k]
  {
    MoveGeometry(c, d);
    if CanMove(c, d) then
      Some(Config(SwapTiles(c.tiles, c.spaceInd, Target(c, d)), c.n, Target(c, d)))
    else
      None
  }

  /** A move keeps a valid board valid and permutes its tiles. */
  lemma SlideKeepsValid(c: Config, d: Direction)
    requires ValidConfig(c) && Slide(c, d).Some?
    ensures ValidConfig(Slide(c, d).value)
    ensures multiset(Slide(c, d).value.tiles) == multiset(c.tiles)
  {
    MoveGeometry(c, d);
    SwapTilesPermutes(c.tiles, c.spaceInd, Target(c, d));
    SwapTilesDistinct(c.tiles, c.spaceInd, Target(c, d));
  }

  // ---------------------------------------------------------------------------
  // Manhattan distance
  // ---------------------------------------------------------------------------

  function Abs(x: int): nat { if x < 0 then -x else x }

  /** Every non-blank tile of `first` occurs in `goal` (otherwise `goal.tiles.index` raises). */
  predicate Covers(first: seq<char>, goal: seq<char>)
  {
    forall i :: 0 <= i < |first| && first[i] != Blank ==> first[i] in goal
  }

  /** Grid distance of the tile at index `i` of `first` from its index in `goal`; 0 for the blank. */
  function TileDistance(first: seq<char>, goal: seq<char>, n: int, i: int): nat
    requires n > 0 && 0 <= i < |first| && Covers(first, goal)
  {
    if first[i] == Blank then 0
    else
      var j := IndexOf(goal, first[i]);
      Abs(Row(j, n) - Row(i, n)) + Abs(Col(j, n) - Col(i, n))
  }

  /** The sum of the tile distances of the first `k` indices of `first`. */
  function ManhattanUpTo(first: seq<char>, goal: seq<char>, n: int, k: int): nat
    requires n > 0 && 0 <= k <= |first| && Covers(first, goal)
  {
    if k == 0 then 0 else ManhattanUpTo(first, goal, n, k - 1) + TileDistance(first, goal, n, k - 1)
  }

  /** The Manhattan distance of `first` from `goal` on an n-wide grid. */
  function Manhattan(first: seq<char>, goal: seq<char>, n: int): nat
    requires n > 0 && Covers(first, goal)
  {
    ManhattanUpTo(first, goal, n, |first|)
  }

  /** A partial sum is zero exactly when each of its terms is. */
  lemma {:induction false} ManhattanUpToZero(first: seq<char>, goal: seq<char>, n: int, k: int)
    requires n > 0 && 0 <= k <= |first| && Covers(first, goal)
    ensures ManhattanUpTo(first, goal, n, k) == 0 <==>
            forall i :: 0 <= i < k ==> TileDistance(first, goal, n, i) == 0
  {
    if k > 0 {
      ManhattanUpToZero(first, goal, n, k - 1);
    }
  }

  /**
   * The heuristic vanishes exactly at the goal: a board whose tiles are
   * distinct is at Manhattan distance 0 from `goal` iff its tiles are the goal's.
   */
  lemma ManhattanZeroIffGoal(first: seq<char>, goal: seq<char>, n: int)
    requires n > 0 && Distinct(first) && |first| == |goal| && Blank in goal && Covers(first, goal)
    ensures Manhattan(first, goal, n) == 0 <==> first == goal
  {
    ManhattanUpToZero(first, goal, n, |first|);
    if first == goal {
      forall i | 0 <= i < |first|
        ensures TileDistance(first, goal, n, i) == 0
      {
        IndexOfDistinct(first, i);
      }
    }
    if Manhattan(first, goal, n) == 0 {
      forall i | 0 <= i < |first| && first[i] != Blank
        ensures goal[i] == first[i]
      {
        assert TileDistance(first, goal, n, i) == 0;
        SameCell(IndexOf(goal, first[i]), i, n);
      }
      var p := IndexOf(goal, Blank);
      assert first[p] == Blank;
      forall i | 0 <= i < |first|
        ensures goal[i] == first[i]
      {
      }
    }
  }

  // ---------------------------------------------------------------------------
  // Boards
  // ---------------------------------------------------------------------------

  /**
   * One state of the search. Everything but the heuristic is fixed when the
   * board is built; the heuristic is absent until `GenerateHeuristic` stores it.
   */
  class SlideBoard {
    const tiles: seq<char>
    const n: int
    const spaceInd: int
    const depth: int
    const parent: SlideBoard?
    var heuristic: Option<int>

    /** The value part of this board. */
    function AsConfig(): Config
    {
      Config(tiles, n, spaceInd)
    }

    /** The shape of a board built by `Create` and by moves. */
    ghost predicate Valid()
    {
      ValidConfig(AsConfig())
    }

    /** `__init__`: no checks; the heuristic starts absent. */
    constructor (tiles: seq<char>, n: int, spaceInd: int, depth: int, parent: SlideBoard?)
      ensures this.tiles == tiles && this.n == n && this.spaceInd == spaceInd
      ensures this.depth == depth && this.parent == parent && heuristic == None
    {
      this.tiles := tiles;
      this.n := n;
      this.spaceInd := spaceInd;
      this.depth := depth;
      this.parent := parent;
      this.heuristic := None;
    }

    /**
     * `create`: a root board for a validated string, or the first failed check.
     */
    static method Create(strRep: seq<char>, n: int) returns (r: Result<SlideBoard>)
      ensures r.Err? <==> !WellFormed(strRep, n)
      ensures r.Err? ==> Validate(strRep, n) == Some(r.error)
      ensures r.Ok? ==> fresh(r.value) && r.value.Valid()
      ensures r.Ok? ==> r.value.tiles == strRep && r.value.n == n
                        && Blank in strRep && r.value.spaceInd == IndexOf(strRep, Blank)
                        && r.value.depth == 0 && r.value.parent == null && r.value.heuristic == None
    {
      var check := Validate(strRep, n);
      if check.Some? {
        return Err(check.value);
      }
      var b := new SlideBoard(strRep, n, IndexOf(strRep, Blank), 0, null);
      return Ok(b);
    }

    /** `__eq__`: boards are equal when their tiles are, whatever their depth, parent or heuristic. */
    predicate Equals(other: SlideBoard)
      ensures Equals(other) <==> |tiles| == |other.tiles| &&
                                 forall i :: 0 <= i < |tiles| ==> tiles[i] == other.tiles[i]
    {
      tiles == other.tiles
    }

    /** `generate_heuristic`: store the Manhattan distance from `goal`. */
    method GenerateHeuristic(goal: SlideBoard)
      requires n > 0 && Covers(tiles, goal.tiles)
      modifies this
      ensures heuristic == Some(Manhattan(tiles, goal.tiles, n))
    {
      var h := ManhattanDistance(this, goal);
      heuristic := Some(h);
    }

    /**
     * `_space_move`: None when `check` fails, otherwise a child board with the
     * blank and the tile at `newPos` exchanged, one deeper, whose parent is this board.
     */
    method SpaceMove(check: bool, newPos: int) returns (r: SlideBoard?)
      requires check ==> 0 <= spaceInd < |tiles| && 0 <= newPos < |tiles| && newPos != spaceInd
      ensures r == null <==> !check
      ensures r != null ==> fresh(r) && r.tiles == SwapTiles(tiles, spaceInd, newPos)
                            && r.n == n && r.spaceInd == newPos
                            && r.depth == depth + 1 && r.parent == this && r.heuristic == None
    {
      if !check {
        return null;
      }
      r := new SlideBoard(SwapTiles(tiles, spaceInd, newPos), n, newPos, depth + 1, this);
    }

    /** `space_up`: the blank moves one row up unless it is in the first row. */
    method SpaceUp() returns (r: SlideBoard?)
      requires Placed(AsConfig())
      ensures r == null <==> spaceInd < n
      ensures r == null <==> Slide(AsConfig(), Up) == None
      ensures r != null ==> fresh(r) && Slide(AsConfig(), Up) == Some(r.AsConfig())
                            && r.spaceInd == spaceInd - n
                            && r.depth == depth + 1 && r.parent == this && r.heuristic == None
    {
      MoveGeometry(AsConfig(), Up);
      r := SpaceMove(spaceInd >= n, spaceInd - n);
    }

    /** `space_down`: the blank moves one row down unless it is in the last row. */
    method SpaceDown() returns (r: SlideBoard?)
      requires Placed(AsConfig())
      ensures r == null <==> spaceInd >= n * n - n
      ensures r == null <==> Slide(AsConfig(), Down) == None
      ensures r != null ==> fresh(r) && Slide(AsConfig(), Down) == Some(r.AsConfig())
                            && r.spaceInd == spaceInd + n
                            && r.depth == depth + 1 && r.parent == this && r.heuristic == None
    {
      MoveGeometry(AsConfig(), Down);
      r := SpaceMove(spaceInd < n * n - n, spaceInd + n);
    }

    /** `space_left`: the blank moves one column left unless it is in the first column. */
    method SpaceLeft() returns (r: SlideBoard?)
      requires Placed(AsConfig())
      ensures r == null <==> spaceInd % n == 0
      ensures r == null <==> Slide(AsConfig(), Left) == None
      ensures r != null ==> fresh(r) && Slide(AsConfig(), Left) == Some(r.AsConfig())
                            && r.spaceInd == spaceInd - 1
                            && r.depth == depth + 1 && r.parent == this && r.heuristic == None
    {
      MoveGeometry(AsConfig(), Left);
      r := SpaceMove(spaceInd % n != 0, spaceInd - 1);
    }

    /** `space_right`: the blank moves one column right unless it is in the last column. */
    method SpaceRight() returns (r: SlideBoard?)
      requires Placed(AsConfig())
      ensures r == null <==> spaceInd % n == n - 1
      ensures r == null <==> Slide(AsConfig(), Right) == None
      ensures r != null ==> fresh(r) && Slide(AsConfig(), Right) == Some(r.AsConfig())
                            && r.spaceInd == spaceInd + 1
                            && r.depth == depth + 1 && r.parent == this && r.heuristic == None
    {
      MoveGeometry(AsConfig(), Right);
      r := SpaceMove(spaceInd % n != n - 1, spaceInd + 1);
    }
  }

  /**
   * `_manhattan_distance`: sum, over the non-blank tiles of `first`, of the
   * row and column distances to the same tile in `second`.
   */
  method ManhattanDistance(first: SlideBoard, second: SlideBoard) returns (total: nat)
    requires first.n > 0 && Covers(first.tiles, second.tiles)
    ensures total == Manhattan(first.tiles, second.tiles, first.n)
  {
    total := 0;
    for ind := 0 to |first.tiles|
      invariant total == ManhattanUpTo(first.tiles, second.tiles, first.n, ind)
    {
      var tile := first.tiles[ind];
      if tile == Blank {
        continue;
      }
      var y1, x1 := ind / first.n, ind % first.n;
      var j := IndexOf(second.tiles, tile);
      var y2, x2 := j / first.n, j % first.n;
      total := total + Abs(y2 - y1) + Abs(x2 - x1);
    }
  }

  /** `child` was built from the valid board `parent` by one legal blank move. */
  ghost predicate ChildOf(parent: SlideBoard, child: SlideBoard)
  {
    child.parent == parent && child.depth == parent.depth + 1 && parent.Valid()
    && exists d :: Slide(parent.AsConfig(), d) == Some(child.AsConfig())
  }

  /**
   * Following parent links from `b` reaches `root` after `b.depth - root.depth`
   * links, each a legal blank move: the solution path the parent chain spells out.
   */
  ghost predicate Descends(b: SlideBoard, root: SlideBoard)
    decreases if b.depth > root.depth then b.depth - root.depth else 0
  {
    if b.depth <= root.depth then b == root
    else b.parent != null && ChildOf(b.parent, b) && Descends(b.parent, root)
  }
}
