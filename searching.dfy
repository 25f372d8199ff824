/**
 * The A* search skeleton: the cost grids, search nodes with their g-value
 * rule, the f-value, the open-list scan and the engine that pops from its
 * open list.
 */
module Searching {
  import opened Wrappers
  import opened ExtendedInt

  /** A cell coordinate `(x, y)`. */
  type Coordinate = (int, int)

  /**
   * What the engine reads from the grid it is given: its dimensions, the
   * start location and the end coordinate.
   */
  datatype Grid = Grid(width: int, height: int, start: Coordinate, end: Coordinate)

  /** The Python exceptions that `list.pop(index)` can raise. */
  datatype PyError = TypeError | OverflowError | IndexError

  /**
   * CPython converts a `list.pop` argument to a 64-bit signed `Py_ssize_t`
   * before it looks at the list; an int outside that range cannot be converted.
   */
  predicate FitsSsize(index: int)
  {
    -0x8000_0000_0000_0000 <= index < 0x8000_0000_0000_0000
  }

  /** CPython refuses to grow a list to `PY_SSIZE_T_MAX` elements or more. */
  const MaxListLength: nat := 0x7FFF_FFFF_FFFF_FFFF

  // ---------------------------------------------------------------------------
  // Grid initialisation
  // ---------------------------------------------------------------------------

  /** Number of values `range(n)` yields: none when `n` is zero or negative. */
  function RangeLength(n: int): nat
  {
    if n < 0 then 0 else n
  }

  /** `row` has one entry per column, each equal to `fill`. */
  ghost predicate FilledRow<T>(row: seq<T>, width: int, fill: T)
  {
    |row| == RangeLength(width) && forall x :: 0 <= x < |row| ==> row[x] == fill
  }

  /** `rows` is a `height` x `width` grid whose every entry is `fill`. */
  ghost predicate Filled<T>(rows: seq<seq<T>>, width: int, height: int, fill: T)
  {
    |rows| == RangeLength(height) && forall y :: 0 <= y < |rows| ==> FilledRow(rows[y], width, fill)
  }

  /** Two grids of the same dimensions and fill value are the same grid. */
  lemma {:induction false} FilledUnique<T>(a: seq<seq<T>>, b: seq<seq<T>>, width: int, height: int, fill: T)
    requires Filled(a, width, height, fill) && Filled(b, width, height, fill)
    ensures a == b
  {
    forall y | 0 <= y < |a|
      ensures a[y] == b[y]
    {
      assert FilledRow(a[y], width, fill) && FilledRow(b[y], width, fill);
    }
  }

  /** Builds the grid of "not closed" flags, row by row. */
  method InitializeClosedList(width: int, height: int) returns (closedList: seq<seq<bool>>)
    ensures Filled(closedList, width, height, false)
  {
    closedList := [];
    for y := 0 to RangeLength(height)
      invariant |closedList| == y
      invariant forall j :: 0 <= j < y ==> FilledRow(closedList[j], width, false)
    {
      closedList := closedList + [[]];
      for x := 0 to RangeLength(width)
        invariant |closedList| == y + 1
        invariant |closedList[y]| == x
        invariant forall i :: 0 <= i < x ==> closedList[y][i] == false
        invariant forall j :: 0 <= j < y ==> FilledRow(closedList[j], width, false)
      {
        closedList := closedList[y := closedList[y] + [false]];
      }
    }
  }

  /** Builds the grid of g-values, every one of them infinite, row by row. */
  method InitializeGValues(width: int, height: int) returns (gValues: seq<seq<ExtInt>>)
    ensures Filled(gValues, width, height, PosInf)
  {
    gValues := [];
    for y := 0 to RangeLength(height)
      invariant |gValues| == y
      invariant forall j :: 0 <= j < y ==> FilledRow(gValues[j], width, PosInf)
    {
      gValues := gValues + [[]];
      for x := 0 to RangeLength(width)
        invariant |gValues| == y + 1
        invariant |gValues[y]| == x
        invariant forall i :: 0 <= i < x ==> gValues[y][i] == PosInf
        invariant forall j :: 0 <= j < y ==> FilledRow(gValues[j], width, PosInf)
      {
        gValues := gValues[y := gValues[y] + [PosInf]];
      }
    }
  }

  // ---------------------------------------------------------------------------
  // Search nodes
  // ---------------------------------------------------------------------------

  /** A location, the node it was reached from (if any) and its g-value. */
  datatype SearchNode = SearchNode(location: Coordinate, parent: Option<SearchNode>, gValue: int)

  /** The chain of parents of `node`, nearest first. */
  function Ancestors(node: SearchNode): seq<SearchNode>
  {
    match node.parent
    case None => []
    case Some(p) => [p] + Ancestors(p)
  }

  /** Number of parent links from `node` back to its root. */
  function ChainLength(node: SearchNode): nat
  {
    |Ancestors(node)|
  }

  /** Every node of the chain obeys the g-value rule: 0 at the root, parent's plus 1 elsewhere. */
  predicate ChainConsistent(node: SearchNode)
  {
    match node.parent
    case None => node.gValue == 0
    case Some(p) => node.gValue == p.gValue + 1 && ChainConsistent(p)
  }

  /** In a consistent chain the g-value is the number of parent links. */
  lemma {:induction false} GValueIsChainLength(node: SearchNode)
    ensures ChainConsistent(node) ==> node.gValue == ChainLength(node)
  {
    match node.parent
    case None =>
    case Some(p) => GValueIsChainLength(p);
  }

  /**
   * Along a consistent chain the g-value drops by exactly one per link, so no
   * g-value on the chain is negative, the chain cannot revisit a node, and it
   * ends at a root (a node without parent) of g-value 0.
   */
  lemma {:induction false} AncestorGValues(node: SearchNode)
    requires ChainConsistent(node)
    ensures node.gValue == |Ancestors(node)|
    ensures forall i :: 0 <= i < |Ancestors(node)| ==> Ancestors(node)[i].gValue == node.gValue - (i + 1) >= 0
    ensures Ancestors(node) != [] ==>
      var root := Ancestors(node)[|Ancestors(node)| - 1];
      root.parent.None? && root.gValue == 0
  {
    match node.parent
    case None =>
    case Some(p) =>
      AncestorGValues(p);
      assert Ancestors(node) == [p] + Ancestors(p);
  }

  /** Creates a node: a root has g-value 0, any other node its parent's plus 1. */
  function NewSearchNode(location: Coordinate, parent: Option<SearchNode>): (node: SearchNode)
    ensures node.location == location && node.parent == parent
    ensures ChainConsistent(node) <==> (parent.None? || ChainConsistent(parent.value))
    ensures ChainConsistent(node) ==> node.gValue == ChainLength(node)
  {
    var node := SearchNode(location, parent, if parent.Some? then parent.value.gValue + 1 else 0);
    GValueIsChainLength(node);
    node
  }

  // ---------------------------------------------------------------------------
  // f-value
  // ---------------------------------------------------------------------------

  function Abs(n: int): nat
  {
    if n < 0 then -n else n
  }

  /** g-value plus the Manhattan distance from the node's location to `end`. */
  function CalculateFValue(node: SearchNode, end: Coordinate): (f: int)
    ensures f >= node.gValue
    ensures f == node.gValue <==> node.location == end
  {
    var (x, y) := node.location;
    var (endX, endY) := end;
    node.gValue + (Abs(x - endX) + Abs(y - endY))
  }

  /** A node built by the g-value rule has f >= g >= 0 and f at least its chain length. */
  lemma FValueBounds(node: SearchNode, end: Coordinate)
    requires ChainConsistent(node)
    ensures CalculateFValue(node, end) >= node.gValue >= 0
    ensures CalculateFValue(node, end) >= ChainLength(node)
  {
    GValueIsChainLength(node);
  }

  // ---------------------------------------------------------------------------
  // The open list
  // ---------------------------------------------------------------------------

  /**
   * `k` indexes a node of least f-value in `nodes`, and every node before it has
   * a strictly greater f-value: among equal f-values the earliest index wins.
   */
  ghost predicate IsFirstLowest(nodes: seq<SearchNode>, end: Coordinate, k: int)
  {
    0 <= k < |nodes| &&
    (forall j :: 0 <= j < |nodes| ==> CalculateFValue(nodes[k], end) <= CalculateFValue(nodes[j], end)) &&
    (forall j :: 0 <= j < k ==> CalculateFValue(nodes[k], end) < CalculateFValue(nodes[j], end))
  }

  /** The tie-break makes the choice unique, so the scan is deterministic. */
  lemma FirstLowestUnique(nodes: seq<SearchNode>, end: Coordinate, k1: int, k2: int)
    requires IsFirstLowest(nodes, end, k1) && IsFirstLowest(nodes, end, k2)
    ensures k1 == k2
  {
    assert CalculateFValue(nodes[k1], end) == CalculateFValue(nodes[k2], end);
  }

  /** Python's `list.pop(index)` resolves a negative index against the end of the list. */
  function NormaliseIndex(index: int, length: nat): int
  {
    if index < 0 then index + length else index
  }

  /** `s` without its element at `k`. */
  function RemoveAt<T>(s: seq<T>, k: nat): seq<T>
    requires k < |s|
  {
    s[..k] + s[k + 1..]
  }

  /**
   * Removing one element shortens the list by one, keeps the others in their
   * relative order and adds nothing.
   */
  lemma RemoveAtProperties<T>(s: seq<T>, k: nat)
    requires k < |s|
    ensures |RemoveAt(s, k)| == |s| - 1
    ensures forall j :: 0 <= j < k ==> RemoveAt(s, k)[j] == s[j]
    ensures forall j :: k <= j < |s| - 1 ==> RemoveAt(s, k)[j] == s[j + 1]
    ensures multiset(RemoveAt(s, k)) + multiset{s[k]} == multiset(s)
  {
    assert s == s[..k] + [s[k]] + s[k + 1..];
  }

  /**
   * The index the intended scan picks, computed the way the scan runs: the
   * choice over all but the last node, replaced by the last node only when its
   * f-value is strictly lower.
   */
  ghost function FirstLowestIndex(nodes: seq<SearchNode>, end: Coordinate): (k: int)
    requires nodes != []
    ensures IsFirstLowest(nodes, end, k)
    decreases |nodes|
  {
    if |nodes| == 1 then 0
    else
      var k := FirstLowestIndex(nodes[..|nodes| - 1], end);
      if CalculateFValue(nodes[|nodes| - 1], end) < CalculateFValue(nodes[k], end) then |nodes| - 1 else k
  }

  /**
   * The order in which repeatedly popping the first node of least f-value
   * removes every node of `nodes`.
   */
  ghost function Drained(nodes: seq<SearchNode>, end: Coordinate): seq<SearchNode>
    decreases |nodes|
  {
    if nodes == [] then []
    else
      var k := FirstLowestIndex(nodes, end);
      [nodes[k]] + Drained(RemoveAt(nodes, k), end)
  }

  /** Draining the open list expands every node exactly once. */
  lemma {:induction false} DrainedPermutation(nodes: seq<SearchNode>, end: Coordinate)
    ensures multiset(Drained(nodes, end)) == multiset(nodes)
    decreases |nodes|
  {
    if nodes != [] {
      var k := FirstLowestIndex(nodes, end);
      RemoveAtProperties(nodes, k);
      DrainedPermutation(RemoveAt(nodes, k), end);
    }
  }

  /** Draining the open list expands its nodes in order of non-decreasing f-value. */
  lemma {:induction false} DrainedSorted(nodes: seq<SearchNode>, end: Coordinate)
    ensures forall i, j :: 0 <= i < j < |Drained(nodes, end)| ==>
      CalculateFValue(Drained(nodes, end)[i], end) <= CalculateFValue(Drained(nodes, end)[j], end)
    decreases |nodes|
  {
    if nodes != [] {
      var k := FirstLowestIndex(nodes, end);
      var rest := RemoveAt(nodes, k);
      var tail := Drained(rest, end);
      var d := Drained(nodes, end);
      assert d == [nodes[k]] + tail;
      DrainedSorted(rest, end);
      DrainedPermutation(rest, end);
      RemoveAtProperties(nodes, k);
      forall i, j | 0 <= i < j < |d|
        ensures CalculateFValue(d[i], end) <= CalculateFValue(d[j], end)
      {
        assert d[j] == tail[j - 1];
        if i == 0 {
          assert tail[j - 1] in multiset(tail);
          assert d[j] in multiset(nodes);
          var m :| 0 <= m < |nodes| && nodes[m] == d[j];
        } else {
          assert d[i] == tail[i - 1];
        }
      }
    }
  }

  // ---------------------------------------------------------------------------
  // The engine
  // ---------------------------------------------------------------------------

  class AStarSearch {
    const grid: Grid
    var openList: seq<SearchNode>
    var closedList: seq<seq<bool>>

    /** An empty open list and an all-False closed grid of the grid's dimensions. */
    constructor (grid: Grid)
      ensures this.grid == grid
      ensures openList == []
      ensures Filled(closedList, grid.width, grid.height, false)
    {
      this.grid := grid;
      openList := [];
      var closed := InitializeClosedList(grid.width, grid.height);
      closedList := closed;
    }

    /**
     * The scan as written: the running lowest value starts at -infinity and is
     * replaced only when it is greater than a node's f-value, which no integer
     * f-value ever satisfies. The result is None for every open list.
     */
    method FindLowestFValueNodeIndex() returns (index: Option<int>)
      ensures index == None
    {
      var lowestFValue := NegInf;
      index := None;
      for i := 0 to |openList|
        invariant lowestFValue == NegInf && index == None
      {
        var fValue := CalculateFValue(openList[i], grid.end);
        if Greater(lowestFValue, Fin(fValue)) {
          lowestFValue := Fin(fValue);
          index := Some(i);
        }
      }
    }

    /**
     * The scan as intended: seeded with +infinity, it returns the first index of
     * least f-value, and None only for an empty open list.
     */
    method FindLowestFValueNodeIndexCorrected() returns (index: Option<int>)
      ensures index.None? <==> openList == []
      ensures index.Some? ==> IsFirstLowest(openList, grid.end, index.value)
    {
      var lowestFValue := PosInf;
      index := None;
      for i := 0 to |openList|
        invariant index.None? <==> i == 0
        invariant index.None? ==> lowestFValue == PosInf
        invariant index.Some? ==> 0 <= index.value < i && lowestFValue == Fin(CalculateFValue(openList[index.value], grid.end))
        invariant index.Some? ==> forall j :: 0 <= j < i ==>
          CalculateFValue(openList[index.value], grid.end) <= CalculateFValue(openList[j], grid.end)
        invariant index.Some? ==> forall j :: 0 <= j < index.value ==>
          CalculateFValue(openList[index.value], grid.end) < CalculateFValue(openList[j], grid.end)
      {
        var fValue := CalculateFValue(openList[i], grid.end);
        if Greater(lowestFValue, Fin(fValue)) {
          lowestFValue := Fin(fValue);
          index := Some(i);
        }
      }
    }

    /**
     * `open_list.pop(index)`: a missing index raises TypeError, an index outside
     * the 64-bit `Py_ssize_t` range raises OverflowError, and any other index
     * outside `[-len, len)` raises IndexError; each leaves the list as it was.
     * Otherwise exactly that node is removed. The popped node is discarded, so
     * nothing is returned.
     */
    method ExpandLocation(openListIndex: Option<int>) returns (status: Result<(), PyError>)
      modifies this`openList
      ensures status.Success? <==>
        openListIndex.Some? && FitsSsize(openListIndex.value) &&
        -|old(openList)| <= openListIndex.value < |old(openList)|
      ensures status.Failure? ==> openList == old(openList)
      ensures openListIndex.None? ==> status == Failure(TypeError)
      ensures openListIndex.Some? && !FitsSsize(openListIndex.value) ==> status == Failure(OverflowError)
      ensures (openListIndex.Some? && FitsSsize(openListIndex.value) &&
               !(-|old(openList)| <= openListIndex.value < |old(openList)|)) ==> status == Failure(IndexError)
      ensures status.Success? ==>
        var k := NormaliseIndex(openListIndex.value, |old(openList)|);
        0 <= k < |old(openList)| && openList == RemoveAt(old(openList), k)
    {
      if openListIndex.None? {
        return Failure(TypeError);
      }
      if !FitsSsize(openListIndex.value) {
        return Failure(OverflowError);
      }
      var k := NormaliseIndex(openListIndex.value, |openList|);
      if k < 0 || k >= |openList| {
        return Failure(IndexError);
      }
      openList := RemoveAt(openList, k);
      return Success(());
    }

    /**
     * The search as written: it appends a root node and enters the loop, whose
     * first scan yields None, so the first pop raises TypeError.
     */
    method Search() returns (outcome: Result<(), PyError>)
      modifies this`openList
      ensures outcome == Failure(TypeError)
      ensures openList == old(openList) + [NewSearchNode(grid.start, None)]
    {
      var startNode := NewSearchNode(grid.start, None);
      openList := openList + [startNode];
      var raised: Option<PyError> := None;
      while openList != [] && raised.None?
        invariant openList == old(openList) + [startNode]
        invariant raised.Some? ==> raised.value == TypeError
        decreases |openList|, if raised.None? then 1 else 0
      {
        var index := FindLowestFValueNodeIndex();
        var status := ExpandLocation(index);
        match status
        case Failure(e) => raised := Some(e);
        case Success(_) =>
      }
      outcome := match raised
        case None => Success(())
        case Some(e) => Failure(e);
    }

    /**
     * The search with the corrected scan: every iteration pops the first node of
     * least f-value, so the loop ends with an empty open list after expanding
     * the nodes exactly in the order `Drained` gives: each node once, in order
     * of non-decreasing f-value, ties in open-list order.
     */
    method SearchCorrected() returns (outcome: Result<(), PyError>, ghost expanded: seq<SearchNode>)
      requires |openList| < MaxListLength  // so the root still fits
      modifies this`openList
      ensures outcome == Success(()) && openList == []
      ensures expanded == Drained(old(openList) + [NewSearchNode(grid.start, None)], grid.end)
      ensures multiset(expanded) == multiset(old(openList)) + multiset{NewSearchNode(grid.start, None)}
      ensures forall i, j :: 0 <= i < j < |expanded| ==>
        CalculateFValue(expanded[i], grid.end) <= CalculateFValue(expanded[j], grid.end)
    {
      var startNode := NewSearchNode(grid.start, None);
      openList := openList + [startNode];
      ghost var initial := openList;
      expanded := [];
      var raised: Option<PyError> := None;
      while openList != [] && raised.None?
        invariant raised == None
        invariant |openList| <= |initial|
        invariant expanded + Drained(openList, grid.end) == Drained(initial, grid.end)
        decreases |openList|, if raised.None? then 1 else 0
      {
        ghost var before := openList;
        var index := FindLowestFValueNodeIndexCorrected();
        var status := ExpandLocation(index);
        match status
        case Failure(e) => raised := Some(e);
        case Success(_) =>
          ghost var k := index.value;
          FirstLowestUnique(before, grid.end, k, FirstLowestIndex(before, grid.end));
          assert Drained(before, grid.end) == [before[k]] + Drained(openList, grid.end);
          assert (expanded + [before[k]]) + Drained(openList, grid.end)
              == expanded + ([before[k]] + Drained(openList, grid.end));
          expanded := expanded + [before[k]];
      }
      assert expanded == Drained(initial, grid.end);
      DrainedPermutation(initial, grid.end);
      DrainedSorted(initial, grid.end);
      outcome := match raised
        case None => Success(())
        case Some(e) => Failure(e);
    }
  }
}
