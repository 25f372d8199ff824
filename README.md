# A* search skeleton of the Pathfinding grid editor

This project models the search engine of a small grid pathfinding program (`searching.py`). The engine is an unfinished A* search. It:

- builds a `height` x `width` grid of "closed" flags when it is created;
- defines a builder for a grid of infinite g-values, which the engine does not yet use;
- creates search nodes whose g-value is 0 at the root and the parent's plus one elsewhere;
- computes the f-value `g + |x - end_x| + |y - end_y|`;
- scans its open list for the index of lowest f-value;
- pops that index from the open list, in a loop that runs until the open list is empty.

Modules:

- `Wrappers` (`wrappers.dfy`): `Option` stands for Python's `None`, and `Result` stands for a call that may raise.
- `ExtendedInt` (`extended_int.dfy`): Python's `float('inf')` and `float('-inf')` as the integers extended with two infinities, plus Python's `>` on them.
- `Searching` (`searching.dfy`): the grids, `SearchNode`, the f-value and the `AStarSearch` class. The class has a constant `grid`, a `seq` for `open_list` and a `seq<seq<bool>>` for `closed_list`. Its methods update these fields in place.

The grid object handed to `AStarSearch` is defined outside the modelled file. It is the value `Grid(width, height, start, end)`: its two dimensions, the start location and the end coordinate pair.

Python's `list.pop(index)` is modelled with its own error order:

- `None` raises `TypeError`.
- An index that does not fit a 64-bit signed `Py_ssize_t` raises `OverflowError`, whatever the list's length.
- Otherwise, an empty list raises `IndexError`.
- So does any other index outside `[-len, len)`.
- A negative index counts from the end.

Exceptions become a `Result` failure that `Search` passes on to its caller.

## Model

| member | source | states |
|---|---|---|
| `Searching.InitializeClosedList` | searching.py:4-10 | the result has `height` rows (none when `height <= 0`), each of `width` entries, every entry `False` |
| `Searching.InitializeGValues` | searching.py:13-19 | the result has `height` rows, each of `width` entries, every entry positive infinity |
| `Searching.FilledUnique` | searching.py:4-19 | the dimensions and fill value determine the grid completely, so each initialiser has exactly one possible result |
| `Searching.NewSearchNode` | searching.py:22-29 | the node keeps its location and parent. Its chain obeys the g-value rule exactly when its parent's chain does (or it is a root). Then its g-value is the number of parent links |
| `Searching.GValueIsChainLength` | searching.py:26-29 | in a chain built by the g-value rule, a node's g-value equals the length of its parent chain |
| `Searching.AncestorGValues` | searching.py:26-29 | along such a chain a node's g-value is the number of its ancestors. It falls by exactly one per parent link, so no g-value on the chain is negative. The last ancestor has no parent and g-value 0 |
| `Searching.CalculateFValue` | searching.py:61-66 | f >= g, and f == g exactly when the node's location is the end coordinate |
| `Searching.FValueBounds` | searching.py:61-66 | for a node built by the g-value rule, f >= g >= 0 and f is at least the chain length |
| `Searching.FirstLowestUnique` | searching.py:55-57 | under the strict comparison, ties go to the earliest index. At most one index is a first lowest, so the choice is deterministic |
| `Searching.RemoveAtProperties` | searching.py:69 | popping index k shortens the list by one. Nodes before k keep their place, nodes after k move down by one, and the multiset loses exactly the popped node |
| `Searching.FirstLowestIndex` | searching.py:52-57 | the index the intended scan computes, built up node by node as the loop does. It is the first index of least f-value |
| `Searching.DrainedPermutation` | searching.py:43-45 | repeatedly popping the first lowest node until the list is empty expands every node exactly once (as a multiset) |
| `Searching.DrainedSorted` | searching.py:43-45 | repeatedly popping the first lowest node expands nodes in order of non-decreasing f-value |
| `Searching.AStarSearch.constructor` | searching.py:33-36 | the open list is empty, and the closed list is an all-`False` grid of the grid's width and height |
| `Searching.AStarSearch.FindLowestFValueNodeIndex` | searching.py:48-58 | as written, the scan returns `None` for every open list, empty or not |
| `Searching.AStarSearch.FindLowestFValueNodeIndexCorrected` | searching.py:48-58 | returns `None` exactly when the open list is empty. Otherwise it returns the first index of least f-value |
| `Searching.AStarSearch.ExpandLocation` | searching.py:68-69 | `pop(index)`: `None` raises `TypeError`, an index outside the 64-bit `Py_ssize_t` range raises `OverflowError`, and any other index outside `[-len, len)` raises `IndexError`. Every error leaves the list unchanged. Otherwise the call removes exactly that node and adds nothing. Like `expand_location`, it returns nothing |
| `Searching.AStarSearch.Search` | searching.py:38-45 | appends a root node of g-value 0 at the start location. The first pop then raises `TypeError`, and the open list is left holding the root |
| `Searching.AStarSearch.SearchCorrected` | searching.py:38-45 | for an open list shorter than CPython's list-size cap (`PY_SSIZE_T_MAX` elements, so the root can still be appended), and with the corrected scan, each iteration pops the first lowest node. The loop ends with an empty open list. The expansion sequence is exactly `Drained` of the open list plus the root: every node once (as a multiset), in non-decreasing f-value, with ties in open-list order |

## Findings

| source | as written | input that shows it | evidently intended | confidence | as-written member | corrected member |
|---|---|---|---|---|---|---|
| searching.py:49-57 | `lowest_f_value` starts at `-inf` and is replaced only when `lowest_f_value > f_value`. No integer f-value is below `-inf`, so the index stays `None` | given a grid whose start object exposes `coordinates`, an open list holding just the root node (f-value = Manhattan distance to the end): the result is `None`, not 0 | seed with `+inf`, so the scan returns the first index of least f-value | high; not executed | `Searching.AStarSearch.FindLowestFValueNodeIndex` | `Searching.AStarSearch.FindLowestFValueNodeIndexCorrected` |
| searching.py:43-45 | the loop passes the scan's `None` to `expand_location`, and `open_list.pop(None)` raises `TypeError` | given a grid whose start object exposes `coordinates`: the first iteration, with the open list `[root]` | pop the lowest-f node and continue until the open list is empty | high; not executed | `Searching.AStarSearch.Search` | `Searching.AStarSearch.SearchCorrected` |

## Left out

- `location.py` (the tkinter `Location`, `LocationContainer` and `MyWindow` widgets, mouse bindings, wall painting and window layout) is not part of this model. It is user-interface code with no search logic.
- The grid class is not part of this model. `grid.width`, `grid.height`, `get_start_node_as_object` and `get_end_node_as_pair` are fields of the value `Grid`.
- Searching.AStarSearch.Search: the grid class is not shown, so what searching.py:39 stores depends on it. If `get_start_node_as_object` is a plain method, the line stores the bound method itself, without calling it. The model uses the start coordinate the accessor would return as the root's location. If it is a plain method, the first scan of `[root]` reads `coordinates` from that bound method and raises AttributeError at searching.py:62 before any pop. The model's `TypeError` outcome holds only once that substitution is made.
- Searching.CalculateFValue: `node.location.coordinates` (searching.py:62) names an attribute that `Location` does not define. The model stores the coordinate pair directly in the node. Taken literally, the line raises AttributeError for every node of a non-empty open list, so neither scan, as written or corrected, would get past its first node.
- The goal check, successor generation and closing of cells (searching.py:70-73) exist only as comments. There is no code to model, so the closed list is never updated after construction.
- Python floating point is not modelled. Only the two infinities occur, and they are the `PosInf`/`NegInf` cases of `ExtendedInt.ExtInt`.
- The text of the Python exception messages is not modelled, only the exception class.
- Searching.AStarSearch.SearchCorrected: the ghost out-parameter `expanded` records the popped nodes. The source does not keep such a record.
