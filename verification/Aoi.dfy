/**
 The area-of-interest grid: which entities stand in which cell, the 3x3
 visibility rule, and the diff a move returns.

 The world part models what the callers do with that diff: each player's set of
 known entities is touched only through the gained and lost cells. It is proved
 to be, after any run, exactly the set visibility computed from scratch gives.
 */
module Aoi {
  import opened Sequences

  const CELL_SIZE: real := 120.0
  const I32_MIN: int := -0x8000_0000
  const I32_MAX: int := 0x7FFF_FFFF

  type EntityId = nat
  type Cell = (int, int)
  type Grid = map<Cell, set<EntityId>>

  /** A float cast to `i32`: saturating. */
  function Cast(n: int): int {
    if n < I32_MIN then I32_MIN else if n > I32_MAX then I32_MAX else n
  }

  /** The cell a position falls in; the division rounds down on both sides of zero. */
  function CellFor(x: real, z: real): Cell {
    (Cast((x / CELL_SIZE).Floor), Cast((z / CELL_SIZE).Floor))
  }

  function Neighbors(c: Cell): (r: seq<Cell>)
    ensures |r| == 9
  {
    [(c.0 - 1, c.1 - 1), (c.0, c.1 - 1), (c.0 + 1, c.1 - 1),
     (c.0 - 1, c.1), (c.0, c.1), (c.0 + 1, c.1),
     (c.0 - 1, c.1 + 1), (c.0, c.1 + 1), (c.0 + 1, c.1 + 1)]
  }

  function Abs(n: int): nat {
    if n >= 0 then n else -n
  }

  predicate CanSee(observer: Cell, target: Cell) {
    Abs(observer.0 - target.0) <= 1 && Abs(observer.1 - target.1) <= 1
  }

  function Contents(list: seq<Cell>): set<Cell> {
    set c | c in list
  }

  function Nearby(c: Cell): set<Cell> {
    Contents(Neighbors(c))
  }

  /** The nine neighbours are exactly the cells seen, with none listed twice. */
  lemma NeighborsAreTheSeen(c: Cell, d: Cell)
    ensures d in Nearby(c) <==> CanSee(c, d)
    ensures d in Nearby(c) <==> c in Nearby(d)
    ensures forall i, j :: 0 <= i < j < 9 ==> Neighbors(c)[i] != Neighbors(c)[j]
  {
    var n := Neighbors(c);
    if CanSee(c, d) {
      var i := (d.0 - c.0 + 1) + 3 * (d.1 - c.1 + 1);
      assert 0 <= i < 9 && n[i] == d;
    }
    if CanSee(d, c) {
      var i := (c.0 - d.0 + 1) + 3 * (c.1 - d.1 + 1);
      assert 0 <= i < 9 && Neighbors(d)[i] == c;
    }
  }

  /** A position is in its cell: within one cell side past the cell's corner. */
  lemma CellHoldsItsPosition(x: real, z: real)
    requires I32_MIN as real * CELL_SIZE <= x < (I32_MAX as real + 1.0) * CELL_SIZE
    requires I32_MIN as real * CELL_SIZE <= z < (I32_MAX as real + 1.0) * CELL_SIZE
    ensures
      var c := CellFor(x, z);
      && c.0 as real * CELL_SIZE <= x < (c.0 as real + 1.0) * CELL_SIZE
      && c.1 as real * CELL_SIZE <= z < (c.1 as real + 1.0) * CELL_SIZE
  {
  }

  // ------------------------------------------------------------ the grid rules

  function Insert(g: Grid, id: EntityId, c: Cell): Grid {
    g[c := (if c in g then g[c] else {}) + {id}]
  }

  function Remove(g: Grid, id: EntityId, c: Cell): Grid {
    if c !in g then g
    else if g[c] - {id} == {} then g - {c}
    else g[c := g[c] - {id}]
  }

  function Moved(g: Grid, id: EntityId, from: Cell, to: Cell): Grid {
    if from == to then g else Insert(Remove(g, id, from), id, to)
  }

  function EntitiesIn(g: Grid, cells: set<Cell>): set<EntityId> {
    set c, id | c in cells && c in g && id in g[c] :: id
  }

  /** The cells a move brings into view; the ones it takes out of view are `Gained(to, from)`. */
  function Gained(from: Cell, to: Cell): set<Cell> {
    Nearby(to) - Nearby(from)
  }

  /** The grid indexes the positions: no empty cell, and each entity in its one cell. */
  ghost predicate Indexes(g: Grid, at: map<EntityId, Cell>) {
    && (forall c :: c in g ==> g[c] != {})
    && (forall c, id :: c in g && id in g[c] ==> id in at && at[id] == c)
    && (forall id :: id in at ==> at[id] in g && id in g[at[id]])
  }

  lemma InsertIndexes(g: Grid, at: map<EntityId, Cell>, id: EntityId, c: Cell)
    requires Indexes(g, at) && id !in at
    ensures Indexes(Insert(g, id, c), at[id := c])
  {
  }

  lemma RemoveIndexes(g: Grid, at: map<EntityId, Cell>, id: EntityId)
    requires Indexes(g, at) && id in at
    ensures Indexes(Remove(g, id, at[id]), at - {id})
  {
    var g' := Remove(g, id, at[id]);
    forall x | x in at - {id}
      ensures at[x] in g' && x in g'[at[x]]
    {
      if at[x] == at[id] {
        assert x in g[at[id]] - {id};
      }
    }
  }

  lemma MoveIndexes(g: Grid, at: map<EntityId, Cell>, id: EntityId, to: Cell)
    requires Indexes(g, at) && id in at
    ensures Indexes(Moved(g, id, at[id], to), at[id := to])
  {
    if at[id] == to {
      assert at[id := to] == at;
    } else {
      RemoveIndexes(g, at, id);
      InsertIndexes(Remove(g, id, at[id]), at - {id}, id, to);
      assert (at - {id})[id := to] == at[id := to];
    }
  }

  /** Looking an entity up by cells finds it exactly when its own cell is among them. */
  lemma FoundByCell(g: Grid, at: map<EntityId, Cell>, cells: set<Cell>, id: EntityId)
    requires Indexes(g, at)
    ensures id in EntitiesIn(g, cells) <==> id in at && at[id] in cells
  {
  }

  // -------------------------------------------------------- the world around it

  /** Positions, the grid, and for each player the entities it has been told of. */
  datatype World = World(at: map<EntityId, Cell>, grid: Grid, known: map<EntityId, set<EntityId>>)

  /** Every known set is exactly what visibility from scratch would be. */
  ghost predicate Exact(w: World) {
    && Indexes(w.grid, w.at)
    && (forall p :: p in w.known ==> p in w.at && Sees(w, p))
  }

  ghost predicate Sees(w: World, p: EntityId)
    requires p in w.known && p in w.at
  {
    forall e :: e in w.known[p] <==> e in w.at && e != p && CanSee(w.at[p], w.at[e])
  }

  datatype Event =
    | Enter(id: EntityId, cell: Cell, player: bool)
    | Move(id: EntityId, to: Cell)
    | Leave(id: EntityId)

  predicate Possible(w: World, e: Event) {
    match e
    case Enter(id, _, _) => id !in w.at && id !in w.known
    case Move(id, _) => id in w.at
    case Leave(id) => id in w.at
  }

  /** An arrival is told of all it sees, and every player that sees it is told of it. */
  function Entered(w: World, id: EntityId, c: Cell, player: bool): World {
    var grid := Insert(w.grid, id, c);
    var seen := EntitiesIn(grid, Nearby(c));
    var told := map p | p in w.known :: if p in seen then w.known[p] + {id} else w.known[p];
    World(w.at[id := c], grid, if player then told[id := seen - {id}] else told)
  }

  /**
   A move is told to, and tells of, only what stands in the cells it gained and
   lost, the mover itself passed over.
   */
  function MovedTo(w: World, id: EntityId, to: Cell): World
    requires id in w.at
  {
    var from := w.at[id];
    var grid := Moved(w.grid, id, from, to);
    var gained := EntitiesIn(grid, Gained(from, to)) - {id};
    var lost := EntitiesIn(grid, Gained(to, from)) - {id};
    World(w.at[id := to], grid,
          map p | p in w.known ::
            if p == id then w.known[p] + gained - lost
            else if p in gained then w.known[p] + {id}
            else if p in lost then w.known[p] - {id}
            else w.known[p])
  }

  function Left(w: World, id: EntityId): World
    requires id in w.at
  {
    var grid := Remove(w.grid, id, w.at[id]);
    var seen := EntitiesIn(grid, Nearby(w.at[id]));
    World(w.at - {id}, grid,
          map p | p in w.known && p != id :: if p in seen then w.known[p] - {id} else w.known[p])
  }

  function Apply(w: World, e: Event): World
    requires Possible(w, e)
  {
    match e
    case Enter(id, c, player) => Entered(w, id, c, player)
    case Move(id, to) => MovedTo(w, id, to)
    case Leave(id) => Left(w, id)
  }

  lemma EnterExact(w: World, id: EntityId, c: Cell, player: bool)
    requires Exact(w) && id !in w.at && id !in w.known
    ensures Exact(Entered(w, id, c, player))
  {
    var w' := Entered(w, id, c, player);
    InsertIndexes(w.grid, w.at, id, c);
    forall p | p in w'.known
      ensures p in w'.at && Sees(w', p)
    {
      forall e
        ensures e in w'.known[p] <==> e in w'.at && e != p && CanSee(w'.at[p], w'.at[e])
      {
        KnownAfterEnter(w, id, c, player, p, e);
      }
    }
  }

  /** One entry of one known set after an arrival, the newcomer's own or another's. */
  lemma KnownAfterEnter(w: World, id: EntityId, c: Cell, player: bool, p: EntityId, e: EntityId)
    requires Exact(w) && id !in w.at && id !in w.known && p in Entered(w, id, c, player).known
    requires Indexes(Entered(w, id, c, player).grid, w.at[id := c])
    ensures
      var w' := Entered(w, id, c, player);
      p in w'.at && (e in w'.known[p] <==> e in w'.at && e != p && CanSee(w'.at[p], w'.at[e]))
  {
    var grid, at := Insert(w.grid, id, c), w.at[id := c];
    if p == id {
      FoundNearby(grid, at, c, e);
    } else {
      assert p in w.at && Sees(w, p);
      if e == id {
        FoundNearby(grid, at, c, p);
      }
    }
  }

  lemma FoundNearby(grid: Grid, at: map<EntityId, Cell>, c: Cell, other: EntityId)
    requires Indexes(grid, at)
    ensures other in EntitiesIn(grid, Nearby(c)) <==> other in at && CanSee(c, at[other])
    ensures other in at ==> CanSee(c, at[other]) == CanSee(at[other], c)
  {
    FoundByCell(grid, at, Nearby(c), other);
    if other in at {
      NeighborsAreTheSeen(c, at[other]);
    }
  }

  lemma MoveExact(w: World, id: EntityId, to: Cell)
    requires Exact(w) && id in w.at
    ensures Exact(MovedTo(w, id, to))
  {
    var w' := MovedTo(w, id, to);
    MoveIndexes(w.grid, w.at, id, to);
    forall p | p in w'.known
      ensures p in w'.at && Sees(w', p)
    {
      forall e
        ensures e in w'.known[p] <==> e in w'.at && e != p && CanSee(w'.at[p], w'.at[e])
      {
        KnownAfterMove(w, id, to, p, e);
      }
    }
  }

  /** One entry of one known set after a move, told by the diff or left as it was. */
  lemma KnownAfterMove(w: World, id: EntityId, to: Cell, p: EntityId, e: EntityId)
    requires Exact(w) && id in w.at && p in w.known
    requires Indexes(Moved(w.grid, id, w.at[id], to), w.at[id := to])
    ensures
      var w' := MovedTo(w, id, to);
      e in w'.known[p] <==> e in w'.at && e != p && CanSee(w'.at[p], w'.at[e])
  {
    if p == id {
      MoverKnows(w, id, to, e);
    } else {
      WatcherKnows(w, id, to, p, e);
    }
  }

  lemma MoverKnows(w: World, id: EntityId, to: Cell, e: EntityId)
    requires Exact(w) && id in w.at && id in w.known
    requires Indexes(Moved(w.grid, id, w.at[id], to), w.at[id := to])
    ensures e in MovedTo(w, id, to).known[id] <==> e in w.at && e != id && CanSee(to, w.at[e])
  {
    assert Sees(w, id);
    ToldOfMove(Moved(w.grid, id, w.at[id], to), w.at[id := to], w.at[id], to, e);
  }

  lemma WatcherKnows(w: World, id: EntityId, to: Cell, p: EntityId, e: EntityId)
    requires Exact(w) && id in w.at && p in w.known && p in w.at && p != id
    requires Indexes(Moved(w.grid, id, w.at[id], to), w.at[id := to])
    ensures e in MovedTo(w, id, to).known[p] <==>
      e in w.at && e != p && CanSee(w.at[p], if e == id then to else w.at[e])
  {
    assert Sees(w, p);
    var grid, at := Moved(w.grid, id, w.at[id], to), w.at[id := to];
    var gained, lost := EntitiesIn(grid, Gained(w.at[id], to)), EntitiesIn(grid, Gained(to, w.at[id]));
    assert MovedTo(w, id, to).known[p] ==
      if p in gained then w.known[p] + {id} else if p in lost then w.known[p] - {id} else w.known[p];
    if e == id {
      ToldOfMove(grid, at, w.at[id], to, p);
    }
  }

  /** Whom the diff of a move tells: those who see the one cell and not the other. */
  lemma ToldOfMove(grid: Grid, at: map<EntityId, Cell>, from: Cell, to: Cell, other: EntityId)
    requires Indexes(grid, at)
    ensures other in EntitiesIn(grid, Gained(from, to)) <==>
      other in at && CanSee(to, at[other]) && !CanSee(from, at[other])
    ensures other in EntitiesIn(grid, Gained(to, from)) <==>
      other in at && CanSee(from, at[other]) && !CanSee(to, at[other])
  {
    FoundByCell(grid, at, Gained(from, to), other);
    FoundByCell(grid, at, Gained(to, from), other);
    if other in at {
      NeighborsAreTheSeen(from, at[other]);
      NeighborsAreTheSeen(to, at[other]);
    }
  }

  lemma LeaveExact(w: World, id: EntityId)
    requires Exact(w) && id in w.at
    ensures Exact(Left(w, id))
  {
    var w' := Left(w, id);
    RemoveIndexes(w.grid, w.at, id);
    forall p | p in w'.known
      ensures p in w'.at && Sees(w', p)
    {
      forall e
        ensures e in w'.known[p] <==> e in w'.at && e != p && CanSee(w'.at[p], w'.at[e])
      {
        FoundByCell(w'.grid, w'.at, Nearby(w.at[id]), p);
        assert p in w.at && Sees(w, p);
        NeighborsAreTheSeen(w.at[id], w.at[p]);
      }
    }
  }

  /** The worlds a run of events can lead to. */
  ghost predicate Reaches(w: World, es: seq<Event>, last: World)
    decreases |es|
  {
    if es == [] then w == last else Possible(w, es[0]) && Reaches(Apply(w, es[0]), es[1..], last)
  }

  /** Over every run of arrivals, moves and departures, incremental visibility is exact. */
  lemma {:induction false} IncrementalIsExact(w: World, es: seq<Event>, last: World)
    requires Exact(w) && Reaches(w, es, last)
    ensures Exact(last) && Exact(World(map[], map[], map[]))
    decreases |es|
  {
    if es != [] {
      match es[0] {
        case Enter(id, c, player) => EnterExact(w, id, c, player);
        case Move(id, to) => MoveExact(w, id, to);
        case Leave(id) => LeaveExact(w, id);
      }
      IncrementalIsExact(Apply(w, es[0]), es[1..], last);
    }
  }

  /** Exact knowledge is what a scan of the player's neighbourhood returns, the player left out. */
  lemma ExactIsTheScan(w: World, p: EntityId)
    requires Exact(w) && p in w.known
    ensures w.known[p] == EntitiesIn(w.grid, Nearby(w.at[p])) - {p}
  {
    assert p in w.at && Sees(w, p);
    forall e
      ensures e in w.known[p] <==> e in EntitiesIn(w.grid, Nearby(w.at[p])) - {p}
    {
      FoundByCell(w.grid, w.at, Nearby(w.at[p]), e);
      if e in w.at { NeighborsAreTheSeen(w.at[p], w.at[e]); }
    }
  }

  /** Knowledge is mutual: two players know of each other or neither does. */
  lemma KnowledgeIsMutual(w: World, p: EntityId, q: EntityId)
    requires Exact(w) && p in w.known && q in w.known
    ensures p in w.known[q] <==> q in w.known[p]
  {
    assert Sees(w, p) && Sees(w, q);
  }

  // -------------------------------------------------------------------- the grid

  class AoiGrid {
    var cells: Grid

    constructor ()
      ensures cells == map[]
    {
      cells := map[];
    }

    method Place(id: EntityId, cell: Cell)
      modifies this
      ensures cells == Insert(old(cells), id, cell)
    {
      if cell !in cells {
        cells := cells[cell := {}];
      }
      cells := cells[cell := cells[cell] + {id}];
    }

    method Take(id: EntityId, cell: Cell)
      modifies this
      ensures cells == Remove(old(cells), id, cell)
    {
      if cell in cells {
        cells := cells[cell := cells[cell] - {id}];
        if cells[cell] == {} {
          cells := cells - {cell};
        }
      }
    }

    /** `update`: move the entity; the cells gained and lost, each once, in no particular order. */
    method Update(id: EntityId, from: Cell, to: Cell) returns (gained: seq<Cell>, lost: seq<Cell>)
      modifies this
      ensures cells == Moved(old(cells), id, from, to)
      ensures Lists(gained, Gained(from, to)) && Lists(lost, Gained(to, from))
    {
      if from == to {
        return [], [];
      }
      Take(id, from);
      Place(id, to);
      gained := Collect(Nearby(to) - Nearby(from));
      lost := Collect(Nearby(from) - Nearby(to));
    }

    method EntitiesInCells(list: seq<Cell>) returns (out: set<EntityId>)
      ensures out == EntitiesIn(cells, Contents(list))
    {
      out := {};
      var i := 0;
      while i < |list|
        invariant 0 <= i <= |list|
        invariant out == EntitiesIn(cells, Contents(list[..i]))
      {
        assert list[..i + 1] == list[..i] + [list[i]];
        assert Contents(list[..i + 1]) == Contents(list[..i]) + {list[i]};
        if list[i] in cells {
          out := out + cells[list[i]];
        }
        i := i + 1;
      }
      assert list[..i] == list;
    }

    method EntitiesVisibleFrom(cell: Cell) returns (out: set<EntityId>)
      ensures out == EntitiesIn(cells, Nearby(cell))
    {
      out := EntitiesInCells(Neighbors(cell));
    }
  }
}
