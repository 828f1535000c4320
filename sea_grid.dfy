/**
 * The interface of a player's sea grid as the game-rules layer sees it.
 *
 * The grid's own placement and attack checks are not part of this model: a
 * placement verdict is an oracle (`PlacementRule`), and an attack's outcome
 * is supplied by the caller. What the rules layer relies on is kept: a move
 * that succeeds deploys the ship at the requested anchor and direction, a
 * move that fails changes nothing, and a ship's tiles run from its anchor
 * along one axis.
 */
module SeaGrids {
  import opened Wrappers
  import opened ShipNames

  /** The two orientations a ship can have. */
  datatype Direction = UpDown | LeftRight

  function Opposite(d: Direction): (r: Direction)
    ensures r != d
  {
    if d == LeftRight then UpDown else LeftRight
  }

  /** What a player may see of one tile of a grid. */
  datatype TileView = Sea | Ship | Hit | Miss

  /** The outcome values of one shot at a grid. */
  datatype ResultOfAttack = Hit | Miss | Destroyed | ShotAlready | Incomplete

  /** The value a grid returns for one shot. */
  datatype AttackResult = AttackResult(value: ResultOfAttack, row: int, column: int)

  /** The exceptions a grid raises. */
  datatype GridError = OutOfBounds | Overlap | AlreadyShot

  /** Where a deployed ship lies: its anchor tile and its orientation. */
  datatype ShipPos = ShipPos(row: int, column: int, direction: Direction)

  /** The deployed ships of a grid, by name. */
  type Fleet = map<ShipName, ShipPos>

  /** The grid's placement verdict for moving a ship: Nothing when the move is legal. */
  type PlacementRule = (Fleet, ShipName, ShipPos) -> Option<GridError>

  /**
   * The tile at offset i of a ship: an UpDown ship extends along the row
   * index and a LeftRight ship along the column index.
   */
  function TileAt(p: ShipPos, i: int): (int, int)
  {
    match p.direction
    case UpDown => (p.row + i, p.column)
    case LeftRight => (p.row, p.column + i)
  }

  /** Whether a ship of the given size at p occupies tile (row, col). */
  predicate Covers(p: ShipPos, size: nat, row: int, col: int)
  {
    match p.direction
    case UpDown => col == p.column && p.row <= row < p.row + size
    case LeftRight => row == p.row && p.column <= col < p.column + size
  }

  /** The offset along the ship's axis of a tile relative to its anchor. */
  function Offset(p: ShipPos, row: int, col: int): int
  {
    if p.direction == LeftRight then col - p.column else row - p.row
  }

  /** Covers is exactly "one of the ship's size tiles", and Offset names which one. */
  lemma CoversIsTileAt(p: ShipPos, size: nat, row: int, col: int)
    ensures Covers(p, size, row, col) <==> exists i :: 0 <= i < size && TileAt(p, i) == (row, col)
    ensures Covers(p, size, row, col) ==> TileAt(p, Offset(p, row, col)) == (row, col)
  {
    if Covers(p, size, row, col) {
      assert TileAt(p, Offset(p, row, col)) == (row, col);
    }
  }

  /** The first ship of `names` (in order) that is deployed and occupies (row, col). */
  function ShipAmong(fleet: Fleet, names: seq<ShipName>, row: int, col: int): (r: Option<ShipName>)
    ensures r.Some? ==> r.value in names && r.value in fleet
                        && Covers(fleet[r.value], Size(r.value), row, col)
    ensures r.Nothing? ==> forall n :: n in names && n in fleet ==> !Covers(fleet[n], Size(n), row, col)
  {
    if names == [] then Nothing
    else if names[0] in fleet && Covers(fleet[names[0]], Size(names[0]), row, col) then Some(names[0])
    else ShipAmong(fleet, names[1..], row, col)
  }

  /**
   * A player's grid: its fixed dimensions, its placement verdicts and the
   * ships deployed on it.
   */
  class SeaGrid {
    const height: int
    const width: int
    const rule: PlacementRule
    var fleet: Fleet
    /** The number of its ships sunk so far; kept by the grid's attack resolution. */
    var shipsKilled: nat

    /** An empty 11 by 11 grid. */
    constructor (rule: PlacementRule)
      ensures height == 11 && width == 11 && this.rule == rule
      ensures fleet == map[] && shipsKilled == 0
    {
      height, width := 11, 11;
      this.rule := rule;
      fleet := map[];
      shipsKilled := 0;
    }

    /**
     * Moves (or first deploys) a ship to anchor (row, col) facing direction.
     * It succeeds exactly when the placement rule allows it; a failure
     * changes nothing.
     */
    method MoveShip(row: int, col: int, name: ShipName, direction: Direction) returns (r: Outcome<GridError>)
      modifies this`fleet
      ensures r == (match rule(old(fleet), name, ShipPos(row, col, direction))
                    case Nothing => Pass
                    case Some(e) => Fail(e))
      ensures fleet == if r.Pass? then old(fleet)[name := ShipPos(row, col, direction)] else old(fleet)
    {
      var pos := ShipPos(row, col, direction);
      match rule(fleet, name, pos)
      case Nothing =>
        fleet := fleet[name := pos];
        r := Pass;
      case Some(e) =>
        r := Fail(e);
    }

    /** The ship occupying tile (row, col), if any. */
    function ShipAtTile(row: int, col: int): (r: Option<ShipName>)
      reads this
      ensures r.Some? ==> r.value != None && r.value in fleet
                          && Covers(fleet[r.value], Size(r.value), row, col)
      ensures r.Nothing? ==> forall n :: n != None && n in fleet ==> !Covers(fleet[n], Size(n), row, col)
    {
      DeployableShips();
      ShipAmong(fleet, Deployable(), row, col)
    }
  }

  /** Random.Next(minValue, maxValue) driven by an arbitrary raw draw. */
  function Next(minValue: int, maxValue: int, raw: nat): (r: int)
    requires minValue <= maxValue
    ensures minValue < maxValue ==> minValue <= r < maxValue
    ensures minValue == maxValue ==> r == minValue
  {
    if minValue == maxValue then minValue else minValue + raw % (maxValue - minValue)
  }

  /** Every value of the range is drawn by some raw value. */
  lemma NextReaches(minValue: int, maxValue: int, v: int)
    requires minValue <= v < maxValue
    ensures Next(minValue, maxValue, v - minValue) == v
  {
  }
}
