/**
 * The deployment screen's placement rules: deploying the selected ship at a
 * clicked tile, rotating a deployed ship about the tile that was clicked,
 * and putting a ship back where it was when a placement fails.
 *
 * Each operation is specified by a function over values (a `Deck`: the
 * screen's direction, selected ship and message, with the grid's fleet);
 * the class below performs the same steps on the controller's fields and
 * on the grid.
 */
module Deployment {
  import opened Wrappers
  import opened ShipNames
  import opened SeaGrids

  /** The exceptions a deployment raises: the grid's own, or a ship that cannot fit on the board. */
  datatype DeployError = Rejected(reason: GridError) | CannotFit

  /** The fixed part of the human player's grid. */
  datatype Board = Board(height: int, width: int, rule: PlacementRule)

  /** The controller's state together with the fleet of the human player's grid. */
  datatype Deck = Deck(fleet: Fleet, direction: Direction, selected: ShipName, message: Option<DeployError>)

  predicate InRange(b: Board, row: int, col: int)
  {
    0 <= row < b.height && 0 <= col < b.width
  }

  /** The grid's verdict on moving the selected ship to (row, col) in the current direction. */
  function Verdict(b: Board, d: Deck, row: int, col: int): Option<GridError>
  {
    b.rule(d.fleet, d.selected, ShipPos(row, col, d.direction))
  }

  /**
   * DeployShip(row, col, suppressExceptions, throwIfOutOfRange): the
   * exception it raises, if any, and the state after it.
   */
  function DeployStep(b: Board, d: Deck, row: int, col: int, suppress: bool, throwIfOutOfRange: bool)
    : (r: (Option<DeployError>, Deck))
    // only the fleet and the message can change
    ensures r.1.direction == d.direction && r.1.selected == d.selected
    // the grid is asked only for an anchor inside it, and a legal move always succeeds
    ensures r.1.fleet != d.fleet ==> InRange(b, row, col) && Verdict(b, d, row, col) == Nothing
    ensures InRange(b, row, col) && Verdict(b, d, row, col) == Nothing ==>
      r.0 == Nothing && r.1 == d.(fleet := d.fleet[d.selected := ShipPos(row, col, d.direction)])
    // an anchor outside the grid raises exactly when asked to
    ensures r.0 == Some(CannotFit) <==> throwIfOutOfRange && !InRange(b, row, col)
    ensures !InRange(b, row, col) ==> r.1 == d
    // a grid failure is rethrown unless suppressed, and then it is the message
    ensures (r.0.Some? && r.0.value.Rejected?) <==> InRange(b, row, col) && !suppress && Verdict(b, d, row, col).Some?
    ensures r.0.Some? && r.0.value.Rejected? ==> r.0.value.reason == Verdict(b, d, row, col).value && r.1 == d
    ensures r.1.message != d.message ==> suppress && InRange(b, row, col) && Verdict(b, d, row, col).Some?
    ensures suppress && InRange(b, row, col) && Verdict(b, d, row, col).Some? ==>
      r == (Nothing, d.(message := Some(Rejected(Verdict(b, d, row, col).value))))
  {
    if InRange(b, row, col) then
      match Verdict(b, d, row, col)
      case Nothing => (Nothing, d.(fleet := d.fleet[d.selected := ShipPos(row, col, d.direction)]))
      case Some(e) =>
        if suppress then (Nothing, d.(message := Some(Rejected(e)))) else (Some(Rejected(e)), d)
    else if throwIfOutOfRange then (Some(CannotFit), d)
    else (Nothing, d)
  }

  /** The two-argument DeployShip suppresses every exception, so it never raises. */
  lemma QuietDeployNeverRaises(b: Board, d: Deck, row: int, col: int)
    ensures DeployStep(b, d, row, col, true, false).0 == Nothing
    ensures DeployStep(b, d, row, col, true, false).1.fleet in
      {d.fleet, d.fleet[d.selected := ShipPos(row, col, d.direction)]}
  {
  }

  /**
   * The anchor of a ship rotated about the clicked tile: the tile's offset
   * along the old axis becomes its offset along the new one.
   */
  function RotatedAnchor(p: ShipPos, clickedRow: int, clickedCol: int): (q: ShipPos)
    ensures q.direction == Opposite(p.direction)
  {
    var horizontal := p.direction == LeftRight;
    var relativePosition := Offset(p, clickedRow, clickedCol);
    if horizontal then ShipPos(clickedRow - relativePosition, clickedCol, UpDown)
    else ShipPos(clickedRow, clickedCol - relativePosition, LeftRight)
  }

  /** A rotation keeps the clicked tile under the ship, at the same offset from the anchor. */
  lemma RotationKeepsClickedTile(p: ShipPos, size: nat, row: int, col: int)
    requires Covers(p, size, row, col)
    ensures Covers(RotatedAnchor(p, row, col), size, row, col)
    ensures Offset(RotatedAnchor(p, row, col), row, col) == Offset(p, row, col)
    ensures TileAt(RotatedAnchor(p, row, col), Offset(p, row, col)) == TileAt(p, Offset(p, row, col))
  {
    CoversIsTileAt(p, size, row, col);
    CoversIsTileAt(RotatedAnchor(p, row, col), size, row, col);
  }

  /** Rotating twice about the same tile of the ship puts it back where it was. */
  lemma RotationIsAnInvolution(p: ShipPos, size: nat, row: int, col: int)
    requires Covers(p, size, row, col)
    ensures RotatedAnchor(RotatedAnchor(p, row, col), row, col) == p
  {
    RotationKeepsClickedTile(p, size, row, col);
  }

  /**
   * RotateClickedShip for the ship `ship` lying at `at` under the clicked
   * tile: select that ship, deploy it turned about the tile, and on failure
   * redeploy it quietly at its old anchor and direction, restore the
   * direction and show the failure.
   */
  function RotateStep(b: Board, d: Deck, row: int, col: int, ship: ShipName, at: ShipPos): (r: Deck)
    ensures r.selected == ship
    // success: the ship turns about the clicked tile and the new direction is kept
    ensures var q := RotatedAnchor(at, row, col);
      InRange(b, q.row, q.column) && b.rule(d.fleet, ship, q) == Nothing ==>
        r == Deck(d.fleet[ship := q], Opposite(at.direction), ship, d.message)
    // failure: the direction is restored, the failure is the message, and the fleet is as it was
    ensures var q := RotatedAnchor(at, row, col);
      !(InRange(b, q.row, q.column) && b.rule(d.fleet, ship, q) == Nothing) ==>
        r.direction == d.direction
        && r.message == Some(if InRange(b, q.row, q.column) then Rejected(b.rule(d.fleet, ship, q).value) else CannotFit)
        && (ship in d.fleet && d.fleet[ship] == at ==> r.fleet == d.fleet)
  {
    var q := RotatedAnchor(at, row, col);
    var turned := d.(selected := ship, direction := q.direction);
    var (raised, afterTry) := DeployStep(b, turned, q.row, q.column, false, true);
    match raised
    case Nothing => afterTry
    case Some(e) =>
      var (_, restored) := DeployStep(b, afterTry.(direction := at.direction), at.row, at.column, true, false);
      restored.(direction := d.direction, message := Some(e))
  }

  /**
   * A left click on a grid tile with no ship under the mouse: deploy the
   * selected ship there; on failure show the failure, redeploy the ship
   * quietly where `moving` says it was, and restore the direction.
   */
  function ClickStep(b: Board, d: Deck, row: int, col: int, moving: ShipPos): (r: Deck)
    ensures r.selected == d.selected && r.direction == d.direction
    // a click outside the grid changes nothing
    ensures !InRange(b, row, col) ==> r == d
    ensures InRange(b, row, col) && Verdict(b, d, row, col) == Nothing ==>
      r == d.(fleet := d.fleet[d.selected := ShipPos(row, col, d.direction)])
    // a failed click puts the deployed ship back and reports a grid failure
    ensures InRange(b, row, col) && Verdict(b, d, row, col).Some? ==>
      r.message == Some(Rejected(
        if InRange(b, moving.row, moving.column) && b.rule(d.fleet, d.selected, moving).Some?
        then b.rule(d.fleet, d.selected, moving).value
        else Verdict(b, d, row, col).value))
      && (d.selected in d.fleet && d.fleet[d.selected] == moving ==> r.fleet == d.fleet)
  {
    var (raised, afterTry) := DeployStep(b, d, row, col, false, false);
    match raised
    case Nothing => afterTry
    case Some(e) =>
      var shown := afterTry.(message := Some(e), direction := moving.direction);
      var (_, restored) := DeployStep(b, shown, moving.row, moving.column, true, false);
      restored.(direction := d.direction)
  }

  /** The deployment controller's selection state, driving the human player's grid. */
  class DeploymentController {
    var currentDirection: Direction
    var selectedShip: ShipName
    /** The last message shown to the player. */
    var message: Option<DeployError>
    const grid: SeaGrid

    /** Up-down and the tug are selected at first. */
    constructor (grid: SeaGrid)
      ensures this.grid == grid
      ensures currentDirection == UpDown && selectedShip == Tug && message == Nothing
    {
      this.grid := grid;
      currentDirection, selectedShip, message := UpDown, Tug, Nothing;
    }

    /** The human player's grid as the rules see it. */
    function Layout(): Board
    {
      Board(grid.height, grid.width, grid.rule)
    }

    /** The controller's state with the grid's fleet. */
    function State(): Deck
      reads this, grid
    {
      Deck(grid.fleet, currentDirection, selectedShip, message)
    }

    /** DeployShip(row, col, suppressExceptions, throwIfOutOfRange). */
    method DeployShip(row: int, col: int, suppress: bool, throwIfOutOfRange: bool) returns (raised: Option<DeployError>)
      modifies grid`fleet, this`message
      ensures (raised, State()) == DeployStep(Layout(), old(State()), row, col, suppress, throwIfOutOfRange)
    {
      raised := Nothing;
      var inRange := row >= 0 && row < grid.height;
      if inRange {
        inRange := col >= 0 && col < grid.width;
        if inRange {
          var moved := grid.MoveShip(row, col, selectedShip, currentDirection);
          if moved.Fail? {
            if suppress {
              message := Some(Rejected(moved.error));
            } else {
              return Some(Rejected(moved.error));
            }
          }
        }
      }
      if throwIfOutOfRange && !inRange {
        raised := Some(CannotFit);
      }
    }

    /** DeployShip(row, col): suppresses the grid's exceptions and accepts an anchor outside the grid. */
    method DeployShipQuietly(row: int, col: int)
      modifies grid`fleet, this`message
      ensures State() == DeployStep(Layout(), old(State()), row, col, true, false).1
    {
      var _ := DeployShip(row, col, true, false);
    }

    /** The arrow keys and the direction buttons choose the direction. */
    method ChooseDirection(direction: Direction)
      modifies this`currentDirection
      ensures State() == old(State()).(direction := direction)
    {
      currentDirection := direction;
    }

    /** RotateClickedShip for a clicked tile that holds a ship. */
    method RotateClickedShip(row: int, col: int)
      requires grid.ShipAtTile(row, col).Some?
      modifies grid`fleet, this`message, this`currentDirection, this`selectedShip
      ensures var ship := old(grid.ShipAtTile(row, col)).value;
        State() == RotateStep(Layout(), old(State()), row, col, ship, old(grid.fleet)[ship])
    {
      var ship := grid.ShipAtTile(row, col).value;
      var oldPos := grid.fleet[ship];
      var oldCurrentDir := currentDirection;
      var q := RotatedAnchor(oldPos, row, col);
      selectedShip := ship;
      currentDirection := q.direction;
      var raised := DeployShip(q.row, q.column, false, true);
      if raised.Some? {
        currentDirection := oldPos.direction;
        DeployShipQuietly(oldPos.row, oldPos.column);
        currentDirection := oldCurrentDir;
        message := raised;
      }
    }

    /** A right click rotates the ship on the clicked tile; a tile without a ship is ignored. */
    method RightClick(row: int, col: int)
      modifies grid`fleet, this`message, this`currentDirection, this`selectedShip
      ensures old(grid.ShipAtTile(row, col)).Nothing? ==> State() == old(State())
      ensures old(grid.ShipAtTile(row, col)).Some? ==>
        var ship := old(grid.ShipAtTile(row, col)).value;
        State() == RotateStep(Layout(), old(State()), row, col, ship, old(grid.fleet)[ship])
    {
      if grid.ShipAtTile(row, col).Some? {
        RotateClickedShip(row, col);
      }
    }

    /**
     * A left click: a click on one of the ship buttons (`overShip`) selects
     * that ship; any other click deploys the selected ship at the clicked
     * tile, restoring it to `moving`, its recorded position, on failure.
     */
    method LeftClick(overShip: ShipName, row: int, col: int, moving: ShipPos)
      requires selectedShip in grid.fleet ==> moving == grid.fleet[selectedShip]
      modifies grid`fleet, this`message, this`currentDirection, this`selectedShip
      ensures overShip != None ==> State() == old(State()).(selected := overShip)
      ensures overShip == None ==> State() == ClickStep(Layout(), old(State()), row, col, moving)
    {
      if overShip != None {
        selectedShip := overShip;
      } else {
        var raised := DeployShip(row, col, false, false);
        if raised.Some? {
          message := raised;
          var currentDir := currentDirection;
          currentDirection := moving.direction;
          DeployShipQuietly(moving.row, moving.column);
          currentDirection := currentDir;
        }
      }
    }
  }
}
