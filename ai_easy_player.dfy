/**
 * The easy computer player: a one-state machine that fires at random tiles,
 * redrawing until it lands on an in-bounds tile of the enemy grid that is
 * still open sea.
 */
module AIEasy {
  import opened Wrappers
  import opened Numerics
  import opened SeaGrids
  import opened Players

  /** The machine's states; Searching is the only one. */
  datatype AIStates = Searching

  /** What the easy player can see of the enemy grid: its size and the view of each tile. */
  datatype GridView = GridView(height: nat, width: nat, view: (int, int) -> TileView)

  /** The raw values behind the two Random.Next calls of one search. */
  datatype Sample = Sample(rowDraw: nat, columnDraw: nat)

  /** SearchCoords: a row in [0, Height) and a column in [0, Width). */
  function SearchCoords(enemy: GridView, s: Sample): (rc: (int, int))
    ensures enemy.height > 0 ==> 0 <= rc.0 < enemy.height
    ensures enemy.width > 0 ==> 0 <= rc.1 < enemy.width
  {
    (Next(0, enemy.height, s.rowDraw), Next(0, enemy.width, s.columnDraw))
  }

  /** The loop's exit test: the tile is inside the grid and still shows open sea. */
  predicate Acceptable(enemy: GridView, row: int, column: int)
  {
    !(row < 0 || column < 0 || row >= enemy.height || column >= enemy.width
      || enemy.view(row, column) != Sea)
  }

  /** The index of the first sample whose coordinates are acceptable, if any. */
  function FirstAcceptable(enemy: GridView, samples: seq<Sample>): (r: Option<nat>)
    ensures r.Some? ==> (r.value < |samples|
      && Acceptable(enemy, SearchCoords(enemy, samples[r.value]).0, SearchCoords(enemy, samples[r.value]).1))
    ensures forall j :: 0 <= j < |samples| && (r.Nothing? || j < r.value) ==>
      !Acceptable(enemy, SearchCoords(enemy, samples[j]).0, SearchCoords(enemy, samples[j]).1)
    decreases |samples|
  {
    if |samples| == 0 then Nothing
    else
      var rc := SearchCoords(enemy, samples[0]);
      if Acceptable(enemy, rc.0, rc.1) then Some(0)
      else match FirstAcceptable(enemy, samples[1..])
        case Nothing => Nothing
        case Some(k) => Some(k + 1)
  }

  /** While no tile of the enemy grid is open sea, no stream of samples ever ends the search. */
  lemma {:induction false} NoSeaNoTarget(enemy: GridView, samples: seq<Sample>)
    requires forall row, column :: 0 <= row < enemy.height && 0 <= column < enemy.width ==>
      enemy.view(row, column) != Sea
    ensures FirstAcceptable(enemy, samples) == Nothing
    decreases |samples|
  {
    if |samples| > 0 {
      NoSeaNoTarget(enemy, samples[1..]);
    }
  }

  /**
   * Every open-sea tile can be the target: after any run of rejected
   * samples, the draws of that tile end the search on it.
   */
  lemma {:induction false} EverySeaTileReachable(enemy: GridView, rejected: seq<Sample>, row: nat, column: nat, rest: seq<Sample>)
    requires row < enemy.height && column < enemy.width && enemy.view(row, column) == Sea
    requires FirstAcceptable(enemy, rejected) == Nothing
    ensures FirstAcceptable(enemy, rejected + [Sample(row, column)] + rest) == Some(|rejected|)
    ensures SearchCoords(enemy, Sample(row, column)) == (row, column)
    decreases |rejected|
  {
    NextReaches(0, enemy.height, row);
    NextReaches(0, enemy.width, column);
    var all := rejected + [Sample(row, column)] + rest;
    if |rejected| > 0 {
      assert all[1..] == rejected[1..] + [Sample(row, column)] + rest;
      var rc := SearchCoords(enemy, rejected[0]);
      assert !Acceptable(enemy, rc.0, rc.1);
      EverySeaTileReachable(enemy, rejected[1..], row, column, rest);
    }
  }

  class AIEasyPlayer {
    var currentState: AIStates
    /** The colour of the computer's turn indicator. */
    const col: Color

    /** A new easy player, searching, with the indicator colour #005682. */
    constructor ()
      ensures currentState == Searching
      ensures col == GetColorAnchored("#005682")
    {
      currentState := Searching;
      col := GetColorAnchored("#005682");
    }

    /**
     * GenerateCoords over a stream of samples: it draws until the
     * coordinates are acceptable, and stops at the first such sample.
     * found is false only when the stream runs out first.
     */
    method GenerateCoords(enemy: GridView, samples: seq<Sample>) returns (found: bool, row: int, column: int, used: nat)
      ensures var first := FirstAcceptable(enemy, samples);
        found == first.Some?
        && (found ==> used == first.value + 1 && (row, column) == SearchCoords(enemy, samples[first.value]))
        && (!found ==> used == |samples|)
      ensures found ==> 0 <= row < enemy.height && 0 <= column < enemy.width && enemy.view(row, column) == Sea
    {
      row, column := 0, 0;
      found, used := false, 0;
      while !found && used < |samples|
        invariant used <= |samples|
        invariant found ==> (used >= 1 && (row, column) == SearchCoords(enemy, samples[used - 1])
          && Acceptable(enemy, row, column))
        invariant var done := if found then used - 1 else used;
          forall j :: 0 <= j < done ==>
            !Acceptable(enemy, SearchCoords(enemy, samples[j]).0, SearchCoords(enemy, samples[j]).1)
        decreases |samples| - used, !found
      {
        var rc := match currentState case Searching => SearchCoords(enemy, samples[used]);
        row, column := rc.0, rc.1;
        used := used + 1;
        found := Acceptable(enemy, row, column);
      }
      FirstIsUnique(enemy, samples, if found then used - 1 else used, found);
    }

    /** The easy player learns nothing from the outcome of a shot. */
    method ProcessShot(row: int, col: int, result: AttackResult)
      ensures currentState == old(currentState)
    {
    }
  }

  /** A sample index preceded only by rejected samples is the first acceptable one. */
  lemma FirstIsUnique(enemy: GridView, samples: seq<Sample>, k: nat, hit: bool)
    requires k <= |samples| && (hit ==> k < |samples|)
    requires hit ==> Acceptable(enemy, SearchCoords(enemy, samples[k]).0, SearchCoords(enemy, samples[k]).1)
    requires !hit ==> k == |samples|
    requires forall j :: 0 <= j < k ==>
      !Acceptable(enemy, SearchCoords(enemy, samples[j]).0, SearchCoords(enemy, samples[j]).1)
    ensures FirstAcceptable(enemy, samples) == if hit then Some(k) else Nothing
  {
    var r := FirstAcceptable(enemy, samples);
    if r.Some? {
      assert !(r.value < k);
    }
  }

  /** The computer player's turn indicator, #005682, is the opaque 0xFF005682 (negative as a C# int). */
  lemma ComputerIndicatorColor()
    ensures GetColorAnchored("#005682") == FromArgb(0xFF00_5682 - TWO_32)
  {
    var code := "#005682";
    assert StrictCode(code);
    assert code[1] == '0' && code[2] == '0' && code[3] == '5' && code[4] == '6' && code[5] == '8' && code[6] == '2';
    assert PairValue('0', '0') == 0x00 && PairValue('5', '6') == 0x56 && PairValue('8', '2') == 0x82;
    assert Pack(255, 0x00, 0x56, 0x82) == 0xFF00_5682 - TWO_32;
  }
}
