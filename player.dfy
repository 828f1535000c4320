/**
 * A player's bookkeeping: the colour code of its turn indicator, its shot,
 * hit and miss counters, its score, and the random deployment of its ships.
 */
module Players {
  import opened Wrappers
  import opened Numerics
  import opened ShipNames
  import opened SeaGrids

  // ---------------------------------------------------------------------
  // Colour codes

  /** The exception HexCharLookup raises for a character that is no hexadecimal digit. */
  datatype ColorError = NotAHexDigit(digit: char)

  predicate IsHexDigit(c: char)
  {
    '0' <= c <= '9' || 'a' <= c <= 'f' || 'A' <= c <= 'F'
  }

  /** The value of a hexadecimal digit, by character arithmetic. */
  function HexValue(c: char): (v: nat)
    requires IsHexDigit(c)
    ensures v < 16
  {
    if '0' <= c <= '9' then c as int - '0' as int
    else if 'a' <= c <= 'f' then c as int - 'a' as int + 10
    else c as int - 'A' as int + 10
  }

  /** The byte of a digit pair, the lead digit being the high nibble. */
  function PairValue(lead: char, trailing: char): byte
    requires IsHexDigit(lead) && IsHexDigit(trailing)
  {
    16 * HexValue(lead) + HexValue(trailing)
  }

  /** The value of one hexadecimal digit, in either case; any other character is an error. */
  function HexCharLookup(digit: char): (r: Result<byte, ColorError>)
    ensures r.Ok? <==> IsHexDigit(digit)
    ensures r.Ok? ==> r.value == HexValue(digit) < 16
    ensures r.Err? ==> r.error == NotAHexDigit(digit)
  {
    match digit
    case '0' => Ok(0)
    case '1' => Ok(1)
    case '2' => Ok(2)
    case '3' => Ok(3)
    case '4' => Ok(4)
    case '5' => Ok(5)
    case '6' => Ok(6)
    case '7' => Ok(7)
    case '8' => Ok(8)
    case '9' => Ok(9)
    case 'A' => Ok(10)
    case 'a' => Ok(10)
    case 'B' => Ok(11)
    case 'b' => Ok(11)
    case 'C' => Ok(12)
    case 'c' => Ok(12)
    case 'D' => Ok(13)
    case 'd' => Ok(13)
    case 'E' => Ok(14)
    case 'e' => Ok(14)
    case 'F' => Ok(15)
    case 'f' => Ok(15)
    case _ => Err(NotAHexDigit(digit))
  }

  /** (high << 4) | low for two 4-bit values, whose bits do not overlap. */
  function Nibbles(high: byte, low: byte): byte
    requires high < 16 && low < 16
  {
    high * 16 + low
  }

  /** A channel written as one digit: the digit repeated, (d << 4) | d. */
  function LoadShorthand(digit: char): (r: Result<byte, ColorError>)
    ensures r.Ok? <==> IsHexDigit(digit)
    ensures r.Ok? ==> r.value == PairValue(digit, digit)
    ensures r.Err? ==> r.error == NotAHexDigit(digit)
  {
    match HexCharLookup(digit)
    case Err(e) => Err(e)
    case Ok(d) => Ok(Nibbles(d, d))
  }

  /** A channel written as two digits: (d1 << 4) | d2. */
  function LoadLonghand(leadDigit: char, trailingDigit: char): (r: Result<byte, ColorError>)
    ensures r.Ok? <==> IsHexDigit(leadDigit) && IsHexDigit(trailingDigit)
    ensures r.Ok? ==> r.value == PairValue(leadDigit, trailingDigit)
    ensures !IsHexDigit(leadDigit) ==> r == Err(NotAHexDigit(leadDigit))
    ensures IsHexDigit(leadDigit) && !IsHexDigit(trailingDigit) ==> r == Err(NotAHexDigit(trailingDigit))
  {
    match HexCharLookup(leadDigit)
    case Err(e) => Err(e)
    case Ok(d1) =>
      match HexCharLookup(trailingDigit)
      case Err(e) => Err(e)
      case Ok(d2) => Ok(Nibbles(d1, d2))
  }

  /** A colour: the 32-bit int FromArgb packs, or the library's transparent colour. */
  datatype Color = FromArgb(argb: int32) | Transparent

  /**
   * (a << 24) + (r << 16) + (g << 8) + b in C# int arithmetic: the channels
   * occupy disjoint bytes, and an alpha of 128 or more makes the int negative.
   */
  function Pack(a: byte, r: byte, g: byte, b: byte): int32
  {
    Wrap32(a * 0x100_0000 + r * 0x1_0000 + g * 0x100 + b)
  }

  /** The alpha, red, green and blue bytes of a packed value. */
  function Unpack(argb: int32): (byte, byte, byte, byte)
  {
    var u := argb % TWO_32;
    (u / 0x100_0000, (u / 0x1_0000) % 256, (u / 0x100) % 256, u % 256)
  }

  /** Packing loses nothing: each channel lands in its own byte. */
  lemma UnpackPack(a: byte, r: byte, g: byte, b: byte)
    ensures Unpack(Pack(a, r, g, b)) == (a, r, g, b)
  {
    var x := a * 0x100_0000 + r * 0x1_0000 + g * 0x100 + b;
    var w := Wrap32(x);
    var k := (x - w) / TWO_32;
    assert w + k * TWO_32 == x;
    ModShift(w, k, TWO_32);
    ModUnique(x, TWO_32, 0, x);
    var u := w % TWO_32;
    assert u == x;
    ModUnique(u, 0x100_0000, a, r * 0x1_0000 + g * 0x100 + b);
    ModUnique(u, 0x1_0000, a * 256 + r, g * 0x100 + b);
    ModUnique(a * 256 + r, 256, a, r);
    ModUnique(u, 0x100, a * 0x1_0000 + r * 256 + g, b);
    ModUnique(a * 0x1_0000 + r * 256 + g, 256, a * 256 + r, g);
    ModUnique(u, 256, a * 0x1_0000 + r * 0x100 + g, b);
  }

  /** The code pattern ^#([0-9a-f]{3}|[0-9a-f]{6}) ignoring case, ending at the very end of the string. */
  predicate StrictCode(code: string)
  {
    (|code| == 4 || |code| == 7) && code[0] == '#'
    && forall i :: 1 <= i < |code| ==> IsHexDigit(code[i])
  }

  /**
   * The source's expression ^#([0-9a-f]{3}|[0-9a-f]{6})$ with case ignored.
   * In .NET, `$` without the multi-line option also matches just before a
   * final newline, so a valid code followed by "\n" matches.
   */
  predicate MatchesCodePattern(code: string)
  {
    StrictCode(code)
    || (|code| > 0 && code[|code| - 1] == '\n' && StrictCode(code[..|code| - 1]))
  }

  /** A matching code has 4, 5, 7 or 8 characters, the odd lengths ending in the newline. */
  lemma CodeShape(code: string)
    requires MatchesCodePattern(code)
    ensures |code| in {4, 5, 7, 8} && code[0] == '#'
    ensures forall i :: 1 <= i < |code| && i != 4 && i != 7 ==> IsHexDigit(code[i])
    ensures |code| == 5 ==> code[4] == '\n'
    ensures |code| == 7 ==> IsHexDigit(code[4])
    ensures |code| == 8 ==> IsHexDigit(code[4]) && code[7] == '\n'
  {
    if !StrictCode(code) {
      var prefix := code[..|code| - 1];
      assert forall i :: 1 <= i < |prefix| ==> IsHexDigit(prefix[i]);
    }
  }

  /** The opaque colour of a three-digit code, each channel its digit repeated. */
  function ShortColor(x: char, y: char, z: char): Color
    requires IsHexDigit(x) && IsHexDigit(y) && IsHexDigit(z)
  {
    FromArgb(Pack(255, PairValue(x, x), PairValue(y, y), PairValue(z, z)))
  }

  /** The opaque colour of a six-digit code, each channel one digit pair. */
  function LongColor(code: string): Color
    requires |code| >= 7 && forall i :: 1 <= i < 7 ==> IsHexDigit(code[i])
  {
    FromArgb(Pack(255, PairValue(code[1], code[2]), PairValue(code[3], code[4]), PairValue(code[5], code[6])))
  }

  /**
   * The red, green and blue bytes of a matching code, read in that order: a
   * code of four characters as three shorthand digits, any other as three
   * digit pairs. The first digit that is not hexadecimal raises the lookup's
   * exception, which for a matching "#rgb\n" is the final newline.
   */
  function ReadChannels(code: string): (r: Result<(byte, byte, byte), ColorError>)
    requires MatchesCodePattern(code)
    ensures |code| == 4 ==> r == Ok((PairValue(code[1], code[1]), PairValue(code[2], code[2]), PairValue(code[3], code[3])))
    ensures |code| >= 7 ==> r == Ok((PairValue(code[1], code[2]), PairValue(code[3], code[4]), PairValue(code[5], code[6])))
    ensures |code| == 5 ==> r == Err(NotAHexDigit('\n'))
  {
    CodeShape(code);
    var shorthand := |code| == 4;
    var red := if shorthand then LoadShorthand(code[1]) else LoadLonghand(code[1], code[2]);
    var green := if shorthand then LoadShorthand(code[2]) else LoadLonghand(code[3], code[4]);
    match red
    case Err(e) => Err(e)
    case Ok(rv) =>
      match green
      case Err(e) => Err(e)
      case Ok(gv) =>
        var blue := if shorthand then LoadShorthand(code[3]) else LoadLonghand(code[5], code[6]);
        match blue
        case Err(e) => Err(e)
        case Ok(bv) => Ok((rv, gv, bv))
  }

  /**
   * GetColor as written: a matching code becomes the opaque colour of its
   * channels, every other code is Transparent, and a matching "#rgb\n"
   * raises the lookup's exception.
   */
  function GetColor(code: string): (r: Result<Color, ColorError>)
    ensures !MatchesCodePattern(code) ==> r == Ok(Transparent)
    ensures MatchesCodePattern(code) && |code| == 4 ==> r == Ok(ShortColor(code[1], code[2], code[3]))
    ensures MatchesCodePattern(code) && |code| >= 7 ==> r == Ok(LongColor(code))
    ensures MatchesCodePattern(code) && |code| == 5 ==> r == Err(NotAHexDigit('\n'))
  {
    if MatchesCodePattern(code) then
      CodeShape(code);
      match ReadChannels(code)
      case Err(e) => Err(e)
      case Ok((rv, gv, bv)) => Ok(FromArgb(Pack(255, rv, gv, bv)))
    else
      Ok(Transparent)
  }

  /** The code pattern lets "#rgb\n" through, and GetColor then raises an exception. */
  lemma {:induction false} TrailingNewlineRaises(code: string)
    requires StrictCode(code) && |code| == 4
    ensures MatchesCodePattern(code + "\n")
    ensures GetColor(code + "\n") == Err(NotAHexDigit('\n'))
  {
    assert (code + "\n")[..|code|] == code;
  }

  /**
   * GetColor with the pattern anchored at the very end of the string: every
   * three- or six-digit code yields its opaque colour, anything else is
   * Transparent, and no input raises an exception.
   */
  function GetColorAnchored(code: string): (c: Color)
    ensures StrictCode(code) && |code| == 4 ==> c == ShortColor(code[1], code[2], code[3])
    ensures StrictCode(code) && |code| == 7 ==> c == LongColor(code)
    ensures !StrictCode(code) ==> c == Transparent
  {
    if StrictCode(code) then GetColor(code).value else Transparent
  }

  /** Away from a final newline the anchored reading changes nothing. */
  lemma AnchoredAgrees(code: string)
    requires |code| == 0 || code[|code| - 1] != '\n'
    ensures GetColor(code) == Ok(GetColorAnchored(code))
  {
  }

  /** The human player's turn indicator, #4ac925, is the opaque 0xFF4AC925 (negative as a C# int). */
  lemma PlayerIndicatorColor()
    ensures GetColorAnchored("#4ac925") == FromArgb(0xFF4A_C925 - TWO_32)
  {
    var code := "#4ac925";
    assert StrictCode(code);
    assert code[1] == '4' && code[2] == 'a' && code[3] == 'c' && code[4] == '9' && code[5] == '2' && code[6] == '5';
    assert PairValue('4', 'a') == 0x4a && PairValue('c', '9') == 0xc9 && PairValue('2', '5') == 0x25;
    assert Pack(255, 0x4a, 0xc9, 0x25) == 0xFF4A_C925 - TWO_32;
  }

  // ---------------------------------------------------------------------
  // Shot bookkeeping

  /** A player's shot, hit and miss counters. */
  datatype Counters = Counters(shots: int, hits: int, misses: int)

  /** Every counted shot is either a hit or a miss. */
  predicate Balanced(c: Counters)
  {
    c.hits >= 0 && c.misses >= 0 && c.shots == c.hits + c.misses
  }

  /** The counters after one attack result: a hit or kill, a miss, or nothing. */
  function Tally(c: Counters, result: ResultOfAttack): (r: Counters)
    ensures Balanced(c) ==> Balanced(r)
    ensures r.shots >= c.shots && r.hits >= c.hits && r.misses >= c.misses
  {
    match result
    case Destroyed => Counters(c.shots + 1, c.hits + 1, c.misses)
    case Hit => Counters(c.shots + 1, c.hits + 1, c.misses)
    case Miss => Counters(c.shots + 1, c.hits, c.misses + 1)
    case _ => c
  }

  /** The counters after a sequence of results, from the given start. */
  function TallyAll(c: Counters, results: seq<ResultOfAttack>): Counters
    decreases |results|
  {
    if results == [] then c else TallyAll(Tally(c, results[0]), results[1..])
  }

  /** The number of results that are a hit or a kill. */
  function CountHits(results: seq<ResultOfAttack>): nat
  {
    if results == [] then 0
    else (if results[0].Hit? || results[0].Destroyed? then 1 else 0) + CountHits(results[1..])
  }

  /** The number of results that are a miss. */
  function CountMisses(results: seq<ResultOfAttack>): nat
  {
    if results == [] then 0
    else (if results[0].Miss? then 1 else 0) + CountMisses(results[1..])
  }

  /**
   * From zero, the counters count exactly the hits (and kills) and the
   * misses among the results; every other result is not charged as a shot.
   */
  lemma {:induction false} TallyCounts(c: Counters, results: seq<ResultOfAttack>)
    ensures TallyAll(c, results)
         == Counters(c.shots + CountHits(results) + CountMisses(results),
                     c.hits + CountHits(results), c.misses + CountMisses(results))
    decreases |results|
  {
    if results != [] {
      TallyCounts(Tally(c, results[0]), results[1..]);
    }
  }

  /** hits * 12 - shots - ownShipsKilled * 20. */
  function RawScore(c: Counters, shipsKilled: int): int
  {
    c.hits * 12 - c.shots - shipsKilled * 20
  }

  /**
   * On balanced counters a hit or kill gains 11 points, a miss costs 1,
   * and any other result leaves the score unchanged.
   */
  lemma ScoreOfShot(c: Counters, killed: int, result: ResultOfAttack)
    requires Balanced(c)
    ensures RawScore(c, killed) == 11 * c.hits - c.misses - 20 * killed
    ensures RawScore(Tally(c, result), killed)
         == RawScore(c, killed) + (if result.Hit? || result.Destroyed? then 11
                                   else if result.Miss? then -1 else 0)
  {
  }

  // ---------------------------------------------------------------------
  // Random deployment

  /** The raw values of one attempt's three calls to the random source. */
  datatype Draw = Draw(dir: nat, x: nat, y: nat)

  /** The placement one attempt asks for: Next(2) picks the heading, Next(0, 11) row and column. */
  function AttemptPos(d: Draw): (p: ShipPos)
    ensures 0 <= p.row < 11 && 0 <= p.column < 11
  {
    var dir := Next(0, 2, d.dir);
    var x := Next(0, 11, d.x);
    var y := Next(0, 11, d.y);
    ShipPos(x, y, if dir == 0 then UpDown else LeftRight)
  }

  /** Every anchor of the board and both headings are reachable by some draw. */
  lemma AttemptReaches(p: ShipPos)
    requires 0 <= p.row < 11 && 0 <= p.column < 11
    ensures AttemptPos(Draw(if p.direction == UpDown then 0 else 1, p.row, p.column)) == p
  {
  }

  /** The fleet after some attempts, the draws they used, and whether they all succeeded. */
  datatype Deployment = Deployment(fleet: Fleet, used: nat, complete: bool)

  /** Tries the draws in order until a move of the ship succeeds. */
  function PlaceWithRetry(f: Fleet, rule: PlacementRule, ship: ShipName, draws: seq<Draw>): (p: Deployment)
    ensures p.used <= |draws|
  {
    if draws == [] then Deployment(f, 0, false)
    else
      match rule(f, ship, AttemptPos(draws[0]))
      case Nothing => Deployment(f[ship := AttemptPos(draws[0])], 1, true)
      case Some(_) =>
        var p := PlaceWithRetry(f, rule, ship, draws[1..]);
        Deployment(p.fleet, p.used + 1, p.complete)
  }

  /** Places every real ship of names in turn, each with the draws the earlier ones left. */
  function DeployAll(f: Fleet, rule: PlacementRule, names: seq<ShipName>, draws: seq<Draw>): (d: Deployment)
    ensures d.used <= |draws|
  {
    if names == [] then Deployment(f, 0, true)
    else
      var d := DeployAll(f, rule, names[..|names| - 1], draws);
      var ship := names[|names| - 1];
      if !d.complete || ship == None then d
      else
        var p := PlaceWithRetry(d.fleet, rule, ship, draws[d.used..]);
        Deployment(p.fleet, d.used + p.used, p.complete)
  }

  /**
   * A placement succeeds with the first draw whose move the grid accepts,
   * after every earlier one was refused; when none is accepted the fleet is
   * unchanged and every draw was spent.
   */
  lemma {:induction false} FirstAcceptedDraw(f: Fleet, rule: PlacementRule, ship: ShipName, draws: seq<Draw>)
    ensures var p := PlaceWithRetry(f, rule, ship, draws);
      (p.complete ==>
        && 1 <= p.used
        && rule(f, ship, AttemptPos(draws[p.used - 1])).Nothing?
        && p.fleet == f[ship := AttemptPos(draws[p.used - 1])]
        && forall j :: 0 <= j < p.used - 1 ==> rule(f, ship, AttemptPos(draws[j])).Some?)
      && (!p.complete ==>
        && p.fleet == f && p.used == |draws|
        && forall j :: 0 <= j < |draws| ==> rule(f, ship, AttemptPos(draws[j])).Some?)
  {
    if draws != [] && rule(f, ship, AttemptPos(draws[0])).Some? {
      FirstAcceptedDraw(f, rule, ship, draws[1..]);
      var p := PlaceWithRetry(f, rule, ship, draws[1..]);
      forall j | 0 <= j < p.used ensures rule(f, ship, AttemptPos(draws[j])).Some? {
        if j > 0 { assert draws[j] == draws[1..][j - 1]; }
      }
    }
  }

  /**
   * A deployment moves only real ships of names and leaves every other
   * entry as it was; once complete, every real ship of names is on the
   * fleet, anchored inside the 11 by 11 board.
   */
  lemma {:induction false} DeployAllPlacesEveryShip(f: Fleet, rule: PlacementRule, names: seq<ShipName>, draws: seq<Draw>)
    ensures var d := DeployAll(f, rule, names, draws);
      && (forall n :: n in d.fleet ==> n in f || (n in names && n != None))
      && (forall n :: n in f && n !in names ==> n in d.fleet && d.fleet[n] == f[n])
      && (d.complete ==> forall n :: n in names && n != None ==>
            n in d.fleet && 0 <= d.fleet[n].row < 11 && 0 <= d.fleet[n].column < 11)
  {
    if names != [] {
      var init := names[..|names| - 1];
      DeployAllPlacesEveryShip(f, rule, init, draws);
      var d := DeployAll(f, rule, init, draws);
      var ship := names[|names| - 1];
      assert forall n :: n in names <==> n in init || n == ship;
      if d.complete && ship != None {
        FirstAcceptedDraw(d.fleet, rule, ship, draws[d.used..]);
      }
    }
  }

  // ---------------------------------------------------------------------
  // The player

  /** What Player.Ship returns about one of the player's ships. */
  datatype ShipInfo = ShipInfo(name: ShipName, size: nat, position: Option<ShipPos>)

  /** The names in a catalogue except None, collected one by one; from the full catalogue, every real name. */
  method ShipNamesOf(all: seq<ShipName>) returns (names: set<ShipName>)
    ensures forall n :: n in names <==> n in all && n != None
    ensures all == AllNames ==> forall n :: n in names <==> n != None
  {
    names := {};
    for i := 0 to |all|
      invariant forall n :: n in names <==> n in all[..i] && n != None
    {
      if all[i] != None {
        names := names + {all[i]};
      }
      assert all[..i + 1] == all[..i] + [all[i]];
    }
    assert all[..|all|] == all;
    if all == AllNames {
      forall n ensures n in names <==> n != None {
        Listed(n);
      }
    }
  }

  class Player {
    /** The player's own grid, on which its ships are deployed. */
    const playerGrid: SeaGrid
    /** The names of the player's ship dictionary. */
    var ships: set<ShipName>
    var shots: int
    var hits: int
    var misses: int
    /** The colour of the player's turn indicator. */
    const col: Color

    ghost predicate Valid()
      reads this
    {
      // Balanced(Counts()), written out
      hits >= 0 && misses >= 0 && shots == hits + misses &&
      (forall n :: n in ships <==> n != None)
    }

    function Counts(): Counters
      reads this
    {
      Counters(shots, hits, misses)
    }

    /**
     * A new player: one ship per real name, zero counters, the indicator
     * colour #4ac925, and its ships randomly deployed on a fresh grid.
     */
    constructor (rule: PlacementRule, draws: seq<Draw>)
      ensures Valid()
      ensures fresh(playerGrid) && Counts() == Counters(0, 0, 0)
      ensures col == GetColorAnchored("#4ac925")
      ensures playerGrid.rule == rule && playerGrid.shipsKilled == 0
      ensures playerGrid.fleet == DeployAll(map[], rule, AllNames, draws).fleet
    {
      playerGrid := new SeaGrid(rule);
      var names := ShipNamesOf(AllNames);
      ships := names;
      shots, hits, misses := 0, 0, 0;
      col := GetColorAnchored("#4ac925");
      new;
      var complete, used := RandomizeDeployment(draws);
    }

    /** All of the player's ships are sunk: one fewer than the names of the enumeration. */
    predicate IsDestroyed()
      reads this, playerGrid
    {
      playerGrid.shipsKilled == |AllNames| - 1
    }

    function Score(): int
      reads this, playerGrid
    {
      if IsDestroyed() then 0 else RawScore(Counts(), playerGrid.shipsKilled)
    }

    /** Destroyed means exactly that all five real ships are sunk. */
    lemma DestroyedMeansAllSunk()
      ensures IsDestroyed() <==> playerGrid.shipsKilled == |Deployable()|
    {
      DeployableShips();
    }

    /** The score is 0 once destroyed, else 11 per hit, -1 per miss and -20 per ship lost. */
    lemma ScoreMeaning()
      requires Valid()
      ensures Score() == if playerGrid.shipsKilled == 5 then 0
                         else 11 * hits - misses - 20 * playerGrid.shipsKilled
    {
    }

    /** The ship of the given name; None names no ship. */
    function Ship(name: ShipName): (r: Option<ShipInfo>)
      requires Valid()
      reads this, playerGrid
      ensures r.Nothing? <==> name == None
      ensures r.Some? ==> r.value.name == name && r.value.size == Value(name)
      ensures r.Some? ==> (r.value.position.Some? <==> name in playerGrid.fleet)
    {
      if name == None then Nothing
      else
        assert name in ships;
        Some(ShipInfo(name, Size(name),
                      if name in playerGrid.fleet then Some(playerGrid.fleet[name]) else Nothing))
    }

    /**
     * Fires at (row, col) of the enemy grid, whose answer is hitTile, and
     * charges the result: a hit or kill counts a shot and a hit, a miss a
     * shot and a miss, anything else (and an exception) nothing.
     */
    method Shoot(row: int, col: int, hitTile: (int, int) -> Result<AttackResult, GridError>)
      returns (r: Result<AttackResult, GridError>)
      requires Valid()
      modifies this`shots, this`hits, this`misses
      ensures Valid()
      ensures r == hitTile(row, col)
      ensures Counts() == if r.Ok? then Tally(old(Counts()), r.value.value) else old(Counts())
    {
      r := hitTile(row, col);
      if r.Err? {
        return;
      }
      match r.value.value
      case Destroyed =>
        shots := shots + 1;
        hits := hits + 1;
      case Hit =>
        shots := shots + 1;
        hits := hits + 1;
      case Miss =>
        shots := shots + 1;
        misses := misses + 1;
      case _ =>
    }

    /**
     * The retry loop of RandomizeDeployment for one ship: a random heading
     * and anchor per draw from `start` on, until the grid accepts the move.
     */
    method PlaceShip(ship: ShipName, draws: seq<Draw>, start: nat) returns (placed: bool, used: nat)
      requires start <= |draws|
      modifies playerGrid`fleet
      ensures var p := PlaceWithRetry(old(playerGrid.fleet), playerGrid.rule, ship, draws[start..]);
        playerGrid.fleet == p.fleet && placed == p.complete && used == start + p.used
    {
      ghost var fleet := playerGrid.fleet;
      var rule := playerGrid.rule;
      placed, used := false, start;
      while !placed && used < |draws|
        invariant start <= used <= |draws|
        invariant !placed ==> playerGrid.fleet == fleet
        invariant PlaceWithRetry(fleet, rule, ship, draws[start..])
               == if placed then Deployment(playerGrid.fleet, used - start, true)
                  else var p := PlaceWithRetry(fleet, rule, ship, draws[used..]);
                       Deployment(p.fleet, p.used + (used - start), p.complete)
        decreases |draws| - used
      {
        var d := draws[used];
        var dir := Next(0, 2, d.dir);
        var x := Next(0, 11, d.x);
        var y := Next(0, 11, d.y);
        var heading := if dir == 0 then UpDown else LeftRight;
        assert ShipPos(x, y, heading) == AttemptPos(draws[used..][0]);
        assert draws[used..][1..] == draws[used + 1..];
        var outcome := playerGrid.MoveShip(x, y, ship, heading);
        placed := outcome.Pass?;
        used := used + 1;
      }
    }

    /**
     * Deploys every real ship in enumeration order, retrying each with fresh
     * draws until the grid accepts its move. The source retries without
     * bound; here the draws are the bound, and running out of them stops the
     * deployment with `complete` false.
     */
    method RandomizeDeployment(draws: seq<Draw>) returns (complete: bool, used: nat)
      modifies playerGrid`fleet
      ensures var d := DeployAll(old(playerGrid.fleet), playerGrid.rule, AllNames, draws);
        playerGrid.fleet == d.fleet && complete == d.complete && used == d.used
    {
      ghost var f0 := playerGrid.fleet;
      complete, used := true, 0;
      for i := 0 to |AllNames|
        invariant var d := DeployAll(f0, playerGrid.rule, AllNames[..i], draws);
          playerGrid.fleet == d.fleet && complete == d.complete && used == d.used
      {
        assert AllNames[..i + 1][..i] == AllNames[..i];
        var shipToPlace := AllNames[i];
        if shipToPlace == None || !complete {
          continue;
        }
        complete, used := PlaceShip(shipToPlace, draws, used);
      }
      assert AllNames[..|AllNames|] == AllNames;
    }
  }
}
