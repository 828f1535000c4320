/**
 * The ship catalogue: every ship name of the game, whose numeric value is
 * the length of the ship in tiles.
 */
module ShipNames {

  datatype ShipName = None | Tug | Submarine | Destroyer | Battleship | AircraftCarrier

  /** The numeric value of a name in the enumeration. */
  function Value(n: ShipName): nat
  {
    match n
    case None => 0
    case Tug => 1
    case Submarine => 2
    case Destroyer => 3
    case Battleship => 4
    case AircraftCarrier => 5
  }

  /** The number of tiles a ship of this name occupies: its enumeration value. */
  function Size(n: ShipName): nat
  {
    Value(n)
  }

  /** The enumeration's values in the order the runtime lists them (ascending value). */
  const AllNames: seq<ShipName> := [None, Tug, Submarine, Destroyer, Battleship, AircraftCarrier]

  /** The names of a sequence that denote real ships, in their original order. */
  function RealShips(names: seq<ShipName>): (r: seq<ShipName>)
    ensures forall n :: n in r <==> n in names && n != None
    ensures |r| <= |names|
  {
    if names == [] then []
    else if names[0] == None then RealShips(names[1..])
    else [names[0]] + RealShips(names[1..])
  }

  /** The ships a player owns and deploys: every name except None, in enumeration order. */
  function Deployable(): seq<ShipName>
  {
    RealShips(AllNames)
  }

  /** Every name of the enumeration is in the catalogue. */
  lemma Listed(n: ShipName)
    ensures n in AllNames
  {
    CatalogueValues();
  }

  /** None is the value 0; the five real ships are the values 1 to 5, one each, and no other. */
  lemma CatalogueValues()
    ensures |AllNames| == 6
    ensures forall n: ShipName :: n in AllNames && AllNames[Value(n)] == n
    ensures forall i :: 0 <= i < |AllNames| ==> Value(AllNames[i]) == i
    ensures forall n: ShipName :: (Value(n) == 0) == (n == None)
    ensures forall n: ShipName :: n != None ==> 1 <= Size(n) <= 5
  {
    forall n: ShipName ensures n in AllNames && AllNames[Value(n)] == n {
      match n
      case None =>
      case Tug =>
      case Submarine =>
      case Destroyer =>
      case Battleship =>
      case AircraftCarrier =>
    }
  }

  /**
   * The deployable ships are exactly the names other than None, visited in
   * enumeration order; there are five of them, one fewer than the enumeration.
   */
  lemma DeployableShips()
    ensures Deployable() == [Tug, Submarine, Destroyer, Battleship, AircraftCarrier]
    ensures |Deployable()| == |AllNames| - 1 == 5
    ensures forall n :: n in Deployable() <==> n != None
    ensures forall i, j :: 0 <= i < j < |Deployable()| ==> Value(Deployable()[i]) < Value(Deployable()[j])
  {
    assert AllNames[1..][1..][1..][1..][1..][1..] == [];
  }
}
