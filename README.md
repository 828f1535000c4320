# Battleships: the game-rules layer in Dafny

This project models the rules layer of the Battleships game:

- **ShipNames.** The fleet catalogue: six names, `None` plus five ships whose value is their length.
- **Players.** A player:
  - its turn-indicator colour, decoded from a hex code;
  - its shot, hit and miss counters and the score derived from them;
  - random placement of its fleet.
- **AIEasy.** The easy computer opponent, which fires at random until it lands on an unshot sea tile.
- **Deployment.** The deployment screen's state: the selected ship, the chosen direction and the last error message. It also covers what a click or a rotation does to the fleet.
- **HighScores.** The high-score controller: the binary score file format, reading and writing it, the score table it keeps, and how a new high score enters that table.

The model is split into these modules:

- `ShipNames` (ship_name.dfy).
- `SeaGrids` (sea_grid.dfy). This is the interface of the player's sea grid as the rules layer sees it. Two things are parameters here:
  - whether a placement is legal is an oracle (`PlacementRule`);
  - what a shot hits is an oracle too.

  A successful move records the ship at the requested anchor and direction, and a failed move changes nothing.
- `Players` (player.dfy).
- `AIEasy` (ai_easy_player.dfy).
- `Deployment` (deployment_controller.dfy).
- `HighScores` (high_scores.dfy).
- Shared machinery:
  - `Numerics` (numerics.dfy): C# `int` wrap-around and bytes;
  - `Wrappers` (wrappers.dfy): `Option`, `Result` and `Outcome`. Exceptions the source throws become `Err`/`Fail` values.

Nondeterminism and I/O become parameters:

- **`Random.Next(lo, hi)`** is `lo + raw % (hi - lo)` over an arbitrary natural number `raw` (`SeaGrids.Next`).
- **The unbounded retry loops** take a finite sequence of raw draws, and report whether they finished within it:
  - the AI's search;
  - the random fleet placement.
- **The score file** is a byte sequence.
  - Writing appends to it, which is what `FileMode.Append` does.
  - Reading decodes it from position 0.
- **GetComponents' byte count.** GetComponents computes `(long)Math.Ceiling(Math.Log(value, 8))` in floating point. That count is a parameter `components: int32 -> int`.
  - The model proves what holds for every count function.
  - It also proves what happens for the counts the source computes at the points that matter (`log8 1 = 0`, `ceil(log8 16777217) = 9`).

Stateful parts of the source are classes whose methods update their fields:

- the high-score controller (its file and its two score lists);
- the deployment controller (direction, selected ship, message);
- the player (its counters and its grid's fleet);
- the AI player.

Each method is proved against a function of the old state. What the source promises is proved about those functions as lemmas.

Where the source's own comments and its code disagree, the model follows the code:

- **Read does not stop at end of file inside a record.** The format comment says a file that ends in the middle of a record raises `EndOfStreamException`. The code only checks the two length bytes, though. Name characters and value bytes past the end are read with the unchecked `Stream.ReadByte`, which returns -1. So a truncated value is silently accepted (`HighScores.TruncatedValueIsNotReported`), and only a missing length byte raises.
- **Ship axis.** A comment in the deployment unit test calls the axis naming of ship directions a bug. The model takes the convention that test and `RotateClickedShip` rely on:
  - an `UpDown` ship at anchor (row, col) occupies (row + i, col);
  - a `LeftRight` ship occupies (row, col + i).

## Model

| member | source | states |
|---|---|---|
| ShipNames.CatalogueValues | src/Model/ShipName.cs:12-38 | there are six names, listed in declaration order so that each name sits at the index of its value; only `None` has value 0; every real ship is 1 to 5 tiles long |
| ShipNames.DeployableShips | src/Model/ShipName.cs:12-38 | the names a fleet is made of are exactly the five non-`None` names, in increasing value |
| ShipNames.Listed | src/Model/ShipName.cs:12-38 | enumerating the type's values yields every name |
| ShipNames.RealShips | src/Model/Player.cs:167-171 | skipping `None` while enumerating keeps exactly the other names and never adds one |
| SeaGrids.Next | src/Model/Player.cs:352-354 | `Random.Next(lo, hi)` lands in `[lo, hi)`, or is `lo` when the range is empty |
| SeaGrids.NextReaches | src/Model/AIEasyPlayer.cs:73-77 | every value of the range is produced by some draw |
| SeaGrids.SeaGrid.MoveShip | src/Model/Player.cs:364-369 | a move succeeds exactly when the grid allows it; on success the ship is recorded at the requested anchor and direction, and on failure the fleet is unchanged |
| SeaGrids.SeaGrid.ShipAtTile | src/DeploymentController.cs:96-99 | the ship found at a tile is a deployed ship covering it; finding none means no deployed ship covers it |
| SeaGrids.CoversIsTileAt | src/DeploymentController.cs:110-113 | a ship covers a tile exactly when the tile is one of its size tiles along its axis; the along-axis offset says which one |
| AIEasy.AIEasyPlayer.constructor | src/Model/AIEasyPlayer.cs:23-36 | the AI starts in the Searching state, with the colour decoded from `#005682` |
| AIEasy.ComputerIndicatorColor | src/Model/AIEasyPlayer.cs:33-45 | the turn indicator is opaque ARGB 0xFF005682, a negative C# int |
| AIEasy.SearchCoords | src/Model/AIEasyPlayer.cs:73-77 | a random shot lies inside the enemy grid whenever the grid has rows and columns |
| AIEasy.FirstAcceptable | src/Model/AIEasyPlayer.cs:53-66 | the search stops at the first draw that lands on an in-bounds sea tile; every earlier draw was rejected, and with no such draw it does not stop |
| AIEasy.FirstIsUnique | src/Model/AIEasyPlayer.cs:53-66 | a draw that is accepted, and preceded only by rejected draws, is the one the search stops at |
| AIEasy.NoSeaNoTarget | src/Model/AIEasyPlayer.cs:64 | on a grid with no sea tile left, no draw is ever accepted, so the source's loop does not end |
| AIEasy.EverySeaTileReachable | src/Model/AIEasyPlayer.cs:64-76 | every unshot sea tile is chosen by some sequence of draws, after any number of rejected ones |
| AIEasy.AIEasyPlayer.GenerateCoords | src/Model/AIEasyPlayer.cs:53-66 | the chosen coordinates are those of the first accepted draw, so the shot is always at an in-bounds sea tile; the draws consumed number up to and including that first accepted draw |
| AIEasy.AIEasyPlayer.ProcessShot | src/Model/AIEasyPlayer.cs:79-81 | processing a shot leaves the AI's state as it was |
| Players.HexCharLookup | src/Model/Player.cs:46-108 | succeeds exactly for the 22 hex digit characters, with the digit's value below 16; any other character is the exception |
| Players.LoadShorthand | src/Model/Player.cs:109-112 | a shorthand digit d decodes to the byte 0xdd, or fails on a non-digit |
| Players.LoadLonghand | src/Model/Player.cs:113-117 | two digits decode to the byte they spell; the lead digit is checked first |
| Players.UnpackPack | src/Model/Player.cs:130-131 | the packed ARGB int determines its alpha, red, green and blue bytes |
| Players.CodeShape | src/Model/Player.cs:17 | a code the pattern accepts is `#` with three or six hex digits, optionally followed by one final newline (the `$` anchor of .NET) |
| Players.ReadChannels | src/Model/Player.cs:126-129 | the three channels come from doubled digits in a four-character code and from digit pairs otherwise; a shorthand code with a trailing newline is five characters long, so it is decoded as longhand and fails on the newline |
| Players.GetColor | src/Model/Player.cs:122-136 | a code the pattern rejects is transparent; a shorthand or longhand code gives the opaque colour of its channels; a shorthand code with a trailing newline raises |
| Players.TrailingNewlineRaises | src/Model/Player.cs:17 | every valid shorthand code followed by a newline passes the pattern and then raises |
| Players.GetColorAnchored | src/Model/Player.cs:122-136 | with the pattern anchored at the true end, every code gives a colour and none raises |
| Players.AnchoredAgrees | src/Model/Player.cs:122-136 | for codes that do not end in a newline, the corrected decoder and the source's agree |
| Players.PlayerIndicatorColor | src/Model/Player.cs:172 | a player's indicator is opaque ARGB 0xFF4AC925 |
| Players.Tally | src/Model/Player.cs:319-329 | a shot result keeps shots equal to hits plus misses, and no counter decreases |
| Players.TallyCounts | src/Model/Player.cs:313-332 | after a run of shots, the hits are the Hit and Destroyed results, the misses are the Miss results, and the shots are their sum |
| Players.ScoreOfShot | src/Model/Player.cs:250-258 | the raw score is 11 per hit, minus 1 per miss, minus 20 per ship lost; a hit adds 11, a miss takes 1 away, and any other result changes nothing |
| Players.AttemptPos | src/Model/Player.cs:352-361 | every random placement attempt is an anchor inside the 11 by 11 grid |
| Players.AttemptReaches | src/Model/Player.cs:352-361 | every anchor and direction inside the grid is drawn by some attempt |
| Players.PlaceWithRetry | src/Model/Player.cs:351-370 | placing one ship with retries consumes no more draws than it is given; which draw places the ship, and that all earlier ones were refused, is `Players.FirstAcceptedDraw` |
| Players.DeployAll | src/Model/Player.cs:344-371 | placing the fleet ship by ship consumes no more draws than it is given; what it places is `Players.DeployAllPlacesEveryShip` |
| Players.FirstAcceptedDraw | src/Model/Player.cs:351-370 | a ship is placed at the first attempt the grid accepts, and every earlier attempt was refused; if no attempt is accepted, the fleet is unchanged and every draw was spent |
| Players.DeployAllPlacesEveryShip | src/Model/Player.cs:344-371 | random deployment only places the named real ships, leaves other ships where they were, and once complete has every real ship anchored inside the grid |
| Players.ShipNamesOf | src/Model/Player.cs:167-171 | the player's ships are exactly the non-`None` names of the enumeration |
| Players.Player.constructor | src/Model/Player.cs:161-175 | a new player has zero counters, the green indicator colour, and the fleet its random deployment produces on an empty grid |
| Players.Player.IsDestroyed | src/Model/Player.cs:203-206 | the destroyed test compares ships killed with the enumeration's length minus one; its meaning, all five real ships sunk, is `Players.Player.DestroyedMeansAllSunk` |
| Players.Player.DestroyedMeansAllSunk | src/Model/Player.cs:203-206 | a player is destroyed exactly when ships killed equals the number of real ships |
| Players.Player.Score | src/Model/Player.cs:250-258 | the score property; its value in terms of hits, misses and ships lost is `Players.Player.ScoreMeaning` |
| Players.Player.ScoreMeaning | src/Model/Player.cs:250-258 | the score is 0 once all five ships are sunk, and otherwise 12 per hit minus shots minus 20 per ship lost, which is 11 per hit minus misses minus 20 per ship lost |
| Players.Player.Ship | src/Model/Player.cs:215-220 | asking for `None` gives nothing; any other name gives its ship, whose size is its value and which has a position exactly when deployed |
| Players.Player.Shoot | src/Model/Player.cs:313-332 | the result is the enemy grid's; the counters are tallied by it, and an exception leaves them as they were |
| Players.Player.PlaceShip | src/Model/Player.cs:351-370 | the retry loop of one ship leaves the fleet and the draw count that placing it at the first accepted attempt gives |
| Players.Player.RandomizeDeployment | src/Model/Player.cs:337-372 | the grid ends with the fleet that placing each real ship in enumeration order gives |
| Deployment.DeployStep | src/DeploymentController.cs:166-187 | the grid is asked only for an anchor inside it, and a legal move is made; an anchor outside raises exactly when asked to; a refused move is rethrown unless suppressed, in which case it becomes the message; direction and selection never change |
| Deployment.QuietDeployNeverRaises | src/DeploymentController.cs:188-191 | the two-argument deploy never raises; it either moves the ship there or leaves the fleet alone |
| Deployment.RotatedAnchor | src/DeploymentController.cs:110-121 | rotating flips the ship's direction |
| Deployment.RotationKeepsClickedTile | src/DeploymentController.cs:110-121 | the rotated ship still covers the clicked tile, at the same offset from its anchor |
| Deployment.RotationIsAnInvolution | src/DeploymentController.cs:110-121 | rotating twice about the same tile gives back the original placement |
| Deployment.RotateStep | src/DeploymentController.cs:104-130 | a legal rotation turns the clicked ship about the clicked tile and keeps the new direction; otherwise the old direction is restored, the failure becomes the message, and the fleet is as it was (against an atomic grid, see Left out) |
| Deployment.ClickStep | src/DeploymentController.cs:72-82 | a click outside the grid changes nothing; a legal click moves the selected ship there; a refused click reports exactly the grid's error for the new position (or the redeploy's own error when putting the ship back at its old position is refused too) and puts the ship back where it was (against an atomic grid, see Left out) |
| Deployment.DeploymentController.constructor | src/DeploymentController.cs:38-40 | deployment starts facing UpDown with the Tug selected and no message |
| Deployment.DeploymentController.DeployShip | src/DeploymentController.cs:166-187 | the screen and the fleet change as one deploy step says |
| Deployment.DeploymentController.DeployShipQuietly | src/DeploymentController.cs:188-191 | the two-argument deploy is the suppressing, in-range-only step |
| Deployment.DeploymentController.ChooseDirection | src/DeploymentController.cs:55-60 | a direction key changes only the current direction |
| Deployment.DeploymentController.RotateClickedShip | src/DeploymentController.cs:104-130 | rotating the ship under the cursor acts as the rotation step on that ship's placement |
| Deployment.DeploymentController.RightClick | src/DeploymentController.cs:95-101 | a right click on empty sea changes nothing; one on a ship rotates it |
| Deployment.DeploymentController.LeftClick | src/DeploymentController.cs:66-83 | clicking a ship in the side list selects it and nothing else; otherwise the click step is applied |
| Numerics.Wrap32 | src/HighScoreController.cs:74-79 | unchecked int arithmetic agrees with the exact value modulo 2^32 and is the identity in range |
| HighScores.EqualsIsEquality | src/HighScoreController.cs:130-133 | two scores are equal exactly when their names and values are |
| HighScores.Equals | src/HighScoreController.cs:130-133 | score equality field by field; that this is exactly equality of scores is `HighScores.EqualsIsEquality` |
| HighScores.CompareTo | src/HighScoreController.cs:134-137 | the sign of the wrapped `other.Value - Value`; where it agrees with the value order is `HighScores.CompareToAgreesWhenClose`, where it does not is `HighScores.CompareToOverflow` |
| HighScores.CompareToOverflow | src/HighScoreController.cs:134-137 | the subtraction comparison ranks -1 above 2147483647, the reverse of the value order |
| HighScores.ByValue | src/HighScoreController.cs:134-137 | the corrected comparison puts higher values first and ties equal values |
| HighScores.ByValueIsAnOrder | src/HighScoreController.cs:134-137 | the corrected comparison is antisymmetric and transitive |
| HighScores.CompareToAgreesWhenClose | src/HighScoreController.cs:134-137 | the source's comparison is the value order whenever the difference does not overflow |
| HighScores.CompareToAgreesOnModerateScores | src/HighScoreController.cs:134-137 | in particular it is correct for every pair of scores below 2^30 in magnitude |
| HighScores.CompareToObject | src/HighScoreController.cs:143-155 | comparing with a non-score gives 0; comparing with a score uses the typed comparison |
| HighScores.Insert | src/HighScoreController.cs:344-346 | inserting into a table sorted by descending value keeps it sorted and adds exactly that score |
| HighScores.SortDescending | src/HighScoreController.cs:192-196 | sorting gives a permutation of the scores in descending value |
| HighScores.NameBytes | src/HighScoreController.cs:93-95 | each name character is written as its low eight bits |
| HighScores.GetComponents | src/HighScoreController.cs:37-47 | a length from 0 to 8 gives that many low bytes of the value, little-endian (`LowBytes`); any other length is the exception |
| HighScores.LowBytesValue | src/HighScoreController.cs:39-45 | the k bytes copied from `BitConverter.GetBytes` are the value modulo 256^k, little-endian |
| HighScores.EmitAppend | src/HighScoreController.cs:85-105 | writing a list is writing its first part and then its second, unless the first part already raised |
| HighScores.EmitWritable | src/HighScoreController.cs:85-105 | a list whose every length is served writes to the end without raising, one record after another |
| HighScores.EmitFirstFailure | src/HighScoreController.cs:85-105 | at the first value whose length cannot be served, the file has gained every earlier record and that score's header, and the exception reports that length |
| HighScores.Emit | src/HighScoreController.cs:85-105 | the bytes a list write appends and the exception that stops it; its composition, success and first failure are `HighScores.EmitAppend`, `HighScores.EmitWritable` and `HighScores.EmitFirstFailure` |
| HighScores.EncodeAll | src/HighScoreController.cs:85-105 | the bytes a list write appends; that they read back is `HighScores.DecodeEncodeAll` |
| HighScores.ReadByte | src/HighScoreController.cs:70-79 | an unchecked read gives the file's byte at that position inside the file, and -1 past its end |
| HighScores.SafeReadByte | src/HighScoreController.cs:48-54 | a checked read gives the byte inside the file and raises at its end, reporting the position |
| HighScores.NameFrom | src/HighScoreController.cs:70-73 | the name has exactly the length the length byte said, one character per read |
| HighScores.Multiplier | src/HighScoreController.cs:74-79 | the int multiplier is 256^i for the first four bytes and wraps to 0 after |
| HighScores.ValueFromIsWrappedSum | src/HighScoreController.cs:74-79 | the value read is the exact weighted sum of its bytes, wrapped to an int |
| HighScores.ExactValueInside | src/HighScoreController.cs:74-79 | inside the file, only the first four value bytes count, little-endian |
| HighScores.RecordAt | src/HighScoreController.cs:67-80 | reading one record always moves forward and stays within the file |
| HighScores.DecodeFromStep | src/HighScoreController.cs:64-81 | the read loop either stops at a record's exception or prepends that record to the rest of the file |
| HighScores.Decode | src/HighScoreController.cs:55-84 | what `Read` returns for a file; `HighScores.HighScoreController.Read` is proved equal to it, and `HighScores.DecodeEncodeAll` reads written files back |
| HighScores.TruncatedValueIsNotReported | src/HighScoreController.cs:74-79 | a value cut short by the end of file is read with -1 bytes, and no exception is raised |
| HighScores.TruncatedNameRaises | src/HighScoreController.cs:67-74 | a name cut short makes the next length read raise at the end of the file |
| HighScores.StoredEncodable | src/HighScoreController.cs:37-47 | a value for which every written byte counts reads back as itself |
| HighScores.RecordReadsBack | src/HighScoreController.cs:55-105 | reading a written record gives back the stored score and the position after it |
| HighScores.RecordsReadBack | src/HighScoreController.cs:55-105 | reading written records, followed by anything, gives back the stored scores and then whatever reading the rest gives |
| HighScores.DecodeEncodeStored | src/HighScoreController.cs:55-105 | reading a written file gives back, in order, the scores as their bytes store them |
| HighScores.DecodeEncodeAll | src/HighScoreController.cs:55-105 | scores whose names and values survive encoding are written without error and read back unchanged |
| HighScores.FittingComponents | src/HighScoreController.cs:37-47 | the corrected byte count is at most four, and always enough to hold the value |
| HighScores.FittingComponentsRoundTrip | src/HighScoreController.cs:37-47 | with the corrected count, every list of scores with encodable names round-trips through the file |
| HighScores.ScoreOfOneReadsBackAsZero | src/HighScoreController.cs:39 | with zero bytes for the value 1, the score 1 reads back as 0 |
| HighScores.PartialRecordBreaksFile | src/HighScoreController.cs:91-101 | a file that ends in a header without its value length cannot be read at all |
| HighScores.UnwritableScoreBreaksFile | src/HighScoreController.cs:37-47 | appending any score whose count lies outside 0..8 (any score above 8^8) makes Write raise with that count after the score's header, and leaves a file that every later read rejects |
| HighScores.LargeScoreBreaksFile | src/HighScoreController.cs:37-47 | a score of 16777217, whose count is 9, raises while it is being written, and leaves a file that every later read rejects |
| HighScores.NotInMembers | src/HighScoreController.cs:238-242 | the scores saved are exactly the table's scores not already in the file |
| HighScores.NotIn | src/HighScoreController.cs:238-242 | the table's scores not already in the file, never more than the table holds; exactly which is `HighScores.NotInMembers` |
| HighScores.Pad | src/HighScoreController.cs:340-342 | a name shorter than three characters is padded with spaces to three; a longer name is kept |
| HighScores.AdmitProperties | src/HighScoreController.cs:344-346 | a new high score keeps the table's length and order; it replaces the last entry and adds the new score |
| HighScores.Admit | src/HighScoreController.cs:344-346 | the table after the last entry is removed, the new score added and the list sorted; its length, order and contents are `HighScores.AdmitProperties` |
| HighScores.HighScoreBeatsAll | src/HighScoreController.cs:317 | beating the last entry of a sorted table is beating some entry |
| HighScores.Loaded | src/HighScoreController.cs:192-196 | the table `LoadScores` builds: the file's scores sorted, or the read exception; `HighScores.HighScoreController.LoadScores` is proved equal to it |
| HighScores.SavedFileReadsBack | src/HighScoreController.cs:237-243 | after saving, the file reads back as the scores already in it followed by the new ones |
| HighScores.HighScoreController.constructor | src/HighScoreController.cs:180-181 | the controller starts with both score lists empty |
| HighScores.HighScoreController.ReadName | src/HighScoreController.cs:70-73 | the name loop reads the name function's characters, and stops at the end of the file |
| HighScores.HighScoreController.ReadValue | src/HighScoreController.cs:74-79 | the value loop computes the wrapped little-endian value |
| HighScores.HighScoreController.Read | src/HighScoreController.cs:55-84 | reading the file returns its decoding, including the exception |
| HighScores.HighScoreController.WriteName | src/HighScoreController.cs:93-95 | appends the name's bytes |
| HighScores.HighScoreController.WriteBytes | src/HighScoreController.cs:98-101 | appends the component bytes |
| HighScores.HighScoreController.Write | src/HighScoreController.cs:85-105 | appends the bytes of writing the list and reports its exception, if any |
| HighScores.HighScoreController.WriteScore | src/HighScoreController.cs:113-118 | writing one score is writing the one-element list |
| HighScores.HighScoreController.WriteNameValue | src/HighScoreController.cs:106-112 | writing a name and value is writing that score |
| HighScores.HighScoreController.LoadScores | src/HighScoreController.cs:192-196 | loading sets both score lists to the file's scores, sorted; a read exception leaves them unchanged |
| HighScores.HighScoreController.SaveScore | src/HighScoreController.cs:239-241 | a score already in the file is skipped; any other score is appended |
| HighScores.HighScoreController.SaveScores | src/HighScoreController.cs:237-243 | saving appends exactly the new scores and then records the table as in the file, unless a write raised |
| HighScores.HighScoreController.ReadHighScore | src/HighScoreController.cs:309-351 | with no table, the file is loaded first. A score that beats the last entry replaces it under the padded name, and the new scores are saved. Any other score changes nothing. An empty table or an unreadable file is the exception |

## Left out

- Drawing, sound, keyboard and mouse polling are not modelled: `DrawDeployment`, `DrawHighScores`, `HandleHighScoreInput`, the escape and `r` keys, the button rectangles, `GetClickedCell` and `GetShipMouseIsOver`. The tile and the side-list ship under the mouse are parameters of the click methods.
- `ReadHighScore`'s text-entry loop is not modelled: the entered name is a parameter, and the game-state calls around it are left out.
- Deployment.ClickStep, Deployment.RotateStep: the grid's `MoveShip` is modelled as atomic, so a refused move leaves the fleet as it was. SeaGrid.cs is not part of this model. Because of that, the fleet is already restored before the catch blocks redeploy the ship (src/DeploymentController.cs:78-81 and 124-126), and in the model that redeploy never changes the fleet. A grid that disturbs the moved ship when a move fails is not covered.
- The sea grid's own placement and attack checks (SeaGrid.cs) are not part of this model. Placement legality is the `PlacementRule` oracle and a shot's outcome is supplied by the caller. The grid height and width are part of the state.
- Players.Player.Shoot: counters are unbounded integers; the 32-bit wrap after 2^31 shots is not modelled.
- HighScores.NameBytes: a Dafny string is a sequence of Unicode scalar values, while .NET strings count UTF-16 code units (src/HighScoreController.cs:91-95), so the length byte and the name bytes would differ for a name holding a character outside the Basic Multilingual Plane. Such names cannot reach Write: names come from the ASCII text reader (line 338) and from `(char)ReadByte()` (line 72), which yields characters up to 0xFF or U+FFFF.
- AIEasy.AIEasyPlayer.GenerateCoords: the search loop is unbounded in the source; the model consumes a finite sequence of draws and reports when none was accepted.
- Players.PlaceWithRetry: the retry loop is unbounded in the source; the model consumes a finite sequence of draws and reports when the fleet was not completed within it.
- The player and AI constructors use `GetColorAnchored`. By `AnchoredAgrees` it equals `GetColor` on their codes, which have no trailing newline.
- The AI's abstract base class (`AIPlayer`), the player's enumerators, its `Game`, `Enemy`, `EnemyGrid` and `ReadyToDeploy` properties, and `Attack` are not modelled.
- HighScores.GetComponents: the floating-point length `ceil(log8 v)` is a parameter. The model does not compute the logarithm, nor its platform-dependent result (NaN or minus infinity) for values of 0 or less.
- HighScores.SortDescending: `List.Sort` is unstable and uses the overflowing `CompareTo`. The model sorts by value, which is the corrected comparison, and gives one of the possible orders of equal values.
- The file stream's open, append and close, and any I/O error other than end of file, are not modelled. The file is the controller's byte sequence, and its path is not part of this model.
- The commented-out text file format left in `LoadScores` and `SaveScores` is dead code and is not modelled.

## Findings

| source | as written | input that shows it | evidently intended | confidence | as-written member | corrected member |
|---|---|---|---|---|---|---|
| src/Model/Player.cs:17 | the pattern `^#(...)$` lets a code end in a newline, because .NET `$` also matches before a final newline; the decoder then looks up `'\n'` and raises | `GetColor("#abc\n")` | a code with a trailing newline is rejected and gives Transparent | not executed | Players.TrailingNewlineRaises | Players.GetColorAnchored |
| src/HighScoreController.cs:134-137 | `other.Value - Value` overflows an int when the values are 2^31 or more apart, which inverts the order | `Score(-1)` against `Score(2147483647)` ranks -1 first | compare the values without subtracting | not executed | HighScores.CompareToOverflow | HighScores.ByValue |
| src/HighScoreController.cs:39 | the byte count `ceil(log8 v)` is 0 for the value 1, so no value bytes are written | a score of 1 reads back as 0 | enough bytes to hold the value | not executed | HighScores.ScoreOfOneReadsBackAsZero | HighScores.FittingComponentsRoundTrip |
| src/HighScoreController.cs:37-47 | for values above 8^8 the count is 9 or more (9 up to 8^9, 10 up to 8^10, 11 beyond), and copying that many bytes from an eight-byte array raises. This happens after the record's header was written, so the file is left without the rest of the record | a score of 16777217 | at most four bytes per int, so every score can be written | not executed | HighScores.LargeScoreBreaksFile | HighScores.FittingComponents |
