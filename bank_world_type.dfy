/** BankWorldType: the kind of world a bank belongs to, each with the
    display string shown beside a save, and forWorld, which derives it from
    the client's set of world-type flags. */
module BankWorldTypes {

  datatype BankWorldType = DEFAULT | LEAGUE | TOURNAMENT | DEADMAN | DEADMAN_TOURNAMENT {
    function DisplayString(): string {
      match this
      case DEFAULT => ""
      case LEAGUE => "League"
      case TOURNAMENT => "Tournament"
      case DEADMAN => "DMM"
      case DEADMAN_TOURNAMENT => "DMM Tournament"
    }
  }

  /** The client's world-type flags; only three of them are looked at, the
      rest are told apart by name. */
  datatype WorldType = SEASONAL | DEADMAN_WORLD | TOURNAMENT_WORLD | OtherWorldType(name: string)

  /** forWorld: the first of seasonal, tournament, deadman that is present
      decides, and a seasonal deadman world is a deadman tournament. */
  function ForWorld(worldTypes: set<WorldType>): (r: BankWorldType)
    ensures r == DEADMAN_TOURNAMENT <==> SEASONAL in worldTypes && DEADMAN_WORLD in worldTypes
    ensures r == LEAGUE <==> SEASONAL in worldTypes && DEADMAN_WORLD !in worldTypes
    ensures r == TOURNAMENT <==> SEASONAL !in worldTypes && TOURNAMENT_WORLD in worldTypes
    ensures r == DEADMAN <==> SEASONAL !in worldTypes && TOURNAMENT_WORLD !in worldTypes && DEADMAN_WORLD in worldTypes
    ensures r == DEFAULT <==> SEASONAL !in worldTypes && TOURNAMENT_WORLD !in worldTypes && DEADMAN_WORLD !in worldTypes
  {
    if SEASONAL in worldTypes then
      (if DEADMAN_WORLD in worldTypes then DEADMAN_TOURNAMENT else LEAGUE)
    else if TOURNAMENT_WORLD in worldTypes then TOURNAMENT
    else if DEADMAN_WORLD in worldTypes then DEADMAN
    else DEFAULT
  }

  /** The three flags forWorld looks at. */
  const DecidingFlags: set<WorldType> := {SEASONAL, DEADMAN_WORLD, TOURNAMENT_WORLD}

  /** Only the three deciding flags affect the result. */
  lemma ForWorldOnlyDecidingFlags(worldTypes: set<WorldType>, others: set<WorldType>)
    requires SEASONAL !in others && DEADMAN_WORLD !in others && TOURNAMENT_WORLD !in others
    ensures ForWorld(worldTypes + others) == ForWorld(worldTypes)
    ensures ForWorld(worldTypes) == ForWorld(worldTypes * DecidingFlags)
  {
    var kept := worldTypes * DecidingFlags;
    assert SEASONAL in kept <==> SEASONAL in worldTypes;
    assert DEADMAN_WORLD in kept <==> DEADMAN_WORLD in worldTypes;
    assert TOURNAMENT_WORLD in kept <==> TOURNAMENT_WORLD in worldTypes;
  }

  /** Every world type has its own display string, and only DEFAULT's is empty. */
  lemma DisplayStringsDistinct(a: BankWorldType, b: BankWorldType)
    ensures a.DisplayString() == b.DisplayString() ==> a == b
    ensures a.DisplayString() == "" <==> a == DEFAULT
  {
  }
}
