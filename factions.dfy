/** The faction stone of the #guri answer 750 (BasicPacketHandler.cs:
    1308-1339): with a stone of the chosen faction in the inventory the
    character joins that faction and its Act4 record starts over. */
module Factions {
  import opened Wrappers
  import opened Text

  /** The stone of faction f has the item number 1623 + f. */
  const StoneBaseVNum := 1623

  datatype FactionOutcome =
    | NotThisAnswer       // another #guri answer, or a line the switch cannot read
    | Unavailable         // the server runs in Act4 mode: "You can not use this item now!"
    | NoChange            // no faction given, not a 16-bit number, or no stone of it
    | Changed(faction: int)

  /** `tokens` is the answer split on ' ' and '^'; `held` holds the item
      numbers of which the inventory has at least one. */
  function FactionChange(tokens: seq<string>, act4Mode: bool, held: set<int>): (r: FactionOutcome)
    ensures r.Changed? ==> ShortMin <= r.faction <= ShortMax && StoneBaseVNum + r.faction in held
  {
    if |tokens| <= 2 || tokens[2] != "750" then NotThisAnswer
    else if act4Mode then Unavailable
    else if |tokens| <= 3 then NoChange
    else match ParseShort(tokens[3])
      case None => NoChange
      case Some(f) => if StoneBaseVNum + f in held then Changed(f) else NoChange
  }

  /** The faction changes exactly when the answer is 750, the server is not
      in Act4 mode, the faction is a 16-bit number and its stone is held. */
  lemma ChangedExactly(tokens: seq<string>, act4Mode: bool, held: set<int>, f: int)
    ensures FactionChange(tokens, act4Mode, held) == Changed(f) <==>
      && |tokens| > 3 && tokens[2] == "750" && !act4Mode
      && ParseShort(tokens[3]) == Some(f) && StoneBaseVNum + f in held
  {
  }
}
