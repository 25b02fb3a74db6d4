/** Taking a portal: the preq packet (BasicPacketHandler.cs:1369-1426). The
    character must stand on or next to a portal, wait four seconds between
    portals, be alive, and not walk into the other faction's base. */
module Travel {
  import opened Wrappers

  /** The portal types a character may walk through; every other type
      answers PORTAL_BLOCKED. */
  datatype PortalType =
    | MapPortal | TSNormal | Open | Miniland | TSEnd | End | Effect | ShopTeleport
    | OtherPortal

  datatype Portal = Portal(sourceX: int, sourceY: int, portalType: PortalType,
                           destinationMapId: int, destinationX: int, destinationY: int)

  /** On the portal's tile or one of the eight around it. */
  predicate NearPortal(p: Portal, x: int, y: int)
  {
    p.sourceY - 1 <= y <= p.sourceY + 1 && p.sourceX - 1 <= x <= p.sourceX + 1
  }

  /** Nearness is the Chebyshev distance of at most one. */
  lemma NearIsDistanceOne(p: Portal, x: int, y: int)
    ensures NearPortal(p, x, y) <==> Abs(x - p.sourceX) <= 1 && Abs(y - p.sourceY) <= 1
  {
  }

  function Abs(n: int): nat { if n < 0 then -n else n }

  /** The first portal from index `from` on that the character stands
      near, in the order the handler visits them. */
  function FirstNear(portals: seq<Portal>, x: int, y: int, from: nat): (r: Option<nat>)
    ensures r.Some? ==> from <= r.value < |portals| && NearPortal(portals[r.value], x, y)
    ensures r.Some? ==> forall j :: from <= j < r.value ==> !NearPortal(portals[j], x, y)
    ensures r.None? ==> forall j :: from <= j < |portals| ==> !NearPortal(portals[j], x, y)
    decreases |portals| - from
  {
    if from >= |portals| then None
    else if NearPortal(portals[from], x, y) then Some(from)
    else FirstNear(portals, x, y, from + 1)
  }

  /** The foreach loop over the portals, stopping at the first one near. */
  method FindNearPortal(portals: seq<Portal>, x: int, y: int) returns (found: Option<nat>)
    ensures found == FirstNear(portals, x, y, 0)
  {
    var i := 0;
    while i < |portals|
      invariant 0 <= i <= |portals|
      invariant FirstNear(portals, x, y, i) == FirstNear(portals, x, y, 0)
    {
      if NearPortal(portals[i], x, y) {
        return Some(i);
      }
      i := i + 1;
    }
    return None;
  }

  predicate Allowed(t: PortalType)
  {
    !t.OtherPortal?
  }

  /** The maps 130 and 131 are the two Act4 bases; faction 1 may not enter
      131, faction 2 may not enter 130. */
  predicate EnemyBase(faction: int, destinationMapId: int)
  {
    (faction == 1 && destinationMapId == 131) || (faction == 2 && destinationMapId == 130)
  }

  datatype PreqOutcome =
    | CantMove            // CANT_MOVE: too soon after the last portal, or no map
    | NoPortal            // no portal near: nothing happens
    | PortalBlocked       // PORTAL_BLOCKED
    | Refused             // dead, or the enemy's base: nothing happens
    | Travel(index: nat)  // leave the map through that portal

  /** The decision for the first portal near the character (`near`), at
      time `now` in seconds, the last portal having been taken at
      `lastPortal`. */
  function Preq(now: int, lastPortal: int, hasMap: bool, near: Option<nat>, portals: seq<Portal>,
                hp: int, faction: int): (r: PreqOutcome)
    requires near.Some? ==> near.value < |portals|
    ensures r.Travel? ==> near == Some(r.index)
  {
    if !(now - lastPortal >= 4) || !hasMap then CantMove
    else match near
      case None => NoPortal
      case Some(i) =>
        if !Allowed(portals[i].portalType) then PortalBlocked
        else if hp < 1 then Refused
        else if EnemyBase(faction, portals[i].destinationMapId) then Refused
        else Travel(i)
  }

  /** A character travels only when four seconds have passed, it is alive,
      stands next to an open portal, and the portal does not lead into the
      enemy's base; and then it travels through the first such portal. */
  lemma TravelExactly(now: int, lastPortal: int, hasMap: bool, near: Option<nat>, portals: seq<Portal>,
                      hp: int, faction: int, x: int, y: int)
    requires near.Some? ==> near.value < |portals| && NearPortal(portals[near.value], x, y)
    ensures var r := Preq(now, lastPortal, hasMap, near, portals, hp, faction);
      r.Travel? <==>
        && now - lastPortal >= 4 && hasMap && near.Some? && hp >= 1
        && Allowed(portals[near.value].portalType)
        && !EnemyBase(faction, portals[near.value].destinationMapId)
    ensures var r := Preq(now, lastPortal, hasMap, near, portals, hp, faction);
      r.Travel? ==> NearPortal(portals[r.index], x, y)
  {
  }
}
