/** BasicPacketHandler: the packet handlers of one client session. Each
    method reads the packet, consults and updates the session's character,
    the other connected characters and the world registry, and appends what
    it sends, broadcasts or calls to `sent`. The decisions themselves are
    the functions of the other modules; each method is proved to carry out
    exactly the decision its function makes and to keep the world valid. */
module Handler {
  import opened Wrappers
  import opened Text
  import opened Events
  import opened Options
  import opened Friends
  import opened Groups
  import opened Chat
  import opened Travel
  import opened Vitals
  import opened Sessions
  import Bazaar
  import Mail
  import Quicklist
  import Factions

  class BasicPacketHandler {
    const world: World
    const me: Character    // Session.Character
    var sent: seq<Event>   // everything the handler has sent, broadcast or called, in order

    /** The handler of a newly connected session. */
    constructor (world: World, me: Character)
      requires me.id in world.sessions && world.sessions[me.id] == me
      ensures this.world == world && this.me == me && sent == []
    {
      this.world := world;
      this.me := me;
      sent := [];
    }

    /** The session's character is connected under its id. */
    predicate Connected()
    {
      me.id in world.sessions && world.sessions[me.id] == me
    }

    /** ... in a valid world. */
    ghost predicate Valid()
      reads world
    {
      Connected() && world.Valid()
    }

    // -------------------------------------------------------------------
    // gop (:73-169)

    /** A flag option stores the client's choice, inverted for the five
        inverted options, and changes no other option; group sharing is
        changed by the group's master only. `hasMap` says whether the
        session has a current map instance to broadcast on. */
    method CharacterOptionChange(option: CharacterOption, isActive: bool, hasMap: bool)
      requires Valid()
      modifies me`flags, world`groups, this`sent
      ensures Valid()
      ensures IsFlag(option) ==>
        && me.flags == (if StoredFlag(option, isActive) then old(me.flags) + {option} else old(me.flags) - {option})
        && me.Flag(option) == StoredFlag(option, isActive)
        && world.groups == old(world.groups)
        && sent == old(sent) + [Notice(Self, FlagMessage(option, StoredFlag(option, isActive))), Generated(Self, "stat")]
      ensures option.OtherOption? ==>
        me.flags == old(me.flags) && world.groups == old(world.groups) && sent == old(sent) + [Generated(Self, "stat")]
      ensures option.GroupSharing? ==> me.flags == old(me.flags)
      ensures option.GroupSharing? ==>
        match GroupIndexOf(old(world.groups), me.id)
        case None => world.groups == old(world.groups) && sent == old(sent)
        case Some(i) =>
          if old(world.groups)[i].members[0] != me.id then
            world.groups == old(world.groups) && sent == old(sent) + [Notice(Self, "NOT_MASTER")]
          else
            && world.groups == WithSharingMode(old(world.groups), i, SharingMode(isActive))
            && sent == old(sent) + (if hasMap then [Notice(OnMap(InGroup), SharingMessage(isActive))] else [])
                                 + [Generated(Self, "stat")]
    {
      if IsFlag(option) {
        var stored := StoredFlag(option, isActive);
        if stored {
          me.flags := me.flags + {option};
        } else {
          me.flags := me.flags - {option};
        }
        sent := sent + [Notice(Self, FlagMessage(option, stored)), Generated(Self, "stat")];
      } else if option.GroupSharing? {
        var found := GroupIndexOf(world.groups, me.id);
        if found.None? {
          return;
        }
        var i := found.value;
        if world.groups[i].members[0] != me.id {
          sent := sent + [Notice(Self, "NOT_MASTER")];
          return;
        }
        world.SetSharingMode(i, SharingMode(isActive));
        if hasMap {
          sent := sent + [Notice(OnMap(InGroup), SharingMessage(isActive))];
        }
        sent := sent + [Generated(Self, "stat")];
      } else {
        sent := sent + [Generated(Self, "stat")];
      }
    }

    // -------------------------------------------------------------------
    // dir (:214-221)

    /** Only the session's own character turns; the map hears of it when
        the session has a current map instance (`hasMap`). */
    method Dir(characterId: int, direction: int, hasMap: bool)
      requires Valid()
      modifies me`direction, this`sent
      ensures Valid()
      ensures characterId == me.id ==>
        && me.direction == direction
        && sent == old(sent) + (if hasMap then [Generated(OnMap(All), "dir")] else [])
      ensures characterId != me.id ==> me.direction == old(me.direction) && sent == old(sent)
    {
      if characterId == me.id {
        me.direction := direction;
        if hasMap {
          sent := sent + [Generated(OnMap(All), "dir")];
        }
      }
    }

    // -------------------------------------------------------------------
    // pulse (:1432-1440)

    /** The expected tick advances by 60 and a wrong tick disconnects; the
        timeout is cleared either way. */
    method Pulse(tick: int)
      requires Valid()
      modifies me`lastPulse, me`disconnected, this`sent
      ensures Valid()
      ensures PulseState(me.lastPulse, me.disconnected) == PulseStep(PulseState(old(me.lastPulse), old(me.disconnected)), tick)
      ensures sent == old(sent) + [Call("DeleteTimeout", [])]
    {
      me.lastPulse := me.lastPulse + 60;
      if tick != me.lastPulse {
        me.disconnected := true;
      }
      sent := sent + [Call("DeleteTimeout", [])];
    }

    // -------------------------------------------------------------------
    // say (:1548-1606)

    /** `message` is None for a packet without text; `muted` stands for a
        mute with a penalty on record; `onMap` is None without a current map
        instance, else whether the map is an Act4 map. */
    method Say(message: Option<string>, muted: bool, mainLanguageRequired: bool, inMainLanguage: bool, onMap: Option<bool>)
      requires Valid()
      modifies this`sent
      ensures Valid()
      ensures sent == old(sent) + SayEvents(muted, me.female, message,
                                            message.Some? && LanguageRefused(message.value, mainLanguageRequired, inMainLanguage),
                                            onMap, me.hp)
    {
      var refused := message.Some? && LanguageRefused(message.value, mainLanguageRequired, inMainLanguage);
      sent := sent + SayEvents(muted, me.female, message, refused, onMap, me.hp);
    }

    // -------------------------------------------------------------------
    // btk (:804-842)

    /** The friend message: "talk  <my id> <text>" to the friend's session,
        or through the channel hub when the friend is not connected here;
        `delivered` is the hub's answer. */
    method FriendTalk(packet: string, delivered: bool)
      requires Valid()
      modifies this`sent
      ensures Valid()
      ensures var tokens := Split(packet, {' '});
        if |tokens| >= 4 && ParseLong(tokens[2]).Some? then
          var t := ParseLong(tokens[2]).value;
          var talk := "talk  " + ShowInt(me.id) + " " + TalkText(tokens);
          if t in world.sessions then sent == old(sent) + [Raw(Player(t), talk)]
          else sent == old(sent) + [Raw(Remote(t), talk)] + (if delivered then [] else [Notice(Self, "FRIEND_OFFLINE")])
        else sent == old(sent)
    {
      var tokens := Split(packet, {' '});
      if |tokens| >= 4 {
        var parsed := ParseLong(tokens[2]);
        if parsed.Some? {
          var message := AssembleMessage(tokens, 3, 60);
          var talk := "talk  " + ShowInt(me.id) + " " + message;
          var t := parsed.value;
          if t in world.sessions {
            sent := sent + [Raw(Player(t), talk)];
          } else {
            sent := sent + [Raw(Remote(t), talk)];
            if !delivered {
              sent := sent + [Notice(Self, "FRIEND_OFFLINE")];
            }
          }
        }
      }
    }

    // -------------------------------------------------------------------
    // fdel (:845-869)

    /** Both sides lose their rows about each other; a friend who is not
        connected loses them through the persistence layer. */
    method FriendDelete(packet: string)
      requires Valid()
      modifies world.sessions.Values`relations, this`sent
      ensures Valid()
      ensures match RelationTarget(Split(packet, {' '}))
        case None =>
          && (forall k :: k in world.sessions ==> world.sessions[k].relations == old(world.sessions[k].relations))
          && sent == old(sent)
        case Some(t) =>
          && me.relations == DeleteRelation(old(me.relations), t)
          && (t in world.sessions && t != me.id ==>
                world.sessions[t].relations == DeleteRelation(old(world.sessions[t].relations), me.id))
          && (forall k :: k in world.sessions && k != me.id && k != t ==>
                world.sessions[k].relations == old(world.sessions[k].relations))
          && sent == old(sent) + [Generated(Self, "finit"), Notice(Self, "FRIEND_DELETED")] +
                     (if t in world.sessions then [Generated(Player(t), "finit")] else [Call("CharacterRelationDAO.Delete", [me.id, t])])
    {
      var target := RelationTarget(Split(packet, {' '}));
      if target.None? {
        return;
      }
      var t := target.value;
      me.relations := DeleteRelation(me.relations, t);
      sent := sent + [Generated(Self, "finit"), Notice(Self, "FRIEND_DELETED")];
      if t in world.sessions {
        var other := world.sessions[t];
        other.relations := DeleteRelation(other.relations, me.id);
        sent := sent + [Generated(Player(t), "finit")];
      } else {
        sent := sent + [Call("CharacterRelationDAO.Delete", [me.id, t])];
      }
    }

    // -------------------------------------------------------------------
    // fins (:872-916)

    /** A friend request goes to the target as a dialog and is recorded;
        every refusal answers with its message. */
    method FriendAdd(packet: string, friendlistFull: bool)
      requires Valid()
      modifies me`friendRequests, this`sent
      ensures Valid()
      ensures match Friends.FriendAdd(Split(packet, {' '}), me.id, me.relations, friendlistFull, old(world.Online()))
        case Asked(t) =>
          && me.friendRequests == old(me.friendRequests) + [t]
          && sent == old(sent) + [Dialog(Player(t), FinsChoice("-1", me.id), FinsChoice("-99", me.id), "FRIEND_ADD")]
        case NoRequest => me.friendRequests == old(me.friendRequests) && sent == old(sent)
        case ListFull => me.friendRequests == old(me.friendRequests) && sent == old(sent) + [Notice(Self, "FRIEND_FULL")]
        case AlreadyFriend => me.friendRequests == old(me.friendRequests) && sent == old(sent) + [Notice(Self, "ALREADY_FRIEND")]
        case BlockedByTarget => me.friendRequests == old(me.friendRequests) && sent == old(sent) + [Notice(Self, "BLACKLIST_BLOCKED")]
        case BlockingTarget => me.friendRequests == old(me.friendRequests) && sent == old(sent) + [Notice(Self, "BLACKLIST_BLOCKING")]
    {
      var outcome := Friends.FriendAdd(Split(packet, {' '}), me.id, me.relations, friendlistFull, world.Online());
      match outcome
      case Asked(t) =>
        sent := sent + [Dialog(Player(t), FinsChoice("-1", me.id), FinsChoice("-99", me.id), "FRIEND_ADD")];
        me.friendRequests := me.friendRequests + [t];
      case NoRequest =>
      case ListFull => sent := sent + [Notice(Self, "FRIEND_FULL")];
      case AlreadyFriend => sent := sent + [Notice(Self, "ALREADY_FRIEND")];
      case BlockedByTarget => sent := sent + [Notice(Self, "BLACKLIST_BLOCKED")];
      case BlockingTarget => sent := sent + [Notice(Self, "BLACKLIST_BLOCKING")];
    }

    // -------------------------------------------------------------------
    // #fins (:919-960)

    /** Accepting adds a Friend row on both sides; rejecting removes the
        requester's rows about me; any other answer with a full list tells
        both sides. The request itself stays recorded. */
    method FriendAddResponse(packet: string, friendlistFull: bool)
      requires Valid()
      modifies world.sessions.Values`relations, this`sent
      ensures Valid()
      ensures match FriendAnswer(AnswerTokens(packet), me.id, old(me.relations), friendlistFull, old(world.Online()))
        case NoAnswer =>
          && (forall k :: k in world.sessions ==> world.sessions[k].relations == old(world.sessions[k].relations))
          && sent == old(sent)
        case Befriend(t) =>
          && me.relations == AddRelation(old(me.relations), t, Friend)
          && world.sessions[t].relations == AddRelation(old(world.sessions[t].relations), me.id, Friend)
          && (forall k :: k in world.sessions && k != me.id && k != t ==>
                world.sessions[k].relations == old(world.sessions[k].relations))
          && sent == old(sent) + [Generated(Self, "finit"), Generated(Player(t), "finit"),
                                  Notice(Self, "FRIEND_ADDED"), Notice(Player(t), "FRIEND_ADDED")]
        case Reject(t) =>
          && world.sessions[t].relations == DeleteRelation(old(world.sessions[t].relations), me.id)
          && (forall k :: k in world.sessions && k != t ==>
                world.sessions[k].relations == old(world.sessions[k].relations))
          && sent == old(sent) + [Raw(Player(t), "FRIEND_REJECTED")]
        case BothFull(t) =>
          && (forall k :: k in world.sessions ==> world.sessions[k].relations == old(world.sessions[k].relations))
          && sent == old(sent) + [Notice(Self, "FRIEND_FULL"), Notice(Player(t), "FRIEND_FULL")]
    {
      var answer := FriendAnswer(AnswerTokens(packet), me.id, me.relations, friendlistFull, world.Online());
      match answer
      case NoAnswer =>
      case Befriend(t) =>
        var other := world.sessions[t];
        me.relations := AddRelation(me.relations, t, Friend);
        other.relations := AddRelation(other.relations, me.id, Friend);
        sent := sent + [Generated(Self, "finit"), Generated(Player(t), "finit"),
                        Notice(Self, "FRIEND_ADDED"), Notice(Player(t), "FRIEND_ADDED")];
      case Reject(t) =>
        var other := world.sessions[t];
        other.relations := DeleteRelation(other.relations, me.id);
        sent := sent + [Raw(Player(t), "FRIEND_REJECTED")];
      case BothFull(t) =>
        sent := sent + [Notice(Self, "FRIEND_FULL"), Notice(Player(t), "FRIEND_FULL")];
    }

    // -------------------------------------------------------------------
    // bldel and blins (:963-992)

    /** Removes every row about the character from my list. */
    method BlacklistDelete(packet: string)
      requires Valid()
      modifies me`relations, this`sent
      ensures Valid()
      ensures match RelationTarget(Split(packet, {' '}))
        case None => me.relations == old(me.relations) && sent == old(sent)
        case Some(t) =>
          && me.relations == DeleteRelation(old(me.relations), t)
          && sent == old(sent) + [Generated(Self, "blinit"), Notice(Self, "BLACKLIST_DELETED")]
    {
      var target := RelationTarget(Split(packet, {' '}));
      if target.Some? {
        me.relations := DeleteRelation(me.relations, target.value);
        sent := sent + [Generated(Self, "blinit"), Notice(Self, "BLACKLIST_DELETED")];
      }
    }

    /** Adds a Blocked row for the character to my list. */
    method BlacklistAdd(packet: string)
      requires Valid()
      modifies me`relations, this`sent
      ensures Valid()
      ensures match RelationTarget(Split(packet, {' '}))
        case None => me.relations == old(me.relations) && sent == old(sent)
        case Some(t) =>
          && me.relations == AddRelation(old(me.relations), t, Blocked)
          && IsBlocking(me.relations, t)
          && sent == old(sent) + [Generated(Self, "blinit"), Notice(Self, "BLACKLIST_ADDED")]
    {
      var target := RelationTarget(Split(packet, {' '}));
      if target.Some? {
        me.relations := AddRelation(me.relations, target.value, Blocked);
        sent := sent + [Generated(Self, "blinit"), Notice(Self, "BLACKLIST_ADDED")];
      }
    }

    // -------------------------------------------------------------------
    // #revival (:1475-1542)

    /** `seeds` is the inventory's count of seeds of power; `maxHp` and
        `maxMp` are HPLoad and MPLoad; `hasMap` says whether the session
        has a current map instance; `now` is the time in seconds. A revival
        paid in gold stamps the last PvP revival with `now`. */
    method Revive(packet: string, seeds: int, maxHp: nat, maxMp: nat, hasMap: bool, now: int)
      requires Valid()
      modifies me`hp, me`mp, me`gold, me`lastPvpRevive, this`sent
      ensures Valid()
      ensures match Vitals.Revive(Split(packet, {' ', '^'}), old(me.hp), me.level, seeds, old(me.gold), maxHp, maxMp)
        case NotRevived =>
          && me.hp == old(me.hp) && me.mp == old(me.mp) && me.gold == old(me.gold)
          && me.lastPvpRevive == old(me.lastPvpRevive) && sent == old(sent)
        case FirstPosition(lacksSeeds) =>
          && me.hp == old(me.hp) && me.mp == old(me.mp) && me.gold == old(me.gold)
          && me.lastPvpRevive == old(me.lastPvpRevive)
          && sent == old(sent) + RevivalEvents(FirstPosition(lacksSeeds), me.id, hasMap)
        case Restored(hp, mp, seedsUsed, goldPaid) =>
          && me.hp == hp && me.mp == mp && me.gold == old(me.gold) - goldPaid
          && me.lastPvpRevive == (if goldPaid > 0 then now else old(me.lastPvpRevive))
          && sent == old(sent) + RevivalEvents(Restored(hp, mp, seedsUsed, goldPaid), me.id, hasMap)
    {
      var r := Vitals.Revive(Split(packet, {' ', '^'}), me.hp, me.level, seeds, me.gold, maxHp, maxMp);
      match r
      case NotRevived =>
      case FirstPosition(_) =>
        sent := sent + RevivalEvents(r, me.id, hasMap);
      case Restored(hp, mp, _, goldPaid) =>
        me.hp := hp;
        me.mp := mp;
        me.gold := me.gold - goldPaid;
        if goldPaid > 0 {
          me.lastPvpRevive := now;
        }
        sent := sent + RevivalEvents(r, me.id, hasMap);
    }

    // -------------------------------------------------------------------
    // preq (:1369-1426)

    /** `now` is the server's running time in seconds; `portals` are the
        map's portals followed by the character's extra portals; and
        `returnsToBase` says whether the portal leads from an instance back
        to a base map. */
    method Preq(now: int, hasMap: bool, portals: seq<Portal>, returnsToBase: bool)
      requires Valid()
      modifies me`lastPortal, this`sent
      ensures Valid()
      ensures var near := FirstNear(portals, me.positionX, me.positionY, 0);
        match Travel.Preq(now, old(me.lastPortal), hasMap, near, portals, me.hp, me.faction)
        case Travel(i) =>
          && me.lastPortal == now
          && sent == old(sent) + [Call("LeaveMap", [me.id]),
                                  if returnsToBase then Call("ChangeMap", [me.id])
                                  else Call("ChangeMapInstance", [me.id, portals[i].destinationX, portals[i].destinationY])]
        case CantMove => me.lastPortal == old(me.lastPortal) && sent == old(sent) + [Notice(Self, "CANT_MOVE")]
        case PortalBlocked => me.lastPortal == old(me.lastPortal) && sent == old(sent) + [Notice(Self, "PORTAL_BLOCKED")]
        case NoPortal => me.lastPortal == old(me.lastPortal) && sent == old(sent)
        case Refused => me.lastPortal == old(me.lastPortal) && sent == old(sent)
    {
      if !(now - me.lastPortal >= 4) || !hasMap {
        sent := sent + [Notice(Self, "CANT_MOVE")];
        return;
      }
      var near := FindNearPortal(portals, me.positionX, me.positionY);
      match Travel.Preq(now, me.lastPortal, hasMap, near, portals, me.hp, me.faction)
      case Travel(i) =>
        var p := portals[i];
        me.lastPortal := now;
        sent := sent + [Call("LeaveMap", [me.id]),
                        if returnsToBase then Call("ChangeMap", [me.id])
                        else Call("ChangeMapInstance", [me.id, p.destinationX, p.destinationY])];
      case CantMove =>
      case PortalBlocked =>
        sent := sent + [Notice(Self, "PORTAL_BLOCKED")];
      case NoPortal =>
      case Refused =>
    }

    // -------------------------------------------------------------------
    // pjoin (:616-675)

    /** What pjoin decides for a request to `cid`: the group registry, and
        whether the target is connected, blocks me, or refuses requests. */
    function RequestTo(cid: int): RequestOutcome
      reads world, world.sessions.Values`relations, world.sessions.Values`friendRequests, world.sessions.Values`flags
    {
      RequestDecision(world.groups, world.groupCapacity, me.id, cid, cid in world.sessions,
                      BlockedBy(world.Online(), me.id, cid),
                      cid in world.sessions && world.sessions[cid].Flag(GroupRequestBlocked))
    }

    /** A request is recorded and offered to the target as a yes/no dialog,
        or refused with its message; asking to share the return point sends
        a dialog to every other member of my group. */
    method GroupJoin(requestType: int, characterId: int)
      requires Valid() && world.NoSelfRequests()
      modifies me`groupSentRequests, this`sent
      ensures Valid() && world.NoSelfRequests()
      ensures requestType == Requested || requestType == Invited ==>
        if old(RequestTo(characterId)).Recorded? then
          && me.groupSentRequests == old(me.groupSentRequests) + [characterId]
          && sent == old(sent) + RequestEvents(Recorded, me.id, characterId)
        else
          && me.groupSentRequests == old(me.groupSentRequests)
          && sent == old(sent) + RequestEvents(old(RequestTo(characterId)), me.id, characterId)
      ensures requestType == Sharing ==>
        && me.groupSentRequests == old(me.groupSentRequests)
        && sent == old(sent) +
             match me.group
             case None => []
             case Some(gid) => [Notice(Self, "GROUP_SHARE_INFO")] + ShareDialogs(GroupMembers(world.groups, gid), me.id)
      ensures requestType !in {Requested, Invited, Sharing} ==>
        me.groupSentRequests == old(me.groupSentRequests) && sent == old(sent)
    {
      if requestType == Requested || requestType == Invited {
        var outcome := RequestTo(characterId);
        if outcome.Recorded? {
          me.groupSentRequests := me.groupSentRequests + [characterId];
        }
        sent := sent + RequestEvents(outcome, me.id, characterId);
      } else if requestType == Sharing {
        match me.group {
        case None =>
        case Some(gid) =>
          sent := sent + [Notice(Self, "GROUP_SHARE_INFO")] + ShareDialogs(GroupMembers(world.groups, gid), me.id);
        }
      }
    }

    // -------------------------------------------------------------------
    // #pjoin (:678-784)

    /** Answering a group request. The answer counts only while the
        requester still holds my id among its sent requests, and that entry
        is removed before anything else, so a replayed answer to a request
        made once finds nothing. `hasMap` says whether the session has a
        current map instance to broadcast on. */
    method GroupJoinValid(packet: string, hasMap: bool)
      requires Valid() && world.NoSelfRequests()
      modifies world.sessions.Values`groupSentRequests, world.sessions.Values`group
      modifies world`groups, world`nextGroupId, this`sent
      ensures Valid() && world.NoSelfRequests()
      ensures !PendingAnswer(packet, old(world.PendingTo(me.id))) ==>
        && world.groups == old(world.groups) && world.nextGroupId == old(world.nextGroupId) && sent == old(sent)
        && (forall k :: k in world.sessions ==>
              && world.sessions[k].groupSentRequests == old(world.sessions[k].groupSentRequests)
              && world.sessions[k].group == old(world.sessions[k].group))
      ensures PendingAnswer(packet, old(world.PendingTo(me.id))) ==>
        var cid := DecodePJoin(packet).value.characterId;
        && cid != me.id
        && world.sessions[cid].groupSentRequests == RemoveFirst(old(world.sessions[cid].groupSentRequests), me.id)
        && (forall k :: k in world.sessions && k != cid ==>
              world.sessions[k].groupSentRequests == old(world.sessions[k].groupSentRequests))
        && (forall k :: k in world.sessions && k != cid && k != me.id ==>
              world.sessions[k].group == old(world.sessions[k].group))
      ensures PendingAnswer(packet, old(world.PendingTo(me.id))) ==>
        var p := DecodePJoin(packet).value;
        var cid := p.characterId;
        var d := AcceptDecision(old(world.groups), world.groupCapacity, cid, me.id);
        p.requestType == Accepted ==>
          && world.groups == AcceptGroups(old(world.groups), world.groupCapacity, cid, me.id, old(world.nextGroupId))
          && world.nextGroupId == old(world.nextGroupId) + (if d.Created? then 1 else 0)
          && world.sessions[cid].group == AcceptedRef(old(world.sessions[cid].group), old(world.groups), d, cid, me.id, old(world.nextGroupId), cid)
          && me.group == AcceptedRef(old(me.group), old(world.groups), d, cid, me.id, old(world.nextGroupId), me.id)
          && sent == old(sent) + AcceptEvents(d, cid, hasMap)
      ensures PendingAnswer(packet, old(world.PendingTo(me.id))) ==>
        var p := DecodePJoin(packet).value;
        var cid := p.characterId;
        && (p.requestType != Accepted ==>
              && world.groups == old(world.groups) && world.nextGroupId == old(world.nextGroupId)
              && world.sessions[cid].group == old(world.sessions[cid].group) && me.group == old(me.group))
        && (p.requestType == Declined ==> sent == old(sent) + [Notice(Player(cid), "REFUSED_GROUP_REQUEST")])
        && (p.requestType == AcceptedShare ==>
              sent == old(sent) + [Notice(Self, "ACCEPTED_SHARE")] + ShareAccepted(me.group, world.groups, world.sessions[cid]))
        && (p.requestType == DeclinedShare ==> sent == old(sent) + [Notice(Self, "REFUSED_SHARE")])
        && (p.requestType !in {Accepted, Declined, AcceptedShare, DeclinedShare} ==> sent == old(sent))
    {
      var decoded := DecodePJoin(packet);
      if decoded.None? || decoded.value.characterId == 0 || decoded.value.characterId !in world.sessions {
        return;
      }
      var p := decoded.value;
      var target := world.sessions[p.characterId];
      if me.id !in target.groupSentRequests {
        return;
      }
      Answer(target, p.requestType, hasMap);
    }

    /** The answer to a pending request of `target`: the request is
        withdrawn, then accepting joins or creates a group as AcceptGroups
        decides and sets the back references of whoever joined; the other
        answers only send messages. */
    method Answer(target: Character, requestType: int, hasMap: bool)
      requires Valid() && world.NoSelfRequests()
      requires target.id in world.sessions && world.sessions[target.id] == target
      requires me.id in target.groupSentRequests
      modifies target`groupSentRequests, target`group, me`group, world`groups, world`nextGroupId, this`sent
      ensures Valid() && world.NoSelfRequests()
      ensures target != me
      ensures target.groupSentRequests == RemoveFirst(old(target.groupSentRequests), me.id)
      ensures multiset(old(target.groupSentRequests))[me.id] == 1 ==> me.id !in target.groupSentRequests
      ensures requestType == Accepted ==>
        var d := AcceptDecision(old(world.groups), world.groupCapacity, target.id, me.id);
        && world.groups == AcceptGroups(old(world.groups), world.groupCapacity, target.id, me.id, old(world.nextGroupId))
        && world.nextGroupId == old(world.nextGroupId) + (if d.Created? then 1 else 0)
        && target.group == AcceptedRef(old(target.group), old(world.groups), d, target.id, me.id, old(world.nextGroupId), target.id)
        && me.group == AcceptedRef(old(me.group), old(world.groups), d, target.id, me.id, old(world.nextGroupId), me.id)
        && sent == old(sent) + AcceptEvents(d, target.id, hasMap)
      ensures requestType != Accepted ==>
        && world.groups == old(world.groups) && world.nextGroupId == old(world.nextGroupId)
        && target.group == old(target.group) && me.group == old(me.group)
      ensures requestType == Declined ==> sent == old(sent) + [Notice(Player(target.id), "REFUSED_GROUP_REQUEST")]
      ensures requestType == AcceptedShare ==>
        sent == old(sent) + [Notice(Self, "ACCEPTED_SHARE")] + ShareAccepted(me.group, world.groups, target)
      ensures requestType == DeclinedShare ==> sent == old(sent) + [Notice(Self, "REFUSED_SHARE")]
      ensures requestType !in {Accepted, Declined, AcceptedShare, DeclinedShare} ==> sent == old(sent)
    {
      RemoveFirstOnce(target.groupSentRequests, me.id);
      target.groupSentRequests := RemoveFirst(target.groupSentRequests, me.id);
      if requestType == Accepted {
        var d := world.Accept(target, me);
        sent := sent + AcceptEvents(d, target.id, hasMap);
      } else if requestType == Declined {
        sent := sent + [Notice(Player(target.id), "REFUSED_GROUP_REQUEST")];
      } else if requestType == AcceptedShare {
        sent := sent + [Notice(Self, "ACCEPTED_SHARE")] + ShareAccepted(me.group, world.groups, target);
      } else if requestType == DeclinedShare {
        sent := sent + [Notice(Self, "REFUSED_SHARE")];
      }
    }

    // -------------------------------------------------------------------
    // c_buy (:268-340)

    /** Buying from the bazaar. `listing` is the bazaar's record of the
        listing asked for, if any; `sellerExists`, `canAdd` and `added` are
        the answers of the character store and of the inventory. The price
        is taken only when the purchase goes through. */
    method BuyBazaar(listing: Option<Bazaar.Listing>, amount: int, sellerExists: bool, canAdd: bool, added: bool)
      returns (outcome: Bazaar.BuyOutcome)
      requires Valid()
      modifies me`gold, this`sent
      ensures Valid()
      ensures outcome == Bazaar.Buy(listing, amount, old(me.gold), sellerExists, canAdd)
      ensures me.gold == old(me.gold) - (if outcome.Bought? then outcome.price else 0)
      ensures old(me.gold) >= 0 ==> me.gold >= 0
      ensures sent == old(sent) + BuyEvents(outcome, amount, added)
    {
      if listing.None? || amount <= 0 {
        outcome := Bazaar.StateChanged;
      } else {
        var l := listing.value;
        var price := amount * l.unitPrice;
        if me.gold < price {
          outcome := Bazaar.NotEnoughMoney;
        } else if !sellerExists {
          outcome := Bazaar.SellerGone;
        } else if amount > l.stock {
          outcome := Bazaar.StateChanged;
        } else if !canAdd {
          outcome := Bazaar.NotEnoughPlace;
        } else if l.isPackage && amount != l.listedAmount {
          outcome := Bazaar.PackageSplit;
        } else {
          outcome := Bazaar.Bought(price);
          me.gold := me.gold - price;
        }
      }
      sent := sent + BuyEvents(outcome, amount, added);
    }

    // -------------------------------------------------------------------
    // c_reg (:402-480)

    /** Listing an item in the bazaar. `medal` says a bazaar medal is active;
        `exchangeHasItems`, `isShopping`, `itemSellable`, `bazaarCount` and
        `moved` are the answers of the exchange, the shop and the inventory.
        The tax is taken only when the listing is made. */
    method SellBazaar(req: Bazaar.SellRequest, medal: bool, exchangeHasItems: bool, isShopping: bool,
                      itemSellable: bool, bazaarCount: int, moved: bool) returns (outcome: Bazaar.SellOutcome)
      requires Valid()
      modifies me`gold, this`sent
      ensures Valid()
      ensures outcome == Bazaar.Sell(req, Bazaar.Seller(old(me.gold), medal, exchangeHasItems, isShopping,
                                                        itemSellable, bazaarCount, moved))
      ensures me.gold == old(me.gold) - (if outcome.Listed? then outcome.tax else 0)
      ensures old(me.gold) >= 0 ==> me.gold >= 0
      ensures sent == old(sent) + SellEvents(outcome, req)
    {
      var price := req.unitPrice * req.amount;
      var tax := if medal then Bazaar.TaxWithMedal(price) else Bazaar.TaxWithoutMedal(price);
      if me.gold < tax || req.amount <= 0 || exchangeHasItems || isShopping || !itemSellable {
        outcome := Bazaar.Ignored;
      } else if bazaarCount > Bazaar.ListingLimit(medal) {
        outcome := Bazaar.LimitExceeded;
      } else if price >= Bazaar.PriceCeiling(medal) {
        outcome := Bazaar.PriceExceeded;
      } else if !moved {
        outcome := Bazaar.Ignored;
      } else {
        match Bazaar.DurationHours(req.durability) {
        case None =>
          outcome := Bazaar.MovedWithoutListing;
        case Some(hours) =>
          outcome := Bazaar.Listed(tax, hours);
          me.gold := me.gold - tax;
        }
      }
      sent := sent + SellEvents(outcome, req);
    }

    // -------------------------------------------------------------------
    // pcl (:483-548)

    /** Taking (4) or refusing (5) the parcel of a mail; `canAdd` and
        `added` are the inventory's answers. */
    method GetGift(packet: string, canAdd: bool, added: bool)
      requires Valid()
      modifies me`mails, this`sent
      ensures Valid()
      ensures var r := Mail.Gift(Split(packet, {' '}), old(me.mails), canAdd, added);
        me.mails == r.mails && sent == old(sent) + r.events
    {
      var r := Mail.Gift(Split(packet, {' '}), me.mails, canAdd, added);
      me.mails := r.mails;
      sent := sent + r.events;
    }

    // -------------------------------------------------------------------
    // pst (:1609-1707)

    /** Sending stores the sender's copy under the next key of the box;
        opening marks a mail read; deleting removes it. `receiver` is the
        id the character store finds for the receiver's name. */
    method SendMail(packet: string, receiver: Option<int>)
      requires Valid()
      modifies me`mails, this`sent
      ensures Valid()
      ensures match Mail.ParsePost(Split(packet, {' '}))
        case SendPost(_, title, message) =>
          (match receiver
           case None => me.mails == old(me.mails) && sent == old(sent) + [Notice(Self, "USER_NOT_FOUND")]
           case Some(rid) =>
             && (exists key :: Mail.IsNextKey(old(me.mails), key) &&
                   me.mails == old(me.mails)[key := Mail.Compose(title, message, rid, me.id, me.morph, true)])
             && sent == old(sent) + MailedEvents(me.id, rid))
        case OpenPost(id, _) =>
          me.mails == Mail.Open(old(me.mails), id) && sent == old(sent) + OpenEvents(old(me.mails), id)
        case DeletePost(id, postType) =>
          && me.mails == Mail.Delete(old(me.mails), id)
          && sent == old(sent) + (if id in old(me.mails) then DeleteEvents(id, postType) else [])
        case NoPost => me.mails == old(me.mails) && sent == old(sent)
    {
      var post := Mail.ParsePost(Split(packet, {' '}));
      match post {
      case SendPost(_, title, message) =>
        if receiver.None? {
          sent := sent + [Notice(Self, "USER_NOT_FOUND")];
          return;
        }
        var rid := receiver.value;
        var copy := Mail.Compose(title, message, rid, me.id, me.morph, true);
        var key := Mail.NextMailKey(me.mails);
        me.mails := me.mails[key := copy];
        sent := sent + MailedEvents(me.id, rid);
      case OpenPost(id, _) =>
        if id in me.mails {
          var events := OpenEvents(me.mails, id);
          if !me.mails[id].isOpened {
            me.mails := me.mails[id := me.mails[id].(isOpened := true)];
          }
          sent := sent + events;
        }
      case DeletePost(id, postType) =>
        if id in me.mails {
          sent := sent + DeleteEvents(id, postType);
          me.mails := me.mails - {id};
        }
      case NoPost =>
      }
    }

    // -------------------------------------------------------------------
    // qset (:1710-1793)

    /** The quick-bar edit: RemoveAll then Add for types 0 and 1, the
        exchange of two entries' slots for type 2, RemoveAll for type 3;
        each reply goes back to the client. */
    method SetQuicklist(packet: string)
      requires Valid()
      modifies me`quicklist, this`sent
      ensures Valid()
      ensures var r := Quicklist.Qset(Split(packet, {' '}), old(me.quicklist), me.useSp, me.morph);
        me.quicklist == r.entries && sent == old(sent) + SelfPackets(r.replies)
    {
      var list, replies := Quicklist.Edit(Split(packet, {' '}), me.quicklist, me.useSp, me.morph);
      me.quicklist := list;
      sent := sent + SelfPackets(replies);
    }

    // -------------------------------------------------------------------
    // guri 4 (:1005-1058)

    /** The presentation text, set with a presentation item, and the
        speaker, which a muted character cannot use. `held` holds the item
        numbers of which the inventory has at least one; `speakerWord` is
        the translated word for "speaker". */
    method Guri(packet: string, held: set<int>, speakerWord: string, muted: bool)
      requires Valid()
      modifies me`biography, this`sent
      ensures Valid()
      ensures var tokens := Split(packet, {' '});
        if |tokens| >= 4 && tokens[2] == "4" && tokens[3] == "2"
           && PresentationItem(held).Some? && PresentationText(tokens).Some? then
          && me.biography == PresentationText(tokens).value
          && sent == old(sent) + [Notice(Self, "INTRODUCTION_SET"), Call("RemoveItemAmount", [PresentationItem(held).value, 1])]
        else if |tokens| >= 4 && tokens[2] == "4" && tokens[3] == "3" && SpeakerVNum in held then
          && me.biography == old(me.biography)
          && sent == old(sent) + (if muted then [Notice(Self, "SPEAKER_CANT_BE_USED")]
                                  else [Call("RemoveItemAmount", [SpeakerVNum, 1]),
                                        Speech(Server, SpeakerText(speakerWord, me.name, tokens), 13)])
        else me.biography == old(me.biography) && sent == old(sent)
    {
      var tokens := Split(packet, {' '});
      if |tokens| < 4 || tokens[2] != "4" {
        return;
      }
      if tokens[3] == "2" {
        var item := PresentationItem(held);
        if item.Some? {
          var message := BuildPresentationText(tokens);
          if message.None? {
            return;
          }
          me.biography := message.value;
          sent := sent + [Notice(Self, "INTRODUCTION_SET"), Call("RemoveItemAmount", [item.value, 1])];
        }
      } else if tokens[3] == "3" && SpeakerVNum in held {
        var message := BuildSpeakerText(speakerWord, me.name, tokens);
        if muted {
          sent := sent + [Notice(Self, "SPEAKER_CANT_BE_USED")];
          return;
        }
        sent := sent + [Call("RemoveItemAmount", [SpeakerVNum, 1]), Speech(Server, message, 13)];
      }
    }

    // -------------------------------------------------------------------
    // #guri 750 (:1171-1175, 1308-1335)

    /** The faction stone: the chosen faction and a fresh Act4 record.
        `act4Mode` is the server's Act4Mode setting; `held` holds the item
        numbers of which the inventory has at least one. */
    method FactionChange(packet: string, act4Mode: bool, held: set<int>)
      requires Valid()
      modifies me`faction, me`act4Kill, me`act4Dead, me`act4Points, this`sent
      ensures Valid()
      ensures match Factions.FactionChange(Split(packet, {' ', '^'}), act4Mode, held)
        case Changed(f) =>
          && me.faction == f && me.act4Kill == 0 && me.act4Dead == 0 && me.act4Points == 0
          && sent == old(sent) + FactionEvents(f, me.compliment)
        case Unavailable =>
          && me.faction == old(me.faction) && me.act4Kill == old(me.act4Kill)
          && me.act4Dead == old(me.act4Dead) && me.act4Points == old(me.act4Points)
          && sent == old(sent) + [Raw(Self, "msg 0 You can not use this item now!")]
        case NoChange =>
          && me.faction == old(me.faction) && me.act4Kill == old(me.act4Kill)
          && me.act4Dead == old(me.act4Dead) && me.act4Points == old(me.act4Points)
          && sent == old(sent)
        case NotThisAnswer =>
          && me.faction == old(me.faction) && me.act4Kill == old(me.act4Kill)
          && me.act4Dead == old(me.act4Dead) && me.act4Points == old(me.act4Points)
          && sent == old(sent)
    {
      match Factions.FactionChange(Split(packet, {' ', '^'}), act4Mode, held) {
      case NotThisAnswer =>
      case Unavailable =>
        sent := sent + [Raw(Self, "msg 0 You can not use this item now!")];
      case NoChange =>
      case Changed(f) =>
        me.faction := f;
        me.act4Kill := 0;
        me.act4Dead := 0;
        me.act4Points := 0;
        sent := sent + [Call("RemoveItemAmount", [Factions.StoneBaseVNum + f, 1]),
                        Raw(Self, ScorePacket(me.act4Kill, me.act4Dead, me.act4Points, me.compliment)),
                        Generated(Self, "fs"), Generated(Self, "eff"),
                        Notice(Self, "GET_PROTECTION_POWER_" + ShowInt(f))];
      }
    }

    // -------------------------------------------------------------------
    // whisper (:1965-2041)

    /** The receiver's session on this channel, as the whisper sees it. */
    function WhisperTargetOf(target: Option<int>): (t: Option<WhisperTarget>)
      requires target.Some? ==> target.value in world.sessions
      reads world.sessions.Values`gmPvtBlock, world.sessions.Values`flags
      ensures t.Some? <==> target.Some?
      ensures t.Some? ==> t.value.id == target.value
    {
      match target
      case None => None
      case Some(k) =>
        var c := world.sessions[k];
        Some(WhisperTarget(k, c.isAdmin, c.gmPvtBlock, c.Flag(WhisperBlocked)))
    }

    /** The whisper "<name> <text>" or "GM <name> <text>". `receiver` is the
        id the character store finds for the name; `target` is the session
        on this channel with that name; `channel` is the hub's answer when
        there is none. */
    method Whisper(message: string, receiver: Option<int>, target: Option<int>, channel: Option<int>)
      requires Valid()
      requires target.Some? ==> target.value in world.sessions && world.sessions[target.value].name == WhisperReceiver(message)
      modifies this`sent
      ensures Valid()
      ensures sent == old(sent) + WhisperEvents(message, me.isAdmin,
                                                receiver.Some? && BlockedBy(old(world.Online()), me.id, receiver.value),
                                                old(WhisperTargetOf(target)), channel)
    {
      var blocked := receiver.Some? && BlockedBy(world.Online(), me.id, receiver.value);
      var other := WhisperTargetOf(target);
      var events := WhisperReply(message, me.isAdmin, blocked, other, channel);
      sent := sent + events;
    }
  }

  /** The whisper's checks in the handler's order, given what the sessions
      hold: the sender blocked by the receiver, the receiver's session on
      this channel, and the hub's answer when there is none. */
  method WhisperReply(message: string, senderIsAdmin: bool, blocked: bool, target: Option<WhisperTarget>,
                      channel: Option<int>) returns (events: seq<Event>)
    ensures events == WhisperEvents(message, senderIsAdmin, blocked, target, channel)
  {
    var tokens := Split(message, {' '});
    var name := WhisperReceiver(message);
    var text := AssembleMessage(tokens, WhisperTextFrom(tokens), 60);
    if blocked {
      return [Notice(Self, "BLACKLIST_BLOCKED")];
    }
    var kind := SpeakKind(senderIsAdmin);
    if target.None? {
      events := [Speech(RemoteByName(name), text, kind)];
      if channel.None? {
        events := events + [Notice(Self, "USER_NOT_CONNECTED")];
      } else {
        events := events + [Speech(Self, text, 5), Notice(Self, "MESSAGE_SENT_TO_CHARACTER")];
      }
      return;
    }
    var other := target.value;
    if tokens[0] == "GM" && !other.isAdmin {
      return [Notice(Self, "USER_IS_NOT_AN_ADMIN")];
    }
    events := [Speech(Self, text, 5)];
    if other.gmPvtBlock {
      events := events + [Notice(Self, "GM_CHAT_BLOCKED")];
    } else if !other.whisperBlocked {
      events := events + [Speech(Player(other.id), text, kind)];
    } else {
      events := events + [Notice(Self, "USER_WHISPER_BLOCKED")];
    }
  }

  /** The message loop of the handlers (:812-822, :1971-1982): the tokens
      from `from` on, each followed by a space, cut to `limit` UTF-16 code
      units and trimmed. */
  method AssembleMessage(tokens: seq<string>, from: nat, limit: nat) returns (message: string)
    ensures message == MessageText(tokens, from, limit)
  {
    message := AccumulateTokens("", tokens, from, " ");
    assert message == JoinTrailing(Drop(tokens, from), " ");
    if Utf16Length(message) > limit {
      message := Truncate(message, limit);
    }
    message := Trim(message);
  }

  /** What a revival sends and calls; the tp and revive broadcasts need a
      current map instance (`hasMap`). */
  function RevivalEvents(r: Revival, me: int, hasMap: bool): (events: seq<Event>)
    ensures r.NotRevived? <==> events == []
    ensures r.Restored? ==> Generated(Self, "stat") in events
    ensures (exists e :: e in events && !e.Call? && e.to.OnMap?) <==> hasMap && r.Restored?
  {
    match r
    case NotRevived => []
    case FirstPosition(lacksSeeds) =>
      if lacksSeeds then [Notice(Self, "NOT_ENOUGH_POWER_SEED"), Call("ReviveFirstPosition", [me]), Notice(Self, "NOT_ENOUGH_SEED_SAY")]
      else [Call("ReviveFirstPosition", [me])]
    case Restored(_, _, seedsUsed, goldPaid) =>
      (if seedsUsed > 0 then [Notice(Self, "SEED_USED"), Call("RemoveItemAmount", [SeedVNum, SeedCost])] else [])
      + (if hasMap then [Generated(OnMap(All), "tp"), Generated(OnMap(All), "revive")] else [])
      + [Generated(Self, "stat")]
      + (if goldPaid > 0 then [Generated(Self, "gold")] else [])
  }

  /** What pjoin sends for a request from `me` to `target`. */
  function RequestEvents(outcome: RequestOutcome, me: int, target: int): (events: seq<Event>)
    ensures outcome.Ignored? <==> events == []
    ensures outcome.Recorded? <==>
      Dialog(Player(target), DialogChoice(Accepted, me), DialogChoice(Declined, me), "INVITED_YOU") in events
  {
    match outcome
    case Ignored => []
    case TargetGroupFull => [Notice(Self, "GROUP_FULL")]
    case AlreadyGrouped => [Notice(Self, "ALREADY_IN_GROUP")]
    case Blacklisted => [Notice(Self, "BLACKLIST_BLOCKED")]
    case RequestsBlocked => [Notice(Self, "GROUP_BLOCKED")]
    case Recorded =>
      [Notice(Self, "GROUP_REQUEST"), Dialog(Player(target), DialogChoice(Accepted, me), DialogChoice(Declined, me), "INVITED_YOU")]
  }

  /** The share dialog from `me`, "#pjoin^6^<me>" or "#pjoin^7^<me>". */
  function ShareDialog(member: int, me: int): Event
  {
    Dialog(Player(member), DialogChoice(AcceptedShare, me), DialogChoice(DeclinedShare, me), "INVITED_YOU_SHARE")
  }

  /** Group.Characters.Where(s => s is not me).ForEach(send dialog): one
      dialog to each other member, in member order, and to nobody else. */
  function ShareDialogs(members: seq<int>, me: int): (events: seq<Event>)
    ensures forall m :: m in members && m != me ==> ShareDialog(m, me) in events
    ensures forall e :: e in events ==> exists m :: m in members && m != me && e == ShareDialog(m, me)
    ensures me !in members ==> |events| == |members|
  {
    if members == [] then []
    else if members[0] == me then ShareDialogs(members[1..], me)
    else [ShareDialog(members[0], me)] + ShareDialogs(members[1..], me)
  }

  /** The answer names a connected character, other than id 0, that still
      has a request to me pending; `pending` is who has one. */
  predicate PendingAnswer(packet: string, pending: set<int>)
  {
    match DecodePJoin(packet)
    case None => false
    case Some(p) => p.characterId != 0 && p.characterId in pending
  }

  /** What accepting a group request sends: GROUP_FULL to both sides when a
      group is full, the join and admin messages of a new group, and after
      any join the group update and, on a current map instance (`hasMap`),
      the pidx broadcast (:711-764). */
  function AcceptEvents(d: AcceptOutcome, requester: int, hasMap: bool): (events: seq<Event>)
    ensures d.BothGrouped? <==> events == []
    ensures d.Full? <==> Notice(Player(requester), "GROUP_FULL") in events
    ensures d.Full? ==> events == [Notice(Self, "GROUP_FULL"), Notice(Player(requester), "GROUP_FULL")]
    ensures (d.Created? || d.RequesterJoins? || d.AcceptorJoins?) <==> Call("UpdateGroup", [requester]) in events
    ensures (d.Created? || d.RequesterJoins? || d.AcceptorJoins?) ==>
      |events| >= 1 && events[|events| - 1] == (if hasMap then Generated(OnMap(All), "pidx") else Call("UpdateGroup", [requester]))
    ensures (exists e :: e in events && !e.Call? && e.to.OnMap?) ==> hasMap
  {
    var joined := [Call("UpdateGroup", [requester])] + (if hasMap then [Generated(OnMap(All), "pidx")] else []);
    match d
    case BothGrouped => []
    case Full => [Notice(Self, "GROUP_FULL"), Notice(Player(requester), "GROUP_FULL")]
    case RequesterJoins(_) => [Notice(Player(requester), "JOINED_GROUP")] + joined
    case AcceptorJoins(_) => joined
    case Created => [Notice(Self, "GROUP_JOIN"), Notice(Player(requester), "GROUP_ADMIN")] + joined
  }

  /** After ACCEPTED_SHARE: when the requester is in my group, my return
      point moves to its position and it is told; without a group the
      handler stops at the null Group. */
  function ShareAccepted(group: Option<int>, groups: seq<Group>, target: Character): (events: seq<Event>)
    reads target`positionX, target`positionY
    ensures events != [] <==> group.Some? && target.id in GroupMembers(groups, group.value)
  {
    match group
    case None => []
    case Some(gid) =>
      if target.id in GroupMembers(groups, gid) then
        [Call("SetReturnPoint", [target.positionX, target.positionY]), Notice(Player(target.id), "CHANGED_SHARE")]
      else []
  }

  /** What c_buy sends and calls. */
  function BuyEvents(outcome: Bazaar.BuyOutcome, amount: int, added: bool): (events: seq<Event>)
    ensures outcome.Bought? <==> Generated(Self, "gold") in events
    ensures outcome.SellerGone? || outcome.PackageSplit? <==> events == []
  {
    match outcome
    case StateChanged => [Notice(Self, "STATE_CHANGED")]
    case NotEnoughMoney => [Notice(Self, "NOT_ENOUGH_MONEY"), Notice(Self, "NOT_ENOUGH_MONEY")]
    case SellerGone => []
    case NotEnoughPlace => [Notice(Self, "NOT_ENOUGH_PLACE")]
    case PackageSplit => []
    case Bought(_) =>
      [Generated(Self, "gold"), Call("IteminstanceDAO.InsertOrUpdate", [amount]), Call("BazaarRefresh", []),
       Generated(Self, "rc_buy"), Call("AddToInventory", [amount])]
      + (if added then [Generated(Self, "ivn"), Notice(Self, "ITEM_ACQUIRED")] else [])
  }

  /** What c_reg sends and calls. */
  function SellEvents(outcome: Bazaar.SellOutcome, req: Bazaar.SellRequest): (events: seq<Event>)
    ensures outcome.Listed? <==> Raw(Self, "rc_reg 1") in events
    ensures outcome.Ignored? || outcome.MovedWithoutListing? <==> events == []
  {
    match outcome
    case Ignored => []
    case LimitExceeded => [Notice(Self, "LIMIT_EXCEEDED")]
    case PriceExceeded => [Notice(Self, "PRICE_EXCEEDED")]
    case MovedWithoutListing => []
    case Listed(_, hours) =>
      [Call("IteminstanceDAO.InsertOrUpdate", [req.amount]),
       Call("BazaarItemDAO.InsertOrUpdate", [req.unitPrice, req.amount, hours]),
       Call("BazaarRefresh", []), Generated(Self, "gold"),
       Notice(Self, "OBJECT_IN_BAZAAR"), Notice(Self, "OBJECT_IN_BAZAAR"), Raw(Self, "rc_reg 1")]
  }

  /** What a sent mail stores and sends: both copies go to the mail store. */
  function MailedEvents(me: int, receiver: int): seq<Event>
  {
    [Call("MailDAO.InsertOrUpdate", [me, receiver]), Call("MailDAO.InsertOrUpdate", [me, receiver]),
     Notice(Self, "MAILED"), Generated(Self, "post")]
  }

  /** Opening a mail stores it only when it was unread. */
  function OpenEvents(mails: map<int, Mail.Mail>, id: int): seq<Event>
  {
    if id !in mails then []
    else (if mails[id].isOpened then [] else [Call("MailDAO.InsertOrUpdate", [id])]) + [Generated(Self, "post")]
  }

  function DeleteEvents(id: int, postType: int): seq<Event>
  {
    [Notice(Self, "MAIL_DELETED"), Raw(Self, "post 2 " + ShowInt(postType) + " " + ShowInt(id)),
     Call("MailDAO.DeleteById", [id])]
  }

  /** Each reply line as a packet to the session, in order. */
  function SelfPackets(replies: seq<string>): (events: seq<Event>)
    ensures |events| == |replies|
    ensures forall k :: 0 <= k < |replies| ==> events[k] == Raw(Self, replies[k])
  {
    if replies == [] then [] else [Raw(Self, replies[0])] + SelfPackets(replies[1..])
  }

  /** The speaker item. */
  const SpeakerVNum := 2173

  /** The presentation item the inventory offers: 1117 first, else 9013. */
  function PresentationItem(held: set<int>): (item: Option<int>)
    ensures item.Some? <==> 1117 in held || 9013 in held
    ensures item.Some? ==> item.value in held
  {
    if 1117 in held then Some(1117) else if 9013 in held then Some(9013) else None
  }

  /** The Act4 score line "scr <kills> <deaths> <points> <compliment> 0 0". */
  function ScorePacket(kill: int, dead: int, points: int, compliment: int): string
  {
    "scr " + ShowInt(kill) + " " + ShowInt(dead) + " " + ShowInt(points) + " " + ShowInt(compliment) + " 0 0"
  }

  /** What a faction change sends: the stone is used up and the score line
      shows the fresh record. */
  function FactionEvents(f: int, compliment: int): seq<Event>
  {
    [Call("RemoveItemAmount", [Factions.StoneBaseVNum + f, 1]), Raw(Self, ScorePacket(0, 0, 0, compliment)),
     Generated(Self, "fs"), Generated(Self, "eff"), Notice(Self, "GET_PROTECTION_POWER_" + ShowInt(f))]
  }
}
