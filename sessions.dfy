/** The state the handler works on: the character behind each connected
    session (ClientSession.Character) and the world registry
    (ServerManager.Instance) with its sessions and groups. Both are objects
    whose fields the handlers update in place. */
module Sessions {
  import opened Wrappers
  import opened Options
  import opened Friends
  import opened Quicklist
  import opened Groups
  import Mail

  /** The fields of a character the packet handlers read or write. */
  class Character {
    const id: int
    const name: string
    const female: bool
    const isAdmin: bool          // Authority == Admin
    var flags: set<CharacterOption>   // the boolean options that are on
    var gold: int
    var relations: set<Relation>      // CharacterRelations
    var friendRequests: seq<int>      // FriendRequestCharacters
    var groupSentRequests: seq<int>   // GroupSentRequestCharacterIds
    var group: Option<int>            // the Group back reference, by group id
    var quicklist: seq<Entry>         // QuicklistEntries
    var useSp: bool
    var morph: int
    var mails: map<int, Mail.Mail>    // MailList
    var lastPulse: int
    var disconnected: bool
    var direction: int
    var faction: int
    var act4Kill: int
    var act4Dead: int
    var act4Points: int
    var compliment: int
    var hp: int
    var mp: int
    var level: int
    var positionX: int
    var positionY: int
    var lastPortal: int               // seconds
    var lastPvpRevive: int            // LastPVPRevive, seconds
    var biography: string
    var gmPvtBlock: bool              // GmPvtBlock: refuses whispers

    predicate Flag(opt: CharacterOption)
      reads this`flags
    {
      opt in flags
    }

    /** The relation rows and friend requests other handlers look at. */
    function AsPeer(): (p: Peer)
      reads this`relations, this`friendRequests
      ensures p.relations == relations && p.friendRequests == friendRequests
    {
      Peer(relations, friendRequests)
    }
  }

  /** ServerManager.Instance: the connected characters by id, and the group
      registry with the next id a new group gets. */
  class World {
    const sessions: map<int, Character>
    const groupCapacity: nat
    var groups: seq<Group>
    var nextGroupId: int

    /** The registry's invariant: every session is filed under its
        character's id, and the groups are well formed with ids below
        `nextGroupId`. */
    ghost predicate Valid()
      reads this
    {
      && groupCapacity >= 2
      && WellFormed(groups, groupCapacity)
      && (forall j :: 0 <= j < |groups| ==> groups[j].id < nextGroupId)
      && (forall k :: k in sessions ==> sessions[k].id == k)
    }

    /** Nobody has a pending group request to itself: pjoin records a
        request only for another character (:638). */
    ghost predicate NoSelfRequests()
      reads sessions.Values`groupSentRequests
    {
      forall k :: k in sessions ==> k !in sessions[k].groupSentRequests
    }

    /** The connected characters with a group request to `cid` pending. */
    function PendingTo(cid: int): (pending: set<int>)
      reads sessions.Values`groupSentRequests
      ensures pending <= sessions.Keys
    {
      set k | k in sessions && cid in sessions[k].groupSentRequests
    }

    /** group.SharingMode := mode, on the registry's group `i`. */
    method SetSharingMode(i: nat, mode: int)
      requires Valid() && i < |groups|
      modifies this`groups
      ensures groups == WithSharingMode(old(groups), i, mode)
      ensures Valid()
    {
      SharingModeKeepsMembers(groups, groupCapacity, i, mode, 0);
      groups := WithSharingMode(groups, i, mode);
    }

    /** An accepted group request (:706-760): the registry takes the
        decision AcceptGroups makes, a new group gets `nextGroupId`, and the
        Group back reference of whoever joined is set to its group. */
    method Accept(requester: Character, acceptor: Character) returns (decision: AcceptOutcome)
      requires Valid()
      requires requester.id in sessions && sessions[requester.id] == requester
      requires acceptor.id in sessions && sessions[acceptor.id] == acceptor
      requires requester.id != acceptor.id
      modifies this`groups, this`nextGroupId, requester`group, acceptor`group
      ensures decision == AcceptDecision(old(groups), groupCapacity, requester.id, acceptor.id)
      ensures groups == AcceptGroups(old(groups), groupCapacity, requester.id, acceptor.id, old(nextGroupId))
      ensures nextGroupId == old(nextGroupId) + (if decision.Created? then 1 else 0)
      ensures requester.group == AcceptedRef(old(requester.group), old(groups), decision,
                                             requester.id, acceptor.id, old(nextGroupId), requester.id)
      ensures acceptor.group == AcceptedRef(old(acceptor.group), old(groups), decision,
                                            requester.id, acceptor.id, old(nextGroupId), acceptor.id)
      ensures Valid()
    {
      var before := groups;
      var gid := nextGroupId;
      decision := UpdateRegistry(requester.id, acceptor.id);
      match decision {
      case BothGrouped =>
      case Full =>
      case RequesterJoins(i) =>
        requester.group := Some(before[i].id);
      case AcceptorJoins(i) =>
        acceptor.group := Some(before[i].id);
      case Created =>
        requester.group := Some(gid);
        acceptor.group := Some(gid);
      }
    }

    /** The registry half of an accept: AcceptGroups, with the next id taken
        when a group is created. */
    method UpdateRegistry(requester: int, acceptor: int) returns (decision: AcceptOutcome)
      requires Valid() && requester != acceptor
      modifies this`groups, this`nextGroupId
      ensures decision == AcceptDecision(old(groups), groupCapacity, requester, acceptor)
      ensures groups == AcceptGroups(old(groups), groupCapacity, requester, acceptor, old(nextGroupId))
      ensures nextGroupId == old(nextGroupId) + (if decision.Created? then 1 else 0)
      ensures Valid()
    {
      var gid := nextGroupId;
      decision := AcceptDecision(groups, groupCapacity, requester, acceptor);
      AcceptKeepsWellFormed(groups, groupCapacity, requester, acceptor, gid);
      AcceptIdsBelow(groups, groupCapacity, requester, acceptor, gid);
      groups := AcceptGroups(groups, groupCapacity, requester, acceptor, gid);
      if decision.Created? {
        nextGroupId := gid + 1;
      }
    }

    /** What the handlers see of the other connected characters. */
    function Online(): (online: map<int, Peer>)
      reads sessions.Values`relations, sessions.Values`friendRequests
      ensures online.Keys == sessions.Keys
      ensures forall k :: k in online ==> online[k] == Peer(sessions[k].relations, sessions[k].friendRequests)
    {
      map k | k in sessions :: sessions[k].AsPeer()
    }
  }
}
