/** Groups as the world registry keeps them (ServerManager.Groups), and the
    group request/answer protocol of the pjoin and #pjoin packets
    (BasicPacketHandler.cs:616-784). A group is an ordered member list whose
    first member is the master, plus a sharing mode. */
module Groups {
  import opened Wrappers
  import opened Text

  datatype Group = Group(id: int, members: seq<int>, sharingMode: int)

  // ---------------------------------------------------------------------
  // Registry queries

  /** The first group in the registry that has `cid` as a member
      (GetGroupByCharacterId, and FirstOrDefault(g => g.IsMemberOfGroup(id))). */
  function GroupIndexOf(groups: seq<Group>, cid: int): (r: Option<nat>)
    ensures r.Some? ==> r.value < |groups| && cid in groups[r.value].members
    ensures r.Some? ==> forall j :: 0 <= j < r.value ==> cid !in groups[j].members
    ensures r.None? <==> forall j :: 0 <= j < |groups| ==> cid !in groups[j].members
  {
    if groups == [] then None
    else if cid in groups[0].members then Some(0)
    else match GroupIndexOf(groups[1..], cid)
      case Some(i) => Some(i + 1)
      case None => None
  }

  /** IsCharacterMemberOfGroup. */
  predicate InSomeGroup(groups: seq<Group>, cid: int)
  {
    GroupIndexOf(groups, cid).Some?
  }

  /** IsCharactersGroupFull, with the capacity as a parameter. */
  predicate GroupIsFull(groups: seq<Group>, cid: int, capacity: nat)
  {
    match GroupIndexOf(groups, cid)
    case Some(i) => |groups[i].members| >= capacity
    case None => false
  }

  /** The registry's invariant: every group has between one and `capacity`
      members, nobody appears twice in a group or in two groups, and group
      ids are distinct. */
  ghost predicate WellFormed(groups: seq<Group>, capacity: nat)
  {
    && (forall i :: 0 <= i < |groups| ==> 1 <= |groups[i].members| <= capacity)
    && (forall i, a, b :: 0 <= i < |groups| && 0 <= a < b < |groups[i].members| ==>
          groups[i].members[a] != groups[i].members[b])
    && (forall i, j, m :: 0 <= i < j < |groups| && m in groups[i].members ==> m !in groups[j].members)
    && (forall i, j :: 0 <= i < j < |groups| ==> groups[i].id != groups[j].id)
  }

  /** In a well-formed registry a member's group is the only group holding it. */
  lemma OnlyGroupOf(groups: seq<Group>, capacity: nat, i: nat, cid: int)
    requires WellFormed(groups, capacity)
    requires i < |groups| && cid in groups[i].members
    ensures GroupIndexOf(groups, cid) == Some(i)
  {
  }

  /** The group with a given id (the Character.Group back reference). */
  function GroupById(groups: seq<Group>, gid: int): (r: Option<nat>)
    ensures r.Some? ==> r.value < |groups| && groups[r.value].id == gid
    ensures r.None? ==> forall j :: 0 <= j < |groups| ==> groups[j].id != gid
  {
    if groups == [] then None
    else if groups[0].id == gid then Some(0)
    else match GroupById(groups[1..], gid)
      case Some(i) => Some(i + 1)
      case None => None
  }

  /** The members of the group a back reference names (Group.Characters);
      none when the registry holds no group with that id. */
  function GroupMembers(groups: seq<Group>, gid: int): (r: seq<int>)
    ensures r != [] ==> exists j :: 0 <= j < |groups| && groups[j].id == gid && groups[j].members == r
  {
    match GroupById(groups, gid)
    case Some(i) => groups[i].members
    case None => []
  }

  // ---------------------------------------------------------------------
  // Registry updates

  /** Group.JoinGroup: the joiner is appended to the member list. */
  function JoinAt(groups: seq<Group>, i: nat, cid: int): (r: seq<Group>)
    requires i < |groups|
    ensures |r| == |groups|
  {
    groups[i := groups[i].(members := groups[i].members + [cid])]
  }

  /** new Group(), JoinGroup(requester), JoinGroup(acceptor), AddGroup. */
  function Create(groups: seq<Group>, gid: int, requester: int, acceptor: int): (r: seq<Group>)
  {
    groups + [Group(gid, [requester, acceptor], 0)]
  }

  /** group.SharingMode := mode. */
  function WithSharingMode(groups: seq<Group>, i: nat, mode: int): (r: seq<Group>)
    requires i < |groups|
  {
    groups[i := groups[i].(sharingMode := mode)]
  }

  /** Changing a sharing mode keeps every membership fact. */
  lemma SharingModeKeepsMembers(groups: seq<Group>, capacity: nat, i: nat, mode: int, cid: int)
    requires i < |groups|
    ensures WellFormed(groups, capacity) ==> WellFormed(WithSharingMode(groups, i, mode), capacity)
    ensures GroupIndexOf(WithSharingMode(groups, i, mode), cid) == GroupIndexOf(groups, cid)
  {
    var r := WithSharingMode(groups, i, mode);
    assert forall j :: 0 <= j < |groups| ==> r[j].members == groups[j].members;
    SameMembersSameIndex(groups, r, cid);
  }

  lemma {:induction false} SameMembersSameIndex(a: seq<Group>, b: seq<Group>, cid: int)
    requires |a| == |b|
    requires forall j :: 0 <= j < |a| ==> a[j].members == b[j].members
    ensures GroupIndexOf(a, cid) == GroupIndexOf(b, cid)
  {
    if a != [] {
      SameMembersSameIndex(a[1..], b[1..], cid);
    }
  }

  // ---------------------------------------------------------------------
  // Answering a group request (#pjoin^3^id, lines 706-760)

  datatype AcceptOutcome =
    | BothGrouped            // both already grouped: nothing happens (711-712)
    | Full                   // a group on either side is full: GROUP_FULL to both (715-720)
    | RequesterJoins(i: nat) // the acceptor is grouped: the requester joins it (724-734)
    | AcceptorJoins(i: nat)  // the requester is grouped: the acceptor joins it (736-745)
    | Created                // nobody is grouped: a new group [requester, acceptor] (748-759)

  /** The branch the accept takes. */
  function AcceptDecision(groups: seq<Group>, capacity: nat, requester: int, acceptor: int): (d: AcceptOutcome)
    ensures d.RequesterJoins? ==> d.i < |groups| && acceptor in groups[d.i].members
    ensures d.AcceptorJoins? ==> d.i < |groups| && requester in groups[d.i].members
  {
    if InSomeGroup(groups, acceptor) && InSomeGroup(groups, requester) then BothGrouped
    else if GroupIsFull(groups, requester, capacity) || GroupIsFull(groups, acceptor, capacity) then Full
    else if InSomeGroup(groups, acceptor) then RequesterJoins(GroupIndexOf(groups, acceptor).value)
    else if InSomeGroup(groups, requester) then AcceptorJoins(GroupIndexOf(groups, requester).value)
    else Created
  }

  /** The registry after the accept; `gid` is the id of a group created now. */
  function AcceptGroups(groups: seq<Group>, capacity: nat, requester: int, acceptor: int, gid: int): (r: seq<Group>)
  {
    match AcceptDecision(groups, capacity, requester, acceptor)
    case BothGrouped => groups
    case Full => groups
    case RequesterJoins(i) => JoinAt(groups, i, requester)
    case AcceptorJoins(i) => JoinAt(groups, i, acceptor)
    case Created => Create(groups, gid, requester, acceptor)
  }

  /** Appending a character that is in no group, to a group that is not
      full, keeps the registry well formed, and that group becomes the
      character's group. */
  lemma JoinKeepsWellFormed(groups: seq<Group>, capacity: nat, i: nat, cid: int)
    requires WellFormed(groups, capacity)
    requires i < |groups| && |groups[i].members| < capacity
    requires !InSomeGroup(groups, cid)
    ensures WellFormed(JoinAt(groups, i, cid), capacity)
    ensures GroupIndexOf(JoinAt(groups, i, cid), cid) == Some(i)
    ensures forall m :: m != cid ==> GroupIndexOf(JoinAt(groups, i, cid), m) == GroupIndexOf(groups, m)
  {
    JoinAtWellFormed(groups, capacity, i, cid);
    var r := JoinAt(groups, i, cid);
    forall m | m != cid
      ensures GroupIndexOf(r, m) == GroupIndexOf(groups, m)
    {
      forall j | 0 <= j < |groups|
        ensures (m in r[j].members) == (m in groups[j].members)
      {
      }
      SameMembership(groups, r, m);
    }
    OnlyGroupOf(r, capacity, i, cid);
  }

  /** The invariant half of JoinKeepsWellFormed. */
  lemma JoinAtWellFormed(groups: seq<Group>, capacity: nat, i: nat, cid: int)
    requires WellFormed(groups, capacity)
    requires i < |groups| && |groups[i].members| < capacity
    requires !InSomeGroup(groups, cid)
    ensures WellFormed(JoinAt(groups, i, cid), capacity)
  {
    forall j | 0 <= j < |groups|
      ensures cid !in groups[j].members
    {
    }
  }

  lemma {:induction false} SameMembership(a: seq<Group>, b: seq<Group>, m: int)
    requires |a| == |b|
    requires forall j :: 0 <= j < |a| ==> (m in a[j].members) == (m in b[j].members)
    ensures GroupIndexOf(a, m) == GroupIndexOf(b, m)
  {
    if a != [] {
      SameMembership(a[1..], b[1..], m);
    }
  }

  /** Creating a group of two characters that are in no group, under an
      unused id, keeps the registry well formed; the requester is master. */
  lemma CreateKeepsWellFormed(groups: seq<Group>, capacity: nat, gid: int, requester: int, acceptor: int)
    requires WellFormed(groups, capacity) && capacity >= 2
    requires requester != acceptor
    requires !InSomeGroup(groups, requester) && !InSomeGroup(groups, acceptor)
    requires forall j :: 0 <= j < |groups| ==> groups[j].id != gid
    ensures WellFormed(Create(groups, gid, requester, acceptor), capacity)
    ensures GroupIndexOf(Create(groups, gid, requester, acceptor), requester) == Some(|groups|)
    ensures GroupIndexOf(Create(groups, gid, requester, acceptor), acceptor) == Some(|groups|)
  {
    var g := Group(gid, [requester, acceptor], 0);
    AppendKeepsWellFormed(groups, capacity, g);
    var r := groups + [g];
    OnlyGroupOf(r, capacity, |groups|, requester);
    OnlyGroupOf(r, capacity, |groups|, acceptor);
  }

  /** A new group of distinct members that are in no group yet, under an
      unused id and within the capacity, can be appended to a well-formed
      registry. */
  lemma AppendKeepsWellFormed(groups: seq<Group>, capacity: nat, g: Group)
    requires WellFormed(groups, capacity)
    requires 1 <= |g.members| <= capacity
    requires forall a, b :: 0 <= a < b < |g.members| ==> g.members[a] != g.members[b]
    requires forall m :: m in g.members ==> !InSomeGroup(groups, m)
    requires forall j :: 0 <= j < |groups| ==> groups[j].id != g.id
    ensures WellFormed(groups + [g], capacity)
  {
    var r := groups + [g];
    assert forall i :: 0 <= i < |groups| ==> r[i] == groups[i];
    forall i, j, m | 0 <= i < j < |r| && m in r[i].members
      ensures m !in r[j].members
    {
      if j == |groups| {
        assert m in groups[i].members;
        assert InSomeGroup(groups, m);
      }
    }
  }

  /** The group state machine keeps its invariant: after any accept the
      registry is still well formed, so no group exceeds the capacity and
      no character is in two groups. */
  lemma AcceptKeepsWellFormed(groups: seq<Group>, capacity: nat, requester: int, acceptor: int, gid: int)
    requires WellFormed(groups, capacity) && capacity >= 2
    requires requester != acceptor
    requires forall j :: 0 <= j < |groups| ==> groups[j].id != gid
    ensures WellFormed(AcceptGroups(groups, capacity, requester, acceptor, gid), capacity)
  {
    match AcceptDecision(groups, capacity, requester, acceptor)
    case BothGrouped =>
    case Full =>
    case RequesterJoins(i) => JoinKeepsWellFormed(groups, capacity, i, requester);
    case AcceptorJoins(i) => JoinKeepsWellFormed(groups, capacity, i, acceptor);
    case Created => CreateKeepsWellFormed(groups, capacity, gid, requester, acceptor);
  }

  /** A successful accept leaves both characters in one and the same group;
      a new group holds exactly the two of them, the requester first. */
  lemma AcceptGroupsBoth(groups: seq<Group>, capacity: nat, requester: int, acceptor: int, gid: int)
    requires WellFormed(groups, capacity) && capacity >= 2
    requires requester != acceptor
    requires forall j :: 0 <= j < |groups| ==> groups[j].id != gid
    requires !AcceptDecision(groups, capacity, requester, acceptor).BothGrouped?
    requires !AcceptDecision(groups, capacity, requester, acceptor).Full?
    ensures var r := AcceptGroups(groups, capacity, requester, acceptor, gid);
      && GroupIndexOf(r, requester).Some?
      && GroupIndexOf(r, requester) == GroupIndexOf(r, acceptor)
    ensures AcceptDecision(groups, capacity, requester, acceptor).Created? ==>
      var r := AcceptGroups(groups, capacity, requester, acceptor, gid);
      r[GroupIndexOf(r, requester).value] == Group(gid, [requester, acceptor], 0)
  {
    match AcceptDecision(groups, capacity, requester, acceptor)
    case RequesterJoins(i) =>
      JoinKeepsWellFormed(groups, capacity, i, requester);
    case AcceptorJoins(i) =>
      JoinKeepsWellFormed(groups, capacity, i, acceptor);
    case Created =>
      CreateKeepsWellFormed(groups, capacity, gid, requester, acceptor);
  }

  /** Group ids stay below the next fresh id: a created group takes the
      fresh id and the next one moves past it. */
  lemma AcceptIdsBelow(groups: seq<Group>, capacity: nat, requester: int, acceptor: int, gid: int)
    requires forall j :: 0 <= j < |groups| ==> groups[j].id < gid
    ensures var r := AcceptGroups(groups, capacity, requester, acceptor, gid);
      var next := if AcceptDecision(groups, capacity, requester, acceptor).Created? then gid + 1 else gid;
      forall j :: 0 <= j < |r| ==> r[j].id < next
  {
  }

  /** The id of the group a character is in: what its Group back reference
      points to when the two agree. */
  function GroupIdOf(groups: seq<Group>, cid: int): (r: Option<int>)
    ensures r.Some? <==> InSomeGroup(groups, cid)
  {
    match GroupIndexOf(groups, cid)
    case None => None
    case Some(i) => Some(groups[i].id)
  }

  /** How an accept moves the characters' groups: a new group takes both
      characters, a join takes the joiner into the other's group, and every
      other character stays where it was. */
  lemma AcceptGroupIds(groups: seq<Group>, capacity: nat, requester: int, acceptor: int, gid: int, m: int)
    requires WellFormed(groups, capacity) && capacity >= 2
    requires requester != acceptor
    requires forall j :: 0 <= j < |groups| ==> groups[j].id != gid
    ensures var r := AcceptGroups(groups, capacity, requester, acceptor, gid);
      GroupIdOf(r, m) == match AcceptDecision(groups, capacity, requester, acceptor)
        case Created => if m == requester || m == acceptor then Some(gid) else GroupIdOf(groups, m)
        case RequesterJoins(_) => if m == requester then GroupIdOf(groups, acceptor) else GroupIdOf(groups, m)
        case AcceptorJoins(_) => if m == acceptor then GroupIdOf(groups, requester) else GroupIdOf(groups, m)
        case _ => GroupIdOf(groups, m)
  {
    match AcceptDecision(groups, capacity, requester, acceptor)
    case BothGrouped =>
    case Full =>
    case RequesterJoins(i) =>
      JoinGroupIds(groups, capacity, i, requester, m);
    case AcceptorJoins(i) =>
      JoinGroupIds(groups, capacity, i, acceptor, m);
    case Created =>
      CreateGroupIds(groups, capacity, gid, requester, acceptor, m);
  }

  /** An accept moves nobody but the two characters. */
  lemma AcceptKeepsOthers(groups: seq<Group>, capacity: nat, requester: int, acceptor: int, gid: int, m: int)
    requires WellFormed(groups, capacity) && capacity >= 2
    requires requester != acceptor
    requires forall j :: 0 <= j < |groups| ==> groups[j].id != gid
    requires m != requester && m != acceptor
    ensures GroupIdOf(AcceptGroups(groups, capacity, requester, acceptor, gid), m) == GroupIdOf(groups, m)
  {
    AcceptGroupIds(groups, capacity, requester, acceptor, gid, m);
  }

  lemma JoinGroupIds(groups: seq<Group>, capacity: nat, i: nat, cid: int, m: int)
    requires WellFormed(groups, capacity)
    requires i < |groups| && |groups[i].members| < capacity
    requires !InSomeGroup(groups, cid)
    ensures GroupIdOf(JoinAt(groups, i, cid), m) == if m == cid then Some(groups[i].id) else GroupIdOf(groups, m)
  {
    JoinKeepsWellFormed(groups, capacity, i, cid);
  }

  lemma CreateGroupIds(groups: seq<Group>, capacity: nat, gid: int, requester: int, acceptor: int, m: int)
    requires WellFormed(groups, capacity) && capacity >= 2
    requires requester != acceptor
    requires !InSomeGroup(groups, requester) && !InSomeGroup(groups, acceptor)
    requires forall j :: 0 <= j < |groups| ==> groups[j].id != gid
    ensures GroupIdOf(Create(groups, gid, requester, acceptor), m)
         == if m == requester || m == acceptor then Some(gid) else GroupIdOf(groups, m)
  {
    CreateKeepsWellFormed(groups, capacity, gid, requester, acceptor);
    var r := Create(groups, gid, requester, acceptor);
    var n := |groups|;
    assert |r| == n + 1 && r[n] == Group(gid, [requester, acceptor], 0);
    if m == requester || m == acceptor {
      assert m in r[n].members;
      OnlyGroupOf(r, capacity, n, m);
    } else {
      assert m !in r[n].members;
      match GroupIndexOf(groups, m)
      case Some(i) =>
        assert r[i] == groups[i];
        OnlyGroupOf(r, capacity, i, m);
      case None =>
        assert forall j :: 0 <= j < n ==> r[j] == groups[j];
        assert forall j :: 0 <= j < |r| ==> m !in r[j].members;
    }
  }

  /** The characters' Group back references, by character id, agree with
      the registry. */
  ghost predicate BackRefs(refs: map<int, Option<int>>, groups: seq<Group>)
  {
    forall k :: k in refs ==> refs[k] == GroupIdOf(groups, k)
  }

  /** A character's back reference after an accept: JoinGroup sets the
      joiner's, a new group sets both (:724-759), and nobody else's moves. */
  function AcceptedRef(ref: Option<int>, groups: seq<Group>, decision: AcceptOutcome,
                       requester: int, acceptor: int, gid: int, m: int): Option<int>
    requires decision.RequesterJoins? || decision.AcceptorJoins? ==> decision.i < |groups|
  {
    match decision
    case RequesterJoins(i) => if m == requester then Some(groups[i].id) else ref
    case AcceptorJoins(i) => if m == acceptor then Some(groups[i].id) else ref
    case Created => if m == requester || m == acceptor then Some(gid) else ref
    case _ => ref
  }

  /** The back references after an accept, by character id. */
  function AcceptRefs(refs: map<int, Option<int>>, groups: seq<Group>, capacity: nat,
                      requester: int, acceptor: int, gid: int): (r: map<int, Option<int>>)
    ensures r.Keys == refs.Keys
  {
    var decision := AcceptDecision(groups, capacity, requester, acceptor);
    map k | k in refs :: AcceptedRef(refs[k], groups, decision, requester, acceptor, gid, k)
  }

  /** An accept keeps the back references in step with the registry: a
      character's reference names the group the registry files it under. */
  lemma AcceptKeepsBackRefs(refs: map<int, Option<int>>, groups: seq<Group>, capacity: nat,
                            requester: int, acceptor: int, gid: int)
    requires WellFormed(groups, capacity) && capacity >= 2
    requires requester != acceptor
    requires forall j :: 0 <= j < |groups| ==> groups[j].id != gid
    requires BackRefs(refs, groups)
    ensures BackRefs(AcceptRefs(refs, groups, capacity, requester, acceptor, gid),
                     AcceptGroups(groups, capacity, requester, acceptor, gid))
  {
    var after := AcceptGroups(groups, capacity, requester, acceptor, gid);
    var refs' := AcceptRefs(refs, groups, capacity, requester, acceptor, gid);
    forall k | k in refs'
      ensures refs'[k] == GroupIdOf(after, k)
    {
      AcceptGroupIds(groups, capacity, requester, acceptor, gid, k);
    }
  }

  /** When a group on either side is full the registry does not change. */
  lemma FullAcceptChangesNothing(groups: seq<Group>, capacity: nat, requester: int, acceptor: int, gid: int)
    requires !(InSomeGroup(groups, acceptor) && InSomeGroup(groups, requester))
    requires GroupIsFull(groups, requester, capacity) || GroupIsFull(groups, acceptor, capacity)
    ensures AcceptDecision(groups, capacity, requester, acceptor) == Full
    ensures AcceptGroups(groups, capacity, requester, acceptor, gid) == groups
  {
  }

  /** List.Remove on the pending request ids: the first occurrence goes. */
  function RemoveFirst(s: seq<int>, x: int): (r: seq<int>)
    ensures x in s ==> multiset(r) == multiset(s) - multiset{x}
    ensures x !in s ==> r == s
    ensures forall y :: y in r ==> y in s
  {
    if s == [] then []
    else
      assert s == [s[0]] + s[1..];
      if s[0] == x then s[1..] else [s[0]] + RemoveFirst(s[1..], x)
  }

  /** A request recorded once is gone after its answer, so a replayed answer
      finds no pending request; a request recorded twice survives once. */
  lemma RemoveFirstOnce(s: seq<int>, x: int)
    ensures multiset(s)[x] == 1 ==> x !in RemoveFirst(s, x)
    ensures multiset(s)[x] >= 2 ==> x in RemoveFirst(s, x)
  {
    if x in s {
      assert multiset(RemoveFirst(s, x))[x] == multiset(s)[x] - 1;
    }
  }

  // ---------------------------------------------------------------------
  // Sending a group request (pjoin with type Requested or Invited, 620-664)

  datatype RequestOutcome =
    | Ignored          // id 0, oneself, or the target is not connected
    | TargetGroupFull  // GROUP_FULL
    | AlreadyGrouped   // ALREADY_IN_GROUP
    | Blacklisted      // BLACKLIST_BLOCKED
    | RequestsBlocked  // GROUP_BLOCKED: the target refuses group requests
    | Recorded         // the target's id is added to GroupSentRequestCharacterIds

  function RequestDecision(groups: seq<Group>, capacity: nat, requester: int, target: int,
                           targetOnline: bool, blockedByTarget: bool, targetRefuses: bool): (r: RequestOutcome)
  {
    if target == 0 then Ignored
    else if GroupIsFull(groups, target, capacity) then TargetGroupFull
    else if InSomeGroup(groups, target) && InSomeGroup(groups, requester) then AlreadyGrouped
    else if requester == target || !targetOnline then Ignored
    else if blockedByTarget then Blacklisted
    else if targetRefuses then RequestsBlocked
    else Recorded
  }

  /** A request is recorded exactly when none of the rejections applies. */
  lemma RecordedExactly(groups: seq<Group>, capacity: nat, requester: int, target: int,
                        targetOnline: bool, blockedByTarget: bool, targetRefuses: bool)
    ensures RequestDecision(groups, capacity, requester, target, targetOnline, blockedByTarget, targetRefuses) == Recorded
      <==> && target != 0 && target != requester && targetOnline
           && !GroupIsFull(groups, target, capacity)
           && !(InSomeGroup(groups, target) && InSomeGroup(groups, requester))
           && !blockedByTarget && !targetRefuses
  {
  }

  // ---------------------------------------------------------------------
  // The dialog answer packet

  /** GroupRequestType values as the client sends them. */
  const Requested := 0
  const Invited := 1
  const Accepted := 3
  const Declined := 4
  const Sharing := 5
  const AcceptedShare := 6
  const DeclinedShare := 7

  datatype PJoin = PJoin(requestType: int, characterId: int)

  /** The tokens of a line that are not empty. */
  function NonEmpty(tokens: seq<string>): (r: seq<string>)
    ensures forall k :: 0 <= k < |r| ==> r[k] != ""
  {
    if tokens == [] then []
    else if tokens[0] == "" then NonEmpty(tokens[1..])
    else [tokens[0]] + NonEmpty(tokens[1..])
  }

  /** The answer line after `Replace('^', ' ').Replace('#', ' ')` (:683),
      read as a pjoin packet: keep-alive number, header, request type (a
      byte), character id (a long). */
  function DecodePJoin(line: string): Option<PJoin>
  {
    var tokens := NonEmpty(Split(Replace(Replace(line, '^', ' '), '#', ' '), {' '}));
    if |tokens| < 4 || tokens[1] != "pjoin" then None
    else match (ParseByte(tokens[2]), ParseLong(tokens[3]))
      case (Some(t), Some(id)) => Some(PJoin(t, id))
      case _ => None
  }

  /** The accept and decline choices offered in the dialog at :661,
      "#pjoin^3^<id>" and "#pjoin^4^<id>". */
  function DialogChoice(requestType: nat, requester: int): string
  {
    "#pjoin^" + ShowNat(requestType) + "^" + ShowInt(requester)
  }

  lemma DialogCaretLiterals()
    ensures Replace(" #pjoin^", '^', ' ') == " #pjoin "
    ensures Replace("^", '^', ' ') == " "
  {
    assert " #pjoin^" == " #pjoin" + "^";
    ReplaceAbsent(" #pjoin", '^', ' ');
    ReplaceConcat(" #pjoin", "^", '^', ' ');
  }

  lemma DialogHashLiterals()
    ensures Replace(" #pjoin ", '#', ' ') == "  pjoin "
    ensures Replace(" ", '#', ' ') == " "
  {
    assert " #pjoin " == " " + ("#" + "pjoin ");
    ReplaceAbsent(" ", '#', ' ');
    ReplaceAbsent("pjoin ", '#', ' ');
    ReplaceConcat("#", "pjoin ", '#', ' ');
    ReplaceConcat(" ", "#" + "pjoin ", '#', ' ');
  }

  lemma DialogJoin(k: string, t: string, id: string)
    ensures Join([k, "", "pjoin", t, id], ' ') == k + "  pjoin " + t + " " + id
  {
    var parts := [k, "", "pjoin", t, id];
    assert parts[1..] == ["", "pjoin", t, id];
    assert parts[1..][1..] == ["pjoin", t, id];
    assert parts[1..][1..][1..] == [t, id];
    assert parts[1..][1..][1..][1..] == [id];
    assert Join([id], ' ') == id;
    assert Join([t, id], ' ') == t + " " + id;
    assert Join(["pjoin", t, id], ' ') == "pjoin " + (t + " " + id);
    assert Join(["", "pjoin", t, id], ' ') == " " + ("pjoin " + (t + " " + id));
    assert Join(parts, ' ') == k + " " + (" " + ("pjoin " + (t + " " + id)));
  }

  lemma DialogReplaced(k: string, t: string, id: string)
    requires '^' !in k && '#' !in k && '^' !in t && '#' !in t && '^' !in id && '#' !in id
    ensures Replace(Replace(k + " #pjoin^" + t + "^" + id, '^', ' '), '#', ' ') == k + "  pjoin " + t + " " + id
  {
    DialogCaretLiterals();
    DialogHashLiterals();
    ReplaceAroundWords(k, " #pjoin^", t, "^", id, '^', ' ');
    ReplaceAroundWords(k, " #pjoin ", t, " ", id, '#', ' ');
  }

  lemma DialogNonEmpty(k: string, t: string, id: string)
    requires k != "" && t != "" && id != ""
    ensures NonEmpty([k, "", "pjoin", t, id]) == [k, "pjoin", t, id]
  {
    var parts := [k, "", "pjoin", t, id];
    assert parts[1..] == ["", "pjoin", t, id];
    assert parts[1..][1..] == ["pjoin", t, id];
    assert ["pjoin", t, id][1..] == [t, id];
    assert [t, id][1..] == [id];
    assert [id][1..] == [];
    assert NonEmpty([id]) == [id];
    assert NonEmpty([t, id]) == [t, id];
    assert NonEmpty(["pjoin", t, id]) == ["pjoin", t, id];
    assert NonEmpty(["", "pjoin", t, id]) == ["pjoin", t, id];
  }

  /** The words of a dialog answer, after both replacement passes and the
      split, are the keep-alive number, the header, the type and the id. */
  lemma DialogAnswerTokens(k: string, t: string, id: string)
    requires k != "" && t != "" && id != ""
    requires ' ' !in k && '^' !in k && '#' !in k
    requires ' ' !in t && '^' !in t && '#' !in t
    requires ' ' !in id && '^' !in id && '#' !in id
    ensures NonEmpty(Split(Replace(Replace(k + " #pjoin^" + t + "^" + id, '^', ' '), '#', ' '), {' '}))
            == [k, "pjoin", t, id]
  {
    var parts := [k, "", "pjoin", t, id];
    var twice := k + "  pjoin " + t + " " + id;
    DialogReplaced(k, t, id);
    DialogJoin(k, t, id);
    assert forall i :: 0 <= i < |parts| ==> ' ' !in parts[i];
    JoinThenSplit(parts, ' ');
    assert Split(twice, {' '}) == parts;
    DialogNonEmpty(k, t, id);
  }

  /** The client's answer to the dialog — its keep-alive number, a space and
      the chosen choice — decodes back to that request type and requester:
      the dialog written by pjoin and the parsing of #pjoin agree. */
  lemma DialogAnswerDecodes(keepAlive: nat, requestType: nat, requester: int)
    requires requestType <= 255 && LongMin <= requester <= LongMax
    ensures DecodePJoin(ShowNat(keepAlive) + " " + DialogChoice(requestType, requester))
            == Some(PJoin(requestType, requester))
  {
    var k, t, id := ShowNat(keepAlive), ShowNat(requestType), ShowInt(requester);
    ShowIntPlain(keepAlive);
    ShowIntPlain(requestType);
    ShowIntPlain(requester);
    assert ShowInt(keepAlive) == k && ShowInt(requestType) == t;
    assert k + " " + DialogChoice(requestType, requester) == k + " #pjoin^" + t + "^" + id;
    DialogAnswerTokens(k, t, id);
    ParseShowInRange(requestType, 0, 255);
    ParseShowInRange(requester, LongMin, LongMax);
  }
}
