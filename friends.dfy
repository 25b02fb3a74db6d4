/** Friends and the blacklist: the fins request, its #fins answer and fdel
    (BasicPacketHandler.cs:845-960), and blins and bldel (:963-992). A
    character's relation list holds rows (related character, kind). */
module Friends {
  import opened Wrappers
  import opened Text

  datatype RelationType = Friend | Blocked

  datatype Relation = Relation(target: int, kind: RelationType)

  /** IsFriendOfCharacter. */
  predicate IsFriendOf(rels: set<Relation>, target: int)
  {
    Relation(target, Friend) in rels
  }

  /** IsBlockingCharacter. */
  predicate IsBlocking(rels: set<Relation>, target: int)
  {
    Relation(target, Blocked) in rels
  }

  /** What a handler sees of another connected character: its relations and
      the characters it asked to be friends with. */
  datatype Peer = Peer(relations: set<Relation>, friendRequests: seq<int>)

  /** IsBlockedByCharacter: `target` is connected and blocks `me`. */
  predicate BlockedBy(online: map<int, Peer>, me: int, target: int)
  {
    target in online && IsBlocking(online[target].relations, me)
  }

  /** AddRelation: one row more, and no other. */
  function AddRelation(rels: set<Relation>, target: int, kind: RelationType): (r: set<Relation>)
    ensures Relation(target, kind) in r && rels <= r
    ensures forall x :: x in r && x !in rels ==> x == Relation(target, kind)
  {
    rels + {Relation(target, kind)}
  }

  /** DeleteRelation: every row about `target` goes, and no other. */
  function DeleteRelation(rels: set<Relation>, target: int): (r: set<Relation>)
    ensures r <= rels
    ensures !IsFriendOf(r, target) && !IsBlocking(r, target)
    ensures forall x :: x in rels && x.target != target ==> x in r
  {
    set x | x in rels && x.target != target
  }

  /** Deleting undoes adding: a relation added and deleted again leaves the
      list as a plain deletion would, and deleting twice is deleting once. */
  lemma AddThenDelete(rels: set<Relation>, target: int, kind: RelationType)
    ensures DeleteRelation(AddRelation(rels, target, kind), target) == DeleteRelation(rels, target)
    ensures DeleteRelation(DeleteRelation(rels, target), target) == DeleteRelation(rels, target)
    ensures (forall x :: x in rels ==> x.target != target) ==>
      DeleteRelation(AddRelation(rels, target, kind), target) == rels
  {
  }

  /** The character an fdel, blins or bldel line names: exactly three
      tokens, the id a long. */
  function RelationTarget(tokens: seq<string>): (r: Option<int>)
    ensures r.Some? ==> |tokens| == 3 && ParseLong(tokens[2]) == r
  {
    if |tokens| == 3 then ParseLong(tokens[2]) else None
  }

  // ---------------------------------------------------------------------
  // The request (fins, :872-916)

  datatype FriendAddOutcome =
    | NoRequest             // wrong token count, bad id, or the target is not connected
    | ListFull              // FRIEND_FULL
    | AlreadyFriend         // ALREADY_FRIEND
    | BlockedByTarget       // BLACKLIST_BLOCKED
    | BlockingTarget        // BLACKLIST_BLOCKING
    | Asked(target: int)    // the dialog goes out and the request is recorded

  /** The request "fins <type> <id>", split on spaces, from `me` with the
      relations `mine`; `full` is whether my friend list is full. */
  function FriendAdd(tokens: seq<string>, me: int, mine: set<Relation>, full: bool, online: map<int, Peer>): (r: FriendAddOutcome)
  {
    if |tokens| != 4 then NoRequest
    else if full then ListFull
    else match ParseLong(tokens[3])
      case None => NoRequest
      case Some(t) =>
        if IsFriendOf(mine, t) then AlreadyFriend
        else if BlockedBy(online, me, t) then BlockedByTarget
        else if IsBlocking(mine, t) then BlockingTarget
        else if t !in online then NoRequest
        else Asked(t)
  }

  /** A request is recorded exactly when the line has four tokens, my list
      is not full, the id parses, the target is connected, and neither side
      is a friend of or blocks the other. */
  lemma AskedExactly(tokens: seq<string>, me: int, mine: set<Relation>, full: bool, online: map<int, Peer>, t: int)
    ensures FriendAdd(tokens, me, mine, full, online) == Asked(t) <==>
      && |tokens| == 4 && !full && ParseLong(tokens[3]) == Some(t) && t in online
      && !IsFriendOf(mine, t) && !IsBlocking(mine, t) && !BlockedBy(online, me, t)
  {
  }

  /** Blocking a character stops my friend requests to it. */
  lemma BlockingStopsRequests(tokens: seq<string>, me: int, mine: set<Relation>, full: bool, online: map<int, Peer>, t: int)
    ensures FriendAdd(tokens, me, AddRelation(mine, t, Blocked), full, online) != Asked(t)
  {
  }

  // ---------------------------------------------------------------------
  // The answer (#fins, :919-960)

  /** The answer line with '^' read as a space, split on spaces (:921). */
  function AnswerTokens(packet: string): seq<string>
  {
    Split(Replace(packet, '^', ' '), {' '})
  }

  datatype FriendAnswerOutcome =
    | NoAnswer              // nothing happens
    | Befriend(target: int) // "-1": a Friend row on both sides
    | Reject(target: int)   // "-99": the requester's rows about me go, FRIEND_REJECTED
    | BothFull(target: int) // any other choice while my list is full: FRIEND_FULL to both

  /** `me` answers a request of `target`; the requester must still hold me
      among its friend requests. */
  function FriendAnswer(tokens: seq<string>, me: int, mine: set<Relation>, full: bool, online: map<int, Peer>): (r: FriendAnswerOutcome)
    ensures !r.NoAnswer? ==> |tokens| == 4 && ParseLong(tokens[3]) == Some(r.target) && r.target in online
  {
    if |tokens| != 4 then NoAnswer
    else match ParseLong(tokens[3])
      case None => NoAnswer
      case Some(t) =>
        if IsFriendOf(mine, t) || BlockedBy(online, me, t) || IsBlocking(mine, t) then NoAnswer
        else if t !in online || me !in online[t].friendRequests then NoAnswer
        else if tokens[2] == "-1" then Befriend(t)
        else if tokens[2] == "-99" then Reject(t)
        else if full then BothFull(t)
        else NoAnswer
  }

  /** An answer makes friends exactly when it has four tokens, says "-1",
      the requester asked me, and neither side is a friend of or blocks the
      other. */
  lemma BefriendExactly(tokens: seq<string>, me: int, mine: set<Relation>, full: bool, online: map<int, Peer>, t: int)
    ensures FriendAnswer(tokens, me, mine, full, online) == Befriend(t) <==>
      && |tokens| == 4 && tokens[2] == "-1" && ParseLong(tokens[3]) == Some(t)
      && t in online && me in online[t].friendRequests
      && !IsFriendOf(mine, t) && !IsBlocking(mine, t) && !BlockedBy(online, me, t)
  {
  }

  /** The request is never withdrawn, but a retried answer adds nothing:
      once the friend row exists the guard refuses every later answer about
      the same character, whatever the rest of the world looks like. */
  lemma RetriedAnswerIgnored(tokens: seq<string>, me: int, mine: set<Relation>, full: bool, online: map<int, Peer>,
                             full2: bool, online2: map<int, Peer>)
    requires FriendAnswer(tokens, me, mine, full, online).Befriend?
    ensures FriendAnswer(tokens, me, AddRelation(mine, FriendAnswer(tokens, me, mine, full, online).target, Friend),
                         full2, online2) == NoAnswer
  {
  }

  /** The dialog choices the request offers (:890), "#fins^-1^<id>" and
      "#fins^-99^<id>". */
  function FinsChoice(choice: string, requester: int): string
  {
    "#fins^" + choice + "^" + ShowInt(requester)
  }

  lemma FinsLiterals()
    ensures Replace(" #fins^", '^', ' ') == " #fins "
    ensures Replace("^", '^', ' ') == " "
  {
    assert " #fins^" == " #fins" + "^";
    ReplaceAbsent(" #fins", '^', ' ');
    ReplaceConcat(" #fins", "^", '^', ' ');
  }

  lemma FinsJoin(k: string, c: string, id: string)
    ensures Join([k, "#fins", c, id], ' ') == k + " #fins " + c + " " + id
  {
    var parts := [k, "#fins", c, id];
    assert parts[1..] == ["#fins", c, id];
    assert parts[1..][1..] == [c, id];
    assert parts[1..][1..][1..] == [id];
    assert Join([id], ' ') == id;
    assert Join([c, id], ' ') == c + " " + id;
    assert Join(["#fins", c, id], ' ') == "#fins " + (c + " " + id);
  }

  lemma FinsReplaced(k: string, c: string, id: string)
    requires '^' !in k && '^' !in c && '^' !in id
    ensures Replace(k + " #fins^" + c + "^" + id, '^', ' ') == k + " #fins " + c + " " + id
  {
    FinsLiterals();
    ReplaceAroundWords(k, " #fins^", c, "^", id, '^', ' ');
  }

  lemma FinsWords(k: string, c: string, id: string)
    requires ' ' !in k && ' ' !in c && ' ' !in id && '^' !in k && '^' !in c && '^' !in id
    ensures AnswerTokens(k + " #fins^" + c + "^" + id) == [k, "#fins", c, id]
  {
    FinsReplaced(k, c, id);
    FinsJoin(k, c, id);
    var parts := [k, "#fins", c, id];
    assert forall i :: 0 <= i < |parts| ==> ' ' !in parts[i];
    JoinThenSplit(parts, ' ');
  }

  lemma FinsLine(k: string, c: string, id: string)
    ensures k + " " + ("#fins^" + c + "^" + id) == k + " #fins^" + c + "^" + id
  {
  }

  /** The client's answer to the dialog — its keep-alive number, a space and
      the chosen choice — has exactly the four tokens the answer handler
      reads, with the choice at index 2 and the requester at index 3. */
  lemma FinsAnswerTokens(keepAlive: nat, choice: string, requester: int)
    requires choice == "-1" || choice == "-99"
    requires LongMin <= requester <= LongMax
    ensures AnswerTokens(ShowNat(keepAlive) + " " + FinsChoice(choice, requester))
            == [ShowNat(keepAlive), "#fins", choice, ShowInt(requester)]
    ensures ParseLong(ShowInt(requester)) == Some(requester)
  {
    var k, id := ShowNat(keepAlive), ShowInt(requester);
    ShowIntPlain(keepAlive);
    ShowIntPlain(requester);
    assert ShowInt(keepAlive) == k;
    assert ' ' !in choice && '^' !in choice;
    FinsLine(k, choice, id);
    FinsWords(k, choice, id);
    ParseShowInRange(requester, LongMin, LongMax);
  }

  /** Accepting through the dialog makes friends when the request stands
      and nothing blocks it. */
  lemma DialogAcceptBefriends(keepAlive: nat, me: int, mine: set<Relation>, full: bool, online: map<int, Peer>, requester: int)
    requires LongMin <= requester <= LongMax
    requires requester in online && me in online[requester].friendRequests
    requires !IsFriendOf(mine, requester) && !IsBlocking(mine, requester) && !BlockedBy(online, me, requester)
    ensures FriendAnswer(AnswerTokens(ShowNat(keepAlive) + " " + FinsChoice("-1", requester)), me, mine, full, online)
            == Befriend(requester)
  {
    FinsAnswerTokens(keepAlive, "-1", requester);
  }
}
