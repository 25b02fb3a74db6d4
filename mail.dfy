/** The parcel post of a character: sending (pst with nine arguments),
    opening and deleting (pst with four), and taking or refusing a gift
    (BasicPacketHandler.cs:483-548, 1609-1707). The character's MailList
    is a dictionary from a local key to the mail. */
module Mail {
  import opened Wrappers
  import opened Text
  import opened Events

  datatype Attachment = Attachment(vnum: int, amount: int)

  datatype Mail = Mail(title: string, message: string, receiverId: int, senderId: int,
                       isSenderCopy: bool, isOpened: bool, senderMorphId: int,
                       attachment: Option<Attachment>)

  /** The morph shown on a mail: -1 without one, 0 when it does not fit a
      16-bit field from above, else the morph cast to 16 bits. */
  function SenderMorphId(morph: int): (r: int)
    ensures ShortMin <= r <= ShortMax
    ensures morph == 0 ==> r == -1
    ensures morph > 0 ==> r >= 0
    ensures 0 < morph <= ShortMax ==> r == morph
  {
    if morph == 0 then -1 else if morph > ShortMax then 0 else ToShort(morph)
  }

  /** The key a new mail gets: one more than the largest key, 1 when there
      is none (OrderBy(Key).Last().Key + 1). */
  predicate IsNextKey(mails: map<int, Mail>, key: int)
  {
    && key !in mails
    && (forall k :: k in mails ==> k < key)
    && (mails == map[] ==> key == 1)
    && (mails != map[] ==> key - 1 in mails)
  }

  /** There is only one such key. */
  lemma NextKeyUnique(mails: map<int, Mail>, k1: int, k2: int)
    requires IsNextKey(mails, k1) && IsNextKey(mails, k2)
    ensures k1 == k2
  {
    if mails != map[] {
      assert k1 - 1 < k2 && k2 - 1 < k1;
    }
  }

  method NextMailKey(mails: map<int, Mail>) returns (key: int)
    ensures IsNextKey(mails, key)
  {
    var rest := mails.Keys;
    var best := 0;
    var seen := false;
    while rest != {}
      invariant rest <= mails.Keys
      invariant forall k :: k in mails && k !in rest ==> k <= best
      invariant seen <==> exists k :: k in mails && k !in rest
      invariant seen ==> best in mails
      invariant !seen ==> best == 0
      decreases |rest|
    {
      NonEmptyHasMember(rest);
      var k :| k in rest;
      if !seen || k > best {
        best := k;
      }
      seen := true;
      rest := rest - {k};
    }
    if !seen {
      assert forall k :: k in mails ==> k !in rest;
    }
    key := best + 1;
  }

  lemma NonEmptyHasMember(s: set<int>)
    requires s != {}
    ensures exists k :: k in s
  {
    if forall k :: k !in s {
      assert false;
    }
  }

  /** The two copies a send stores: the sender's copy and the receiver's mail. */
  function Compose(title: string, message: string, receiverId: int, senderId: int, morph: int, senderCopy: bool): Mail
  {
    Mail(title, message, receiverId, senderId, senderCopy, false, SenderMorphId(morph), None)
  }

  /** The pst packet by its token count. */
  datatype Post =
    | SendPost(receiverName: string, title: string, message: string)
    | OpenPost(id: int, postType: int)
    | DeletePost(id: int, postType: int)
    | NoPost

  function ParsePost(tokens: seq<string>): (p: Post)
    ensures p.SendPost? <==> |tokens| == 10
    ensures (p.OpenPost? || p.DeletePost?) ==> |tokens| == 5
  {
    if |tokens| == 10 then SendPost(tokens[7], tokens[8], tokens[9])
    else if |tokens| == 5 then
      match (ParseInt(tokens[4]), ParseByte(tokens[3]))
      case (Some(id), Some(t)) =>
        if tokens[2] == "3" then OpenPost(id, t)
        else if tokens[2] == "2" then DeletePost(id, t)
        else NoPost
      case _ => NoPost
    else NoPost
  }

  /** Opening marks the mail read and changes nothing else. */
  function Open(mails: map<int, Mail>, id: int): (r: map<int, Mail>)
    ensures r.Keys == mails.Keys
    ensures id in mails ==> r[id] == mails[id].(isOpened := true)
    ensures forall k :: k in mails && k != id ==> r[k] == mails[k]
  {
    if id in mails then mails[id := mails[id].(isOpened := true)] else mails
  }

  /** Opening twice is opening once. */
  lemma OpenIdempotent(mails: map<int, Mail>, id: int)
    ensures Open(Open(mails, id), id) == Open(mails, id)
  {
  }

  /** Deleting removes exactly that key. */
  function Delete(mails: map<int, Mail>, id: int): (r: map<int, Mail>)
    ensures r.Keys == mails.Keys - {id}
    ensures forall k :: k in r ==> r[k] == mails[k]
  {
    mails - {id}
  }

  /** Storing under a fresh key and deleting that key gives the box back. */
  lemma AddThenDelete(mails: map<int, Mail>, key: int, m: Mail)
    requires key !in mails
    ensures Delete(mails[key := m], key) == mails
  {
  }

  // ---------------------------------------------------------------------
  // Gifts (:483-548)

  /** The mail box after the answer and what the handler sends or calls. */
  datatype GiftResult = GiftResult(mails: map<int, Mail>, events: seq<Event>)

  /** The answer "pcl <choice> <id>": 4 takes the attachment, 5 refuses the
      parcel. `canAdd` and `added` are the inventory's answers: is there
      room for the attachment, and was the item created. */
  function Gift(tokens: seq<string>, mails: map<int, Mail>, canAdd: bool, added: bool): (r: GiftResult)
  {
    if |tokens| <= 3 then GiftResult(mails, [])
    else match ParseInt(tokens[3])
      case None => GiftResult(mails, [])
      case Some(id) =>
        if id !in mails then GiftResult(mails, [])
        else if tokens[2] == "4" && mails[id].attachment.Some? then
          var a := mails[id].attachment.value;
          var add := Call("AddNewToInventory", [a.vnum, a.amount]);
          if !canAdd then GiftResult(mails, [Raw(Self, "parcel 5 1 0"), Notice(Self, "NOT_ENOUGH_PLACE")])
          else if !added then GiftResult(mails, [add])
          else GiftResult(Delete(mails, id), [add, Generated(Self, "ivn"), Notice(Self, "ITEM_GIFTED"),
                                              Call("MailDAO.DeleteById", [id]), Raw(Self, "parcel 2 1 " + tokens[3])])
        else if tokens[2] == "5" then
          GiftResult(Delete(mails, id), [Raw(Self, "parcel 7 1 " + tokens[3]), Call("MailDAO.DeleteById", [id])])
        else GiftResult(mails, [])
  }

  /** A mail leaves the box only when its attachment was handed to the
      inventory or the player refused the parcel, and then it is the one
      mail the answer names; no other mail changes. */
  lemma GiftNeverLosesAttachment(tokens: seq<string>, mails: map<int, Mail>, canAdd: bool, added: bool)
    ensures var r := Gift(tokens, mails, canAdd, added);
      r.mails == mails ||
      (|tokens| > 3 && ParseInt(tokens[3]).Some? &&
       var id := ParseInt(tokens[3]).value;
       && id in mails && r.mails == Delete(mails, id)
       && ((tokens[2] == "4" && mails[id].attachment.Some? && added &&
            Call("AddNewToInventory", [mails[id].attachment.value.vnum, mails[id].attachment.value.amount]) in r.events)
           || tokens[2] == "5"))
  {
    if |tokens| > 3 && ParseInt(tokens[3]).Some? {
      var id := ParseInt(tokens[3]).value;
      if id in mails && tokens[2] == "4" && mails[id].attachment.Some? && canAdd && added {
        var a := mails[id].attachment.value;
        assert Gift(tokens, mails, canAdd, added).events[0] == Call("AddNewToInventory", [a.vnum, a.amount]);
      }
    }
  }

  /** Taking a gift a second time finds no mail and does nothing. */
  lemma GiftOnce(tokens: seq<string>, mails: map<int, Mail>, canAdd: bool, added: bool, canAdd2: bool, added2: bool)
    requires Gift(tokens, mails, canAdd, added).mails != mails
    ensures var once := Gift(tokens, mails, canAdd, added).mails;
      Gift(tokens, once, canAdd2, added2) == GiftResult(once, [])
  {
  }
}
