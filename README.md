# OpenNos packet handlers in Dafny

This project models the core of the OpenNos game server's
`BasicPacketHandler`. That class holds the handlers that one client session
runs for the packets its player sends. Each handler does three things:
- it reads a packet, as a raw line split on spaces or as a typed packet;
- it checks a series of guards;
- it updates the session's character, sometimes one other character, or
  the world's group registry, and sends reply packets.

The model keeps that shape:

- `Sessions.Character` is a class with the character's fields that the
  handlers update in place:
  - the option flags, gold, the relation rows and friend requests;
  - the sent group requests and the group back reference;
  - the quick bar and the mail box;
  - the pulse counter, direction, faction and Act4 record;
  - hp and mp, position, the last portal time and the biography.
- `Sessions.World` is the server's registry. It holds the connected
  characters by id and the group list, with the id the next group gets.
  Group capacity is a constant of the world.
- `Handler.BasicPacketHandler` is a class with one method per modelled
  handler, plus `sent`: the sequence of everything the handler sent,
  broadcast or called, in order. An `Events.Event` records the audience (the
  session itself, one player, a map selector, the whole server, or another
  channel through the hub) and a message key or text.
- Each handler's decision is a pure function in its own module:
  - `Options`, the `gop` options;
  - `Friends`, friend and blacklist;
  - `Groups`, the group registry and the `pjoin` state machine;
  - `Quicklist`, the `qset` edits;
  - `Mail`, `pst` and `pcl`;
  - `Bazaar`, `c_reg` and `c_buy`;
  - `Vitals`, pulse and revival;
  - `Travel`, `preq`;
  - `Chat`, say, whisper and message assembly;
  - `Factions`, the faction stone.

  Each handler method is proved to carry out exactly that decision and to
  keep the world valid. The properties the server relies on are lemmas
  about the functions: round trips, replay safety, invariants and
  exact-acceptance conditions.
- `Text` models the .NET string operations the handlers use:
  - `Split`, `Join`, `Replace`, `Trim` and `Substring` truncation;
  - `String.Length` in UTF-16 code units, so a character outside the Basic Multilingual Plane counts twice;
  - decimal `TryParse` for byte, short, int and long;
  - the loops that append tokens to a message.

Two behaviours of the code may surprise a reader. The model follows the
code in both:

- **Already grouped.** A group request is answered ALREADY_IN_GROUP
  whenever requester and target are both in some group, even in two
  different groups, and not only when they are grouped together
  (BasicPacketHandler.cs:632-637). `Groups.RequestDecision` does the same.
- **Absence.** An absent record is not always a normal outcome. Several
  handlers index tokens without checking the count, or dereference a
  lookup that can be null, and then throw. Examples are the
  missing seller in `c_buy` (:283) and an ACCEPTED_SHARE answer from a
  character without a group (:773). The model treats each such throw as the
  end of the handler: what was already sent stays sent, and nothing else
  changes (`Bazaar.SellerGone`, `Handler.ShareAccepted`, and the
  short-packet no-ops).

## Model

| member | source | states |
|---|---|---|
| Handler.BasicPacketHandler.CharacterOptionChange | OpenNos.Handler/BasicPacketHandler.cs:73-169 | a flag option stores the client's choice, negated for the five inverted options, and no other flag changes; only the first member of the character's group changes the group's sharing mode (to 0 when active, 1 otherwise), anyone else gets NOT_MASTER and a character without a group gets nothing; the SHARING broadcast goes out only on a current map instance; the registry stays valid |
| Options.StoredFlagRoundTrip | OpenNos.Handler/BasicPacketHandler.cs:75-135 | the client reads back exactly the switch it sent, and each stored value comes from exactly one choice |
| Options.FlagMessageIdentifies | OpenNos.Handler/BasicPacketHandler.cs:77-135 | two confirmations carry the same message key exactly when they are for the same option and the same new value |
| Options.SharingMode | OpenNos.Handler/BasicPacketHandler.cs:148-165 | the mode is 0 or 1, and 0 exactly when the switch is active |
| Sessions.World.SetSharingMode | OpenNos.Handler/BasicPacketHandler.cs:150-163 | the registry becomes the old one with only that group's sharing mode replaced, and stays valid |
| Groups.SharingModeKeepsMembers | OpenNos.Handler/BasicPacketHandler.cs:153-162 | changing a sharing mode keeps the registry well formed and every character's group |
| Handler.BasicPacketHandler.Dir | OpenNos.Handler/BasicPacketHandler.cs:214-221 | the direction changes only when the packet names the session's own character, and the map is told only when the session has a current map instance |
| Handler.BasicPacketHandler.Pulse | OpenNos.Handler/BasicPacketHandler.cs:1432-1440 | the new pulse counter and disconnection flag are those of `Vitals.PulseStep` on the old ones; the timeout is cleared in every case |
| Vitals.PulseStep | OpenNos.Handler/BasicPacketHandler.cs:1434-1438 | the expected tick grows by 60, and the session is disconnected exactly when it already was or the tick differs from the new expected one |
| Vitals.HonestClientStays | OpenNos.Handler/BasicPacketHandler.cs:1434-1438 | a client that sends the ticks 60, 120, 180, ... beyond its last pulse is never disconnected, and the counter ends 60 per pulse further on |
| Vitals.DisconnectStays | OpenNos.Handler/BasicPacketHandler.cs:1435-1438 | once disconnected, a session stays disconnected through any later pulses |
| Vitals.ReplayDisconnects | OpenNos.Handler/BasicPacketHandler.cs:1434-1438 | sending an accepted tick a second time disconnects the session |
| Handler.BasicPacketHandler.Revive | OpenNos.Handler/BasicPacketHandler.cs:1475-1542 | hp, mp, gold and the sent events are exactly those `Vitals.Revive` decides; a revival paid in gold stamps the last PvP revival with now; a refused or first-position revival changes no field |
| Vitals.ReviveFair | OpenNos.Handler/BasicPacketHandler.cs:1486-1539 | only a character with hp at most 0 is revived; a revival in place spends seeds only above level 20 and only those held, or else gold only as much as is held, never both, and restores hp and mp within their maxima, in full unless seeds were used |
| Handler.RevivalEvents | OpenNos.Handler/BasicPacketHandler.cs:1494-1537 | a revival sends something exactly when it happens, a restored one refreshes the stats, and the tp and revive map broadcasts go out exactly for a restored revival on a current map instance |
| Handler.BasicPacketHandler.Preq | OpenNos.Handler/BasicPacketHandler.cs:1369-1426 | the character leaves through the first portal it stands next to exactly when `Travel.Preq` allows it, and the last-portal time becomes now; CANT_MOVE and PORTAL_BLOCKED are sent in their cases and nothing changes otherwise |
| Travel.NearIsDistanceOne | OpenNos.Handler/BasicPacketHandler.cs:1382-1383 | standing near a portal means a Chebyshev distance of at most one from its source tile |
| Travel.FirstNear | OpenNos.Handler/BasicPacketHandler.cs:1380-1384 | the result is the first portal from the given index on that the character stands next to, or none when there is none |
| Travel.FindNearPortal | OpenNos.Handler/BasicPacketHandler.cs:1380-1384 | the loop over the portals finds exactly the first portal near the character |
| Travel.TravelExactly | OpenNos.Handler/BasicPacketHandler.cs:1375-1409 | travel happens exactly when four seconds have passed, there is a map, a portal is near, its type is open, the character is alive and the portal does not lead into the enemy faction's base, and it goes through a portal the character stands next to |
| Handler.BasicPacketHandler.Say | OpenNos.Handler/BasicPacketHandler.cs:1548-1606 | what a say sends is `Chat.SayEvents` for the session's mute state, language check, map and hp |
| Chat.SaySelectors | OpenNos.Handler/BasicPacketHandler.cs:1556-1603 | every map broadcast of a say uses a map selector |
| Chat.SayOnMap | OpenNos.Handler/BasicPacketHandler.cs:1582-1603 | on an Act4 map a living speaker's text goes garbled to the other factions and in clear to its own, a dead speaker's goes garbled to everyone else; elsewhere it goes in clear to everyone else |
| Chat.SayConfidential | OpenNos.Handler/BasicPacketHandler.cs:1582-1597 | on an Act4 map the clear text reaches only characters of the speaker's faction |
| Chat.SayReachesMap | OpenNos.Handler/BasicPacketHandler.cs:1582-1603 | every other character on the map receives the say, in clear or garbled |
| Chat.Recipients | OpenNos.Handler/BasicPacketHandler.cs:1585-1602 | a map selector only ever reaches characters on the map |
| Handler.BasicPacketHandler.FriendTalk | OpenNos.Handler/BasicPacketHandler.cs:804-842 | a talk line with a friend id sends "talk  <my id> <text>" to the friend's session, or through the hub with FRIEND_OFFLINE when the hub cannot deliver; a short or unparsable line sends nothing |
| Handler.AssembleMessage | OpenNos.Handler/BasicPacketHandler.cs:812-822 | the message loop produces exactly `Chat.MessageText`: the tokens from the given index, each followed by a space, cut to the limit and trimmed |
| Text.AccumulateTokens | OpenNos.Handler/BasicPacketHandler.cs:813-816 | the loop appends exactly the tokens from the given index on, each followed by the separator |
| Chat.MessageText | OpenNos.Handler/BasicPacketHandler.cs:817-822 | an assembled message never takes more UTF-16 code units than its limit |
| Chat.ShortMessageKeepsWords | OpenNos.Handler/BasicPacketHandler.cs:812-822 | when the words fit the limit in UTF-16 code units, the message is exactly the words joined by single spaces |
| Handler.BasicPacketHandler.FriendDelete | OpenNos.Handler/BasicPacketHandler.cs:845-869 | both characters lose their rows about each other (the absent one through the relation store), nobody else's rows change, and a malformed line changes nothing |
| Friends.AddRelation | OpenNos.Handler/BasicPacketHandler.cs:935-936 | the row is added and no other row appears or goes |
| Friends.DeleteRelation | OpenNos.Handler/BasicPacketHandler.cs:855-860 | every row about the target goes and every other row stays |
| Friends.AddThenDelete | OpenNos.Handler/BasicPacketHandler.cs:845-869 | deleting after adding gives what deleting alone gives, deleting twice is deleting once, and adding then deleting restores a list without rows about the target |
| Friends.RelationTarget | OpenNos.Handler/BasicPacketHandler.cs:847-851 | a target is read only from a line of exactly three tokens whose third is a long |
| Handler.BasicPacketHandler.FriendAdd | OpenNos.Handler/BasicPacketHandler.cs:872-916 | a recorded request appends the target to my friend requests and sends it the accept/reject dialog; each refusal sends its message and records nothing |
| Friends.AskedExactly | OpenNos.Handler/BasicPacketHandler.cs:874-914 | a request is recorded exactly when the line has four tokens, my list is not full, the id parses, the target is connected, I hold no friend or block row about it and it does not block me |
| Friends.BlockingStopsRequests | OpenNos.Handler/BasicPacketHandler.cs:899-903 | after I block a character, no friend request of mine to it is recorded |
| Handler.BasicPacketHandler.FriendAddResponse | OpenNos.Handler/BasicPacketHandler.cs:919-960 | accepting adds a Friend row on both sides and changes nobody else's rows; rejecting removes the requester's rows about me; a full list tells both sides; any other answer changes nothing |
| Friends.FriendAnswer | OpenNos.Handler/BasicPacketHandler.cs:921-958 | an answer has an effect only for a four-token line whose id parses to a connected character |
| Friends.BefriendExactly | OpenNos.Handler/BasicPacketHandler.cs:921-941 | "-1" befriends exactly when the line has four tokens, the requester holds my id among its friend requests, I hold no friend or block row about it and it does not block me |
| Friends.RetriedAnswerIgnored | OpenNos.Handler/BasicPacketHandler.cs:929-932 | once a friend row exists, a retried answer about the same character has no effect, whatever else changed |
| Friends.FinsAnswerTokens | OpenNos.Handler/BasicPacketHandler.cs:890-921 | the client's answer to the dialog splits into exactly the four tokens the answer handler reads, and its id parses back |
| Friends.DialogAcceptBefriends | OpenNos.Handler/BasicPacketHandler.cs:890-941 | accepting through the dialog befriends when the request stands and nothing blocks it |
| Handler.BasicPacketHandler.BlacklistDelete | OpenNos.Handler/BasicPacketHandler.cs:963-976 | every row about the named character goes from my list; a malformed line changes nothing |
| Handler.BasicPacketHandler.BlacklistAdd | OpenNos.Handler/BasicPacketHandler.cs:979-992 | a Blocked row for the named character is added, so I am blocking it afterwards; a malformed line changes nothing |
| Handler.BasicPacketHandler.GroupJoin | OpenNos.Handler/BasicPacketHandler.cs:616-675 | a request or invitation is recorded and offered as a dialog exactly when `Groups.RequestDecision` says so, and is otherwise refused with its message; asking to share sends a dialog to every other member of my group; no self request ever appears |
| Groups.RecordedExactly | OpenNos.Handler/BasicPacketHandler.cs:622-662 | a request is recorded exactly when the target is not 0 or oneself, is connected, its group is not full, not both are grouped, it does not block the requester and does not refuse group requests |
| Handler.RequestEvents | OpenNos.Handler/BasicPacketHandler.cs:626-661 | an ignored request sends nothing, and the accept/decline dialog goes to the target exactly when the request is recorded |
| Handler.ShareDialogs | OpenNos.Handler/BasicPacketHandler.cs:671 | every other member of the group gets the share dialog, and nobody else |
| Handler.BasicPacketHandler.GroupJoinValid | OpenNos.Handler/BasicPacketHandler.cs:678-784 | an answer that names no pending request changes nothing; otherwise the requester loses one pending entry for me, nobody else's requests change, and only the two characters' groups can move; an accept makes the registry `Groups.AcceptGroups` of the old one, advances the next group id only for a new group, sets the joiner's back reference (both for a new group) and sends `AcceptEvents`; every other answer leaves groups and ids alone and sends its own messages |
| Handler.BasicPacketHandler.Answer | OpenNos.Handler/BasicPacketHandler.cs:695-782 | the pending entry is removed first, so an answer to a request made once cannot be replayed; accepting applies `Groups.AcceptGroups`, advances the next group id only for a new group, sets the back reference of whoever joined (both for a new group) and broadcasts pidx only on a current map instance; the other answers send only their messages and leave the groups alone |
| Groups.RemoveFirst | OpenNos.Handler/BasicPacketHandler.cs:702 | one occurrence of the id leaves the list, or none when it is absent |
| Groups.RemoveFirstOnce | OpenNos.Handler/BasicPacketHandler.cs:695-702 | a request recorded once is gone after its answer, and one recorded twice still stands |
| Sessions.World.PendingTo | OpenNos.Handler/BasicPacketHandler.cs:693-703 | only connected characters can hold a pending request; the set is those that list the given id among their sent group requests |
| Sessions.World.Accept | OpenNos.Handler/BasicPacketHandler.cs:706-760 | the registry takes the accept decision, a created group takes the next id, each joiner's back reference names its new group, and the registry stays valid |
| Sessions.World.UpdateRegistry | OpenNos.Handler/BasicPacketHandler.cs:706-754 | the registry becomes `Groups.AcceptGroups` of the old one, and the next id advances only when a group is created |
| Groups.AcceptKeepsWellFormed | OpenNos.Handler/BasicPacketHandler.cs:706-760 | after any accept every group has between one and capacity distinct members, and no character is in two groups |
| Groups.JoinKeepsWellFormed | OpenNos.Handler/BasicPacketHandler.cs:724-746 | adding a character that is in no group to a group that is not full keeps the registry well formed, puts the joiner in that group and moves nobody else |
| Groups.CreateKeepsWellFormed | OpenNos.Handler/BasicPacketHandler.cs:748-754 | a new group of two ungrouped characters keeps the registry well formed and holds both |
| Groups.AcceptGroupsBoth | OpenNos.Handler/BasicPacketHandler.cs:724-759 | after a successful accept both characters are in one and the same group, and a created group lists the requester first, as its master |
| Groups.AcceptGroupIds | OpenNos.Handler/BasicPacketHandler.cs:724-759 | an accept moves each of the two characters into the group its branch names and nobody else |
| Groups.AcceptKeepsOthers | OpenNos.Handler/BasicPacketHandler.cs:706-760 | an accept never moves a third character |
| Groups.AcceptIdsBelow | OpenNos.Handler/BasicPacketHandler.cs:750-754 | group ids stay below the next fresh id |
| Groups.AcceptKeepsBackRefs | OpenNos.Handler/BasicPacketHandler.cs:757-759 | when every back reference agrees with the registry before an accept, they all agree after it |
| Groups.FullAcceptChangesNothing | OpenNos.Handler/BasicPacketHandler.cs:715-721 | when either side's group is full the accept is refused with GROUP_FULL and the registry does not change |
| Groups.GroupIndexOf | OpenNos.Handler/BasicPacketHandler.cs:727 | the result is the first group holding the character, or none when no group holds it |
| Groups.OnlyGroupOf | OpenNos.Handler/BasicPacketHandler.cs:727-739 | in a well-formed registry a member's group is the only group holding it |
| Handler.AcceptEvents | OpenNos.Handler/BasicPacketHandler.cs:711-764 | both already grouped sends nothing, GROUP_FULL goes to the requester exactly when a group is full, and then to both sides and nothing else, exactly a join or a creation updates the group, ending with the pidx broadcast on a current map instance, and nothing is broadcast on the map without one |
| Handler.ShareAccepted | OpenNos.Handler/BasicPacketHandler.cs:773-777 | the change of share is announced exactly when the requester is in my group |
| Groups.DialogAnswerDecodes | OpenNos.Handler/BasicPacketHandler.cs:661-683 | the client's answer to the group dialog, after both replacement passes, decodes to the offered choice and the requester's id |
| Groups.DialogAnswerTokens | OpenNos.Handler/BasicPacketHandler.cs:683 | the answer, with '^' and '#' replaced by spaces, splits into the keep-alive number, "pjoin", the choice and the id |
| Handler.BasicPacketHandler.SetQuicklist | OpenNos.Handler/BasicPacketHandler.cs:1710-1793 | the quick bar and the replies are exactly those of `Quicklist.Qset` on the old bar |
| Quicklist.Edit | OpenNos.Handler/BasicPacketHandler.cs:1713-1791 | the in-place edit produces exactly the bar and replies `Quicklist.Qset` describes |
| Quicklist.MoveEntries | OpenNos.Handler/BasicPacketHandler.cs:1751-1777 | the exchange done in place produces exactly `Quicklist.Move` |
| Quicklist.RemoveMatching | OpenNos.Handler/BasicPacketHandler.cs:1732 | the loop keeps exactly the entries `Quicklist.RemoveAll` keeps |
| Quicklist.RemoveAll | OpenNos.Handler/BasicPacketHandler.cs:1732 | no entry of the slot remains, every other entry stays, and nothing new appears |
| Quicklist.FindSingle | OpenNos.Handler/BasicPacketHandler.cs:1751-1755 | the search finds what `SingleOrDefault` finds: the one entry of the slot, none, or more than one |
| Quicklist.PutThenLookup | OpenNos.Handler/BasicPacketHandler.cs:1732-1743 | after type 0 or 1 the slot holds exactly one entry, with the new type, slot and position, and the bar keeps one entry per slot |
| Quicklist.ClearThenLookup | OpenNos.Handler/BasicPacketHandler.cs:1785-1786 | after type 3 the slot is empty and the bar keeps one entry per slot |
| Quicklist.PutThenClear | OpenNos.Handler/BasicPacketHandler.cs:1732-1786 | clearing a slot just set gives what clearing the old bar gives |
| Quicklist.MoveKeepsUnique | OpenNos.Handler/BasicPacketHandler.cs:1751-1777 | type 2 keeps one entry per slot |
| Quicklist.MoveKeepsOthers | OpenNos.Handler/BasicPacketHandler.cs:1751-1777 | type 2 keeps the bar's length and every entry outside the two slots |
| Quicklist.MoveBack | OpenNos.Handler/BasicPacketHandler.cs:1757-1775 | moving an entry and moving it back restores the bar exactly, whether the target slot was free or taken |
| Quicklist.QsetKeepsUnique | OpenNos.Handler/BasicPacketHandler.cs:1710-1793 | every qset packet keeps the bar at one entry per slot |
| Quicklist.QsetIgnoresMalformed | OpenNos.Handler/BasicPacketHandler.cs:1714-1720 | fewer than five tokens, a type or slot that is not a 16-bit number, or a type outside 0 to 3 leaves the bar as it is and sends nothing |
| Quicklist.MatchesIsKey | OpenNos.Handler/BasicPacketHandler.cs:1732-1742 | for a morph that fits 16 bits, an entry is in the slot exactly when its (q1, q2, stored morph) is the slot's key |
| Quicklist.WideMorphDuplicates | OpenNos.Handler/BasicPacketHandler.cs:1732-1742 | with a morph beyond 16 bits, two puts into the same slot leave two entries there |
| Handler.BasicPacketHandler.SendMail | OpenNos.Handler/BasicPacketHandler.cs:1609-1707 | a sent mail stores the sender's copy under the next key of the box; opening marks the mail read; deleting removes it; an unknown receiver gets USER_NOT_FOUND; any other line changes nothing |
| Mail.ParsePost | OpenNos.Handler/BasicPacketHandler.cs:1613-1672 | a send needs exactly ten tokens, and an open or a delete exactly five |
| Mail.NextMailKey | OpenNos.Handler/BasicPacketHandler.cs:1659 | the key is one more than the largest key of the box, or 1 for an empty box |
| Mail.NextKeyUnique | OpenNos.Handler/BasicPacketHandler.cs:1659 | there is only one such key, and it is not yet in the box |
| Mail.SenderMorphId | OpenNos.Handler/BasicPacketHandler.cs:1636 | the stored morph is a 16-bit value: -1 without a morph, the morph itself when it fits, never negative for a positive morph |
| Mail.Open | OpenNos.Handler/BasicPacketHandler.cs:1676-1683 | opening marks that mail read and changes no other mail and no key |
| Mail.OpenIdempotent | OpenNos.Handler/BasicPacketHandler.cs:1678-1683 | opening twice is opening once |
| Mail.Delete | OpenNos.Handler/BasicPacketHandler.cs:1689-1701 | deleting removes exactly that key and keeps every other mail |
| Mail.AddThenDelete | OpenNos.Handler/BasicPacketHandler.cs:1659-1700 | storing under a fresh key and deleting that key gives the box back |
| Handler.BasicPacketHandler.GetGift | OpenNos.Handler/BasicPacketHandler.cs:483-548 | the box and the sent events are exactly those of `Mail.Gift` |
| Mail.GiftNeverLosesAttachment | OpenNos.Handler/BasicPacketHandler.cs:495-545 | a mail leaves the box only when its attachment went to the inventory or the parcel was refused, and only the mail named goes |
| Mail.GiftOnce | OpenNos.Handler/BasicPacketHandler.cs:495-545 | a gift answer that removed a mail does nothing a second time |
| Handler.BasicPacketHandler.SellBazaar | OpenNos.Handler/BasicPacketHandler.cs:402-480 | the outcome is `Bazaar.Sell`, gold drops by exactly the tax when the item is listed and otherwise stays, and never goes negative |
| Bazaar.TaxWithoutMedal | OpenNos.Handler/BasicPacketHandler.cs:407-408 | 500 up to a price of 100000, then the price divided by 200, rounded down |
| Bazaar.TaxWithMedal | OpenNos.Handler/BasicPacketHandler.cs:407-409 | 50 below 4000, from there 60 plus steps of 30, capped at 10000 |
| Bazaar.TaxMonotonic | OpenNos.Handler/BasicPacketHandler.cs:407-410 | a dearer listing never pays less tax, with or without a medal |
| Bazaar.MedalTaxCap | OpenNos.Handler/BasicPacketHandler.cs:409 | the medal tax is at its cap of 10000 exactly from a price of 668000 on |
| Bazaar.DurationHours | OpenNos.Handler/BasicPacketHandler.cs:435-452 | a duration exists exactly for durability 1 to 4, a whole number of days from 24 to 720 hours |
| Bazaar.SellListedExactly | OpenNos.Handler/BasicPacketHandler.cs:411-472 | a listing is made exactly when every guard passes, and it then charges the tax of the total price, which is positive and affordable |
| Bazaar.DurabilityCheckedLate | OpenNos.Handler/BasicPacketHandler.cs:430-452 | an unknown durability is noticed only after the item moved into the bazaar inventory |
| Bazaar.CeilingBites | OpenNos.Handler/BasicPacketHandler.cs:425-429 | without a medal, a listing at 1000000 is refused and one at 999999 is listed with a tax of 4999 |
| Handler.SellEvents | OpenNos.Handler/BasicPacketHandler.cs:420-478 | rc_reg is sent exactly when the item is listed, and silent refusals send nothing |
| Handler.BasicPacketHandler.BuyBazaar | OpenNos.Handler/BasicPacketHandler.cs:268-340 | the outcome is `Bazaar.Buy`, gold drops by exactly the price on a purchase and otherwise stays, and never goes negative |
| Bazaar.BuyExactly | OpenNos.Handler/BasicPacketHandler.cs:271-304 | a purchase goes through exactly when the listing exists, the amount is positive, in stock and affordable, the seller exists, the inventory has room and a package is bought whole; it costs amount times unit price |
| Handler.BuyEvents | OpenNos.Handler/BasicPacketHandler.cs:288-337 | the gold update is sent exactly on a purchase, and the silent refusals send nothing |
| Handler.BasicPacketHandler.Guri | OpenNos.Handler/BasicPacketHandler.cs:1006-1060 | with a presentation item the biography becomes `Chat.PresentationText` and the item is used; with a speaker, an unmuted character's `Chat.SpeakerText` goes to the whole server and a muted one gets SPEAKER_CANT_BE_USED; nothing else changes |
| Handler.PresentationItem | OpenNos.Handler/BasicPacketHandler.cs:1013 | an item is chosen exactly when 1117 or 9013 is held, and it is one that is held |
| Chat.BuildPresentationText | OpenNos.Handler/BasicPacketHandler.cs:1016-1028 | the loop and the cuts produce exactly `Chat.PresentationText` |
| Chat.PresentationIsJoin | OpenNos.Handler/BasicPacketHandler.cs:1019-1028 | without words there is no text (the cut throws); otherwise the text is the words joined by '^', trimmed and cut to 60 |
| Chat.PresentationText | OpenNos.Handler/BasicPacketHandler.cs:1019-1028 | a biography never takes more than 60 UTF-16 code units |
| Chat.BuildSpeakerText | OpenNos.Handler/BasicPacketHandler.cs:1041-1051 | the loop and the cuts produce exactly `Chat.SpeakerText` |
| Chat.SpeakerText | OpenNos.Handler/BasicPacketHandler.cs:1041-1051 | a speaker line never takes more than 120 UTF-16 code units |
| Chat.SpeakerNamed | OpenNos.Handler/BasicPacketHandler.cs:1041-1051 | the prefix naming the speaker survives the cut and the trim whenever it fits in 120 UTF-16 code units |
| Handler.BasicPacketHandler.FactionChange | OpenNos.Handler/BasicPacketHandler.cs:1308-1339 | a held stone of the chosen faction sets the faction and resets the Act4 kills, deaths and points to 0; Act4 mode refuses with its message; anything else changes nothing |
| Factions.FactionChange | OpenNos.Handler/BasicPacketHandler.cs:1315-1323 | a change is to a 16-bit faction whose stone is held |
| Factions.ChangedExactly | OpenNos.Handler/BasicPacketHandler.cs:1308-1323 | the faction changes exactly when the answer is 750, the server is not in Act4 mode, the faction parses as a 16-bit number and its stone is held |
| Handler.BasicPacketHandler.Whisper | OpenNos.Handler/BasicPacketHandler.cs:1965-2041 | what a whisper sends is `Chat.WhisperEvents` for the block, the receiver's session on this channel and the hub's answer |
| Handler.BasicPacketHandler.WhisperTargetOf | OpenNos.Handler/BasicPacketHandler.cs:1994-2028 | there is a receiver session exactly when one was found, and it is the one with that id |
| Handler.WhisperReply | OpenNos.Handler/BasicPacketHandler.cs:1969-2035 | the checks in the handler's order produce exactly `Chat.WhisperEvents` |
| Chat.WhisperEvents | OpenNos.Handler/BasicPacketHandler.cs:1984-2035 | a blocked sender gets BLACKLIST_BLOCKED only; the text reaches the receiver's session exactly when nothing blocks it and a "GM" whisper goes to an admin |
| Chat.WhisperNameNotInText | OpenNos.Handler/BasicPacketHandler.cs:1969-1973 | the text starts after the token that names the receiver |
| Chat.WhisperText | OpenNos.Handler/BasicPacketHandler.cs:1971-1982 | a whispered text never takes more than 60 UTF-16 code units |
| Chat.SpeakKind | OpenNos.Handler/BasicPacketHandler.cs:1998 | a whisper's speech kind is one of the two whisper kinds, 5 or 15 |
| Handler.SelfPackets | OpenNos.Handler/BasicPacketHandler.cs:1745-1786 | each reply goes to the session, one packet per reply, in order |
| Text.Split | OpenNos.Handler/BasicPacketHandler.cs:806 | a split has at least one part and no part holds a separator |
| Text.SplitThenJoin | OpenNos.Handler/BasicPacketHandler.cs:806 | joining the parts of a split with its separator gives the line back |
| Text.JoinThenSplit | OpenNos.Handler/BasicPacketHandler.cs:806 | splitting parts joined by a separator they do not contain gives the parts back |
| Text.ReplaceThenSplit | OpenNos.Handler/BasicPacketHandler.cs:921 | replacing '^' by a space and splitting on spaces equals splitting on both characters |
| Text.Truncate | OpenNos.Handler/BasicPacketHandler.cs:817-820 | the cut is the longest prefix that fits the limit in UTF-16 code units: the limit, or one unit less when a surrogate pair straddles it; the whole string exactly when it fits |
| Text.Utf16Length | OpenNos.Handler/BasicPacketHandler.cs:817-820 | `Length` counts UTF-16 code units: between the number of characters and twice it, and equal to it exactly when every character is in the Basic Multilingual Plane |
| Text.TrimEnd | OpenNos.Handler/BasicPacketHandler.cs:822 | only trailing white space goes, white space being what Char.IsWhiteSpace accepts (U+00A0, U+3000 and the other Unicode spaces included), and the result does not end in white space |
| Text.Trim | OpenNos.Handler/BasicPacketHandler.cs:822 | the result is the part of the input between its leading and its trailing white space (as Char.IsWhiteSpace defines it), and neither starts nor ends in white space |
| Text.TrimIdempotent | OpenNos.Handler/BasicPacketHandler.cs:822 | trimming twice is trimming once |
| Text.ParseShowInt | OpenNos.Handler/BasicPacketHandler.cs:810 | parsing a number's decimal form gives the number back |
| Text.ParseInRange | OpenNos.Handler/BasicPacketHandler.cs:810 | a parse for a type succeeds only with a value in the type's range |
| Text.ToShort | OpenNos.Handler/BasicPacketHandler.cs:1742 | the cast to short keeps a value in range and otherwise wraps it modulo 65536 into range |

## Left out

- I/O and foreign calls become events or parameters, and are not modelled further. They are:
  - `SendPacket` and `Broadcast`;
  - the character, item, mail and relation stores (`DAOFactory`);
  - the inventory;
  - `Language` lookups;
  - the `Generate*` packet texts;
  - `AppSettings`;
  - map changes.

  Each appears in `sent` as a message key, a generated packet's tag, or a `Call` with its arguments. Answers the model needs from them are parameters of the handler:
  - whether the item was added;
  - whether the seller exists;
  - item counts.
- The cross-channel hub (`HubProxy.Invoke`) is a parameter: the channel that took the message, or none.
- Whether the session has a current map instance is a parameter (`hasMap`, or `onMap` for say) of every modelled handler that broadcasts on the map. Without one the server's `?.` sends nothing, and so does the model.
- `DateTime.Now` and the process start time are an integer `now` in seconds. The running time in seconds is a `double` in the server; the model uses integers.
- The `SpinWait` on the bazaar refresh window is a concurrency gate and is left out, as is every other form of concurrency between sessions.
- The unchecked token indexing at BasicPacketHandler.cs:998 (guri) and :1175 (#guri) throws on a short line. The model makes a short line a no-op, which is what the throw leaves behind.
- Compliment, ncif and req_info are the other handlers with unchecked indexing (:177, :554, :1447). They are not part of this model.
- Handler.BasicPacketHandler.Guri: only guri type 4 (presentation and speaker) is modelled. The emoticon (type 10) and the other types at :998-1168 are left out, because they only broadcast generated effects or work on the inventory.
- Handler.BasicPacketHandler.FactionChange: of the #guri answers only 750, the faction stone, is modelled. The other answers (:1177-1307) are inventory and item effects, with random drops.
- Handlers without guard logic worth a contract are not modelled. They are:
  - JoinMiniland, GetStats, Hero, Rest, StartGame and Walk;
  - GroupLeave and GroupTalk, which call into `Group` and `ServerManager` code;
  - the bazaar list refresh, OpenBazaar and GetBazaar, whose 10% tax uses floating point (:356).
- `Group.JoinGroup`, `ServerManager.AddGroup` and the group lookups are not part of the sources modelled. The model assumes that a join appends the joiner to the member list, and that `new Group()` takes the next group id.
- Handler.BasicPacketHandler.GroupJoinValid: the heap-wide invariant that every character's Group back reference agrees with the registry is not kept on the heap. The handler proves each of the two affected back references (`Sessions.World.Accept`), and `Groups.AcceptKeepsBackRefs` proves that agreement is preserved on a pure map of back references.
- Groups.DecodePJoin: `PacketFactory.Deserialize` is not part of the sources modelled. The model reads the normalised answer line by its non-empty tokens: a keep-alive number, the header "pjoin", a byte request type and a long character id. `Groups.DialogAnswerDecodes` is a round trip against this reading, not against the packet factory.
- Friends.BlockedBy: `IsBlockedByCharacter` is not part of the sources modelled. The model assumes it sees only the relation rows of connected characters, so a block set by a character that is offline goes unnoticed in FriendAdd, FriendAddResponse and Whisper.
- Sessions.World.Accept: the model assumes that `Group.JoinGroup` also sets the joiner's Group back reference. The handler itself sets both back references only for a new group (:758-759).
- Friends.DeleteRelation removes every row about the target. `DeleteRelation` in `Character` is not part of the sources modelled.
- Handler.BasicPacketHandler.SendMail, Mail.Gift and Handler.BasicPacketHandler.GetGift: the mail store deletes by `MailId`, while the box is keyed by its own counter. The model records the `MailDAO.DeleteById` call with the box key. It records that call unconditionally, while the server makes it only when `MailDAO.LoadById` finds the mail; the store is not modelled.
- Text.Truncate: when the cut falls inside a surrogate pair, `Substring` keeps a lone high surrogate, which a Dafny string cannot hold. The model drops it, so its cut is one code unit shorter there.
- Handler.BasicPacketHandler.SellBazaar: prices, taxes and gold are unbounded integers; the server's 64-bit `long` overflow is not modelled.
- Handler.BasicPacketHandler.BuyBazaar: the same holds for `amount * price`.
- Quicklist.QsetKeepsUnique: proved only for a morph that fits 16 bits. A wider morph is stored truncated and breaks the invariant, as `Quicklist.WideMorphDuplicates` shows.
- Handler.BasicPacketHandler.Revive: `HPLoad` and `MPLoad` are parameters, and the integer halving stands for the server's `(int)(x / 2)` on doubles.
- Handler.BasicPacketHandler.Say: the mute, language and Act4 checks come in as parameters (`muted`, `inMainLanguage`, `onMap`).
- Handler.BasicPacketHandler.Whisper: the receiver's identity is checked by name only through the session that carries it; the `try`/`catch` around the handler is not modelled.
