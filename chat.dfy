/** Chat: the text a player's message turns into (friend talk, whisper,
    speaker and presentation, BasicPacketHandler.cs:812-822, 1011-1051,
    1971-1982) and the audience of a say on the map (:1548-1606). */
module Chat {
  import opened Wrappers
  import opened Text
  import opened Events

  // ---------------------------------------------------------------------
  // Message text

  /** The arguments from index `from` on, each followed by a space, cut to
      `limit` UTF-16 code units and trimmed. */
  function MessageText(tokens: seq<string>, from: nat, limit: nat): (r: string)
    ensures Utf16Length(r) <= limit
  {
    var cut := Truncate(JoinTrailing(Drop(tokens, from), " "), limit);
    TrimUnits(cut);
    Trim(cut)
  }

  /** A token a player typed as one word: not empty, no white space. */
  predicate IsWord(t: string)
  {
    t != "" && forall k :: 0 <= k < |t| ==> !IsWhiteSpace(t[k])
  }

  /** A joined text of words starts with the first word's first character
      and ends with the last word's last character. */
  lemma {:induction false} JoinEnds(parts: seq<string>, sep: char)
    requires |parts| >= 1 && forall i :: 0 <= i < |parts| ==> IsWord(parts[i])
    ensures var j, first, last := Join(parts, sep), parts[0], parts[|parts| - 1];
      first != [] && last != [] && j != [] && j[0] == first[0] && j[|j| - 1] == last[|last| - 1]
  {
    assert IsWord(parts[0]) && IsWord(parts[|parts| - 1]);
    if |parts| > 1 {
      var rest := parts[1..];
      JoinEnds(rest, sep);
      var tail := Join(rest, sep);
      assert Join(parts, sep) == parts[0] + [sep] + tail;
      assert rest[|rest| - 1] == parts[|parts| - 1];
    }
  }

  /** When the words fit the limit, the message is exactly the words joined
      by single spaces: the loop's trailing space is trimmed away and
      nothing else is lost. */
  lemma ShortMessageKeepsWords(tokens: seq<string>, from: nat, limit: nat)
    requires from < |tokens|
    requires forall i :: from <= i < |tokens| ==> IsWord(tokens[i])
    requires Utf16Length(JoinTrailing(Drop(tokens, from), " ")) <= limit
    ensures MessageText(tokens, from, limit) == Join(tokens[from..], ' ')
  {
    var parts := tokens[from..];
    assert forall i :: 0 <= i < |parts| ==> IsWord(parts[i]);
    JoinTrailingIsJoin(parts, ' ');
    JoinEnds(parts, ' ');
    TrimPadded(Join(parts, ' '));
  }

  /** The friend message (btk): arguments from index 3, at most 60 code units. */
  function TalkText(tokens: seq<string>): string
  {
    MessageText(tokens, 3, 60)
  }

  /** A whisper names its receiver first, after a leading "GM " when the
      player addresses a game master. */
  function WhisperNameIndex(message: string): nat
  {
    if |message| >= 3 && message[..3] == "GM " then 1 else 0
  }

  /** Where the whisper's text starts: after "GM" and the name, or after the name. */
  function WhisperTextFrom(tokens: seq<string>): nat
    requires |tokens| >= 1
  {
    if tokens[0] == "GM" then 2 else 1
  }

  function WhisperReceiver(message: string): (name: string)
  {
    var tokens := Split(message, {' '});
    if WhisperNameIndex(message) == 1 then
      SplitAtSeparator(message, {' '}, 2);
      tokens[1]
    else tokens[0]
  }

  function WhisperText(message: string): (r: string)
    ensures Utf16Length(r) <= 60
  {
    var tokens := Split(message, {' '});
    MessageText(tokens, WhisperTextFrom(tokens), 60)
  }

  /** The receiver's name is never part of the whispered text: the text
      starts after the token the name was taken from. */
  lemma WhisperNameNotInText(message: string)
    ensures WhisperNameIndex(message) < WhisperTextFrom(Split(message, {' '}))
  {
    if WhisperNameIndex(message) == 1 {
      var rest := message[3..];
      assert message == "GM" + [' '] + rest;
      SplitAfterToken("GM", rest, ' ');
    }
  }

  /** The speaker broadcast: a fixed prefix naming the speaker, then the
      words from index 6, at most 120 UTF-16 code units. */
  function SpeakerPrefix(speakerWord: string, name: string): string
  {
    "<" + speakerWord + "> [" + name + "]:"
  }

  function SpeakerText(speakerWord: string, name: string, tokens: seq<string>): (r: string)
    ensures Utf16Length(r) <= 120
  {
    var cut := Truncate(SpeakerPrefix(speakerWord, name) + JoinTrailing(Drop(tokens, 6), " "), 120);
    TrimUnits(cut);
    Trim(cut)
  }

  /** The speaker text as the handler builds it: the words appended one by
      one after the prefix, then cut and trimmed. */
  method BuildSpeakerText(speakerWord: string, name: string, tokens: seq<string>) returns (message: string)
    ensures message == SpeakerText(speakerWord, name, tokens)
  {
    message := AccumulateTokens(SpeakerPrefix(speakerWord, name), tokens, 6, " ");
    if Utf16Length(message) > 120 {
      message := Truncate(message, 120);
    }
    message := Trim(message);
  }

  /** Cutting and trimming never remove the prefix that names the speaker
      when that prefix fits in 120 code units. */
  lemma SpeakerNamed(speakerWord: string, name: string, tokens: seq<string>)
    requires Utf16Length(SpeakerPrefix(speakerWord, name)) <= 120
    ensures var p := SpeakerPrefix(speakerWord, name);
      var r := SpeakerText(speakerWord, name, tokens);
      |p| <= |r| && r[..|p|] == p
  {
    var p := SpeakerPrefix(speakerWord, name);
    var rest := JoinTrailing(Drop(tokens, 6), " ");
    TruncateKeepsPrefix(p, rest, 120);
    assert p[0] == '<' && p[|p| - 1] == ':';
    TrimKeepsPrefix(Truncate(p + rest, 120), p);
  }

  /** The presentation (biography): the words from index 6 joined by '^',
      the last '^' dropped, trimmed, then cut to 60 code units. With no
      words the Substring call throws and nothing is set. */
  function PresentationText(tokens: seq<string>): (r: Option<string>)
    ensures r.Some? ==> Utf16Length(r.value) <= 60
  {
    var m := JoinTrailing(Drop(tokens, 6), "^");
    if m == "" then None else Some(Truncate(Trim(m[..|m| - 1]), 60))
  }

  /** The presentation as the handler builds it: the words appended one by
      one, each followed by '^', then the last '^' dropped. */
  method BuildPresentationText(tokens: seq<string>) returns (message: Option<string>)
    ensures message == PresentationText(tokens)
  {
    var joined := AccumulateTokens("", tokens, 6, "^");
    assert joined == JoinTrailing(Drop(tokens, 6), "^");
    if joined == "" {
      return None;   // Substring(0, -1) throws
    }
    var text := Trim(joined[..|joined| - 1]);
    if Utf16Length(text) > 60 {
      text := Truncate(text, 60);
    }
    message := Some(text);
  }

  /** The presentation is the words joined by '^', and exists exactly when
      there is at least one word. */
  lemma PresentationIsJoin(tokens: seq<string>)
    ensures PresentationText(tokens).None? <==> |tokens| <= 6
    ensures |tokens| > 6 ==> PresentationText(tokens) == Some(Truncate(Trim(Join(tokens[6..], '^')), 60))
  {
    if |tokens| > 6 {
      JoinTrailingIsJoin(tokens[6..], '^');
      var m := JoinTrailing(tokens[6..], "^");
      assert m[..|m| - 1] == Join(tokens[6..], '^');
    }
  }

  // ---------------------------------------------------------------------
  // Say

  /** The text enemies read on an Act4 map instead of the message. */
  const Garbled := "%#$@#^&**\\!@#$#@%#$%"

  /** The language check applies to messages of more than three words, and
      only when the server requires its main language. */
  predicate LanguageRefused(message: string, mainLanguageRequired: bool, inMainLanguage: bool)
  {
    |Split(message, {' '})| > 3 && mainLanguageRequired && !inMainLanguage
  }

  /** What a say produces. `onMap` is None without a current map instance,
      else whether the map is an Act4 map. */
  function SayEvents(muted: bool, female: bool, message: Option<string>, refused: bool,
                     onMap: Option<bool>, hp: int): (events: seq<Event>)
  {
    if muted then
      (if onMap.Some? then [Notice(OnMap(All), if female then "MUTED_FEMALE" else "MUTED_MALE")] else [])
      + [Notice(Self, "MUTE_TIME"), Notice(Self, "MUTE_TIME")]
    else if message.None? then []
    else if refused then [Notice(Self, "LANGUAGE_REQUIRED"), Notice(Self, "LANGUAGE_REQUIRED")]
    else match onMap
      case None => []
      case Some(true) =>
        if hp < 1 then [Speech(OnMap(AllExceptMe), Garbled, 1)]
        else [Speech(OnMap(AllExceptFactionAndMe), Garbled, 1), Speech(OnMap(OnlyFaction), Trim(message.value), 0)]
      case Some(false) => [Speech(OnMap(AllExceptMe), Trim(message.value), 0)]
  }

  predicate MapSelector(rt: ReceiverType)
  {
    rt.All? || rt.AllExceptMe? || rt.AllExceptFactionAndMe? || rt.OnlyFaction?
  }

  /** Who a map broadcast reaches, given the faction of every character on
      the map and the sender among them. */
  function Recipients(rt: ReceiverType, sender: int, factions: map<int, int>): (r: set<int>)
    requires MapSelector(rt) && sender in factions
    ensures r <= factions.Keys
  {
    match rt
    case All => factions.Keys
    case AllExceptMe => factions.Keys - {sender}
    case AllExceptFactionAndMe => set k | k in factions && k != sender && factions[k] != factions[sender]
    case OnlyFaction => set k | k in factions && factions[k] == factions[sender]
  }

  /** Say uses map selectors only. */
  lemma SaySelectors(muted: bool, female: bool, message: Option<string>, refused: bool, onMap: Option<bool>, hp: int)
    ensures forall e :: e in SayEvents(muted, female, message, refused, onMap, hp) && e.to.OnMap? ==> MapSelector(e.to.receiver)
  {
    var events := SayEvents(muted, female, message, refused, onMap, hp);
    assert forall i :: 0 <= i < |events| && events[i].to.OnMap? ==> MapSelector(events[i].to.receiver);
  }

  /** On an Act4 map the clear text reaches only the sender's own faction;
      everyone else on the map reads the garbled text. */
  lemma SayConfidential(female: bool, message: string, hp: int, sender: int, factions: map<int, int>)
    requires sender in factions
    ensures forall e :: e in SayEvents(false, female, Some(message), false, Some(true), hp) && e.Speech? && e.text != Garbled ==>
      e.to.OnMap? && forall k :: k in Recipients(e.to.receiver, sender, factions) ==> factions[k] == factions[sender]
  {
  }

  /** What a say of a character that is not muted and not refused sends on
      a map. */
  lemma SayOnMap(female: bool, message: string, isAct4: bool, hp: int)
    ensures SayEvents(false, female, Some(message), false, Some(isAct4), hp) ==
      if isAct4 && hp >= 1 then [Speech(OnMap(AllExceptFactionAndMe), Garbled, 1), Speech(OnMap(OnlyFaction), Trim(message), 0)]
      else if isAct4 then [Speech(OnMap(AllExceptMe), Garbled, 1)]
      else [Speech(OnMap(AllExceptMe), Trim(message), 0)]
  {
  }

  /** A say that is not refused reaches every other character on the map,
      in clear or garbled. */
  lemma SayReachesMap(female: bool, message: string, isAct4: bool, hp: int, sender: int, factions: map<int, int>)
    requires sender in factions
    ensures forall k :: k in factions && k != sender ==>
      exists e :: e in SayEvents(false, female, Some(message), false, Some(isAct4), hp) && e.Speech? &&
        e.to.OnMap? && MapSelector(e.to.receiver) && k in Recipients(e.to.receiver, sender, factions)
  {
    forall k | k in factions && k != sender
      ensures exists e ::
                e in SayEvents(false, female, Some(message), false, Some(isAct4), hp) && e.Speech? &&
                e.to.OnMap? && MapSelector(e.to.receiver) && k in Recipients(e.to.receiver, sender, factions)
    {
      SayReachesOne(female, message, isAct4, hp, sender, factions, k);
    }
  }

  lemma SayReachesOne(female: bool, message: string, isAct4: bool, hp: int, sender: int, factions: map<int, int>, k: int)
    requires sender in factions && k in factions && k != sender
    ensures exists e ::
              e in SayEvents(false, female, Some(message), false, Some(isAct4), hp) && e.Speech? &&
              e.to.OnMap? && MapSelector(e.to.receiver) && k in Recipients(e.to.receiver, sender, factions)
  {
    var events := SayEvents(false, female, Some(message), false, Some(isAct4), hp);
    SayOnMap(female, message, isAct4, hp);
    if isAct4 && hp >= 1 {
      var garbled, clear := Speech(OnMap(AllExceptFactionAndMe), Garbled, 1), Speech(OnMap(OnlyFaction), Trim(message), 0);
      assert events == [garbled, clear];
      if factions[k] == factions[sender] {
        assert events[1] == clear;
        assert k in Recipients(OnlyFaction, sender, factions);
      } else {
        assert events[0] == garbled;
        assert k in Recipients(AllExceptFactionAndMe, sender, factions);
      }
    } else {
      var e := Speech(OnMap(AllExceptMe), if isAct4 then Garbled else Trim(message), if isAct4 then 1 else 0);
      assert events == [e];
      assert events[0] == e;
      assert k in Recipients(AllExceptMe, sender, factions);
    }
  }

  // ---------------------------------------------------------------------
  // Whisper (:1965-2041)

  /** The session on this channel that carries the receiver's name: its
      character, whether its account is an admin, and the two blocks that
      stop a whisper. */
  datatype WhisperTarget = WhisperTarget(id: int, isAdmin: bool, gmPvtBlock: bool, whisperBlocked: bool)

  /** A whisper that starts with the word "GM" is for game masters only. */
  predicate ToGameMaster(message: string)
  {
    Split(message, {' '})[0] == "GM"
  }

  /** The spk kind of a whisper: 15 from an admin, else 5. */
  function SpeakKind(senderIsAdmin: bool): (kind: int)
    ensures kind == 5 || kind == 15
  {
    if senderIsAdmin then 15 else 5
  }

  /** What a whisper sends. `blocked` says the receiver, looked up by name
      in the character store, blocks the sender; `target` is the receiver's
      session on this channel, if any; `channel` is the hub's answer for a
      receiver elsewhere. Only the receiver's session is ever addressed by
      id, and only when no block and no game-master rule stops the text. */
  function WhisperEvents(message: string, senderIsAdmin: bool, blocked: bool, target: Option<WhisperTarget>,
                         channel: Option<int>): (events: seq<Event>)
    ensures blocked ==> events == [Notice(Self, "BLACKLIST_BLOCKED")]
    ensures forall e :: e in events && !e.Call? && e.to.Player? ==>
      && !blocked && target.Some? && !target.value.gmPvtBlock && !target.value.whisperBlocked
      && (ToGameMaster(message) ==> target.value.isAdmin)
      && e == Speech(Player(target.value.id), WhisperText(message), SpeakKind(senderIsAdmin))
    ensures !blocked && target.Some? && !target.value.gmPvtBlock && !target.value.whisperBlocked
            && (ToGameMaster(message) ==> target.value.isAdmin) ==>
      Speech(Player(target.value.id), WhisperText(message), SpeakKind(senderIsAdmin)) in events
  {
    var text := WhisperText(message);
    if blocked then [Notice(Self, "BLACKLIST_BLOCKED")]
    else match target
      case None => Forwarded(WhisperReceiver(message), text, SpeakKind(senderIsAdmin), channel)
      case Some(t) =>
        if ToGameMaster(message) && !t.isAdmin then [Notice(Self, "USER_IS_NOT_AN_ADMIN")]
        else Delivery(t, text, SpeakKind(senderIsAdmin))
  }

  /** A whisper for a receiver with no session on this channel goes to the
      hub by name; `channel` is the channel that took it, if any. No
      session is addressed by id. */
  function Forwarded(name: string, text: string, kind: int, channel: Option<int>): (events: seq<Event>)
    ensures forall e :: e in events && !e.Call? ==> !e.to.Player?
    ensures Speech(RemoteByName(name), text, kind) in events
  {
    [Speech(RemoteByName(name), text, kind)]
    + (if channel.None? then [Notice(Self, "USER_NOT_CONNECTED")]
       else [Speech(Self, text, 5), Notice(Self, "MESSAGE_SENT_TO_CHARACTER")])
  }

  /** A whisper handed to the receiver's session: the sender sees its own
      text, then the receiver gets it unless one of its blocks stops it. */
  function Delivery(t: WhisperTarget, text: string, kind: int): (events: seq<Event>)
    ensures forall e :: e in events && !e.Call? && e.to.Player? ==>
      !t.gmPvtBlock && !t.whisperBlocked && e == Speech(Player(t.id), text, kind)
    ensures !t.gmPvtBlock && !t.whisperBlocked ==> Speech(Player(t.id), text, kind) in events
  {
    [Speech(Self, text, 5)]
    + (if t.gmPvtBlock then [Notice(Self, "GM_CHAT_BLOCKED")]
       else if !t.whisperBlocked then [Speech(Player(t.id), text, kind)]
       else [Notice(Self, "USER_WHISPER_BLOCKED")])
  }
}
