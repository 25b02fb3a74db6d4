/** The quick-bar of a character and the qset packet that edits it
    (BasicPacketHandler.cs:1710-1793). An entry sits in a slot (q1, q2) of
    the bar belonging to a morph: the specialist form the character wears,
    or 0 without one. */
module Quicklist {
  import opened Wrappers
  import opened Text

  datatype Entry = Entry(q1: int, q2: int, entryType: int, slot: int, pos: int, morph: int)

  /** The predicate the handler filters with: same slot, and the morph of the
      current form (the character's Morph while wearing a specialist, else 0). */
  predicate Matches(e: Entry, q1: int, q2: int, useSp: bool, morph: int)
  {
    e.q1 == q1 && e.q2 == q2 && (if useSp then e.morph == morph else e.morph == 0)
  }

  /** The morph written into a new entry: the character's Morph cast to a
      16-bit integer, or 0. */
  function StoredMorph(useSp: bool, morph: int): (r: int)
    ensures ShortMin <= r <= ShortMax
  {
    if useSp then ToShort(morph) else 0
  }

  /** A morph that fits the 16-bit entry field (always so for real morphs). */
  predicate FitsEntry(useSp: bool, morph: int)
  {
    useSp ==> ShortMin <= morph <= ShortMax
  }

  /** For a morph that fits, matching is the same as having the slot and the
      stored morph of the current form. */
  lemma MatchesIsKey(e: Entry, q1: int, q2: int, useSp: bool, morph: int)
    requires FitsEntry(useSp, morph)
    ensures Matches(e, q1, q2, useSp, morph) <==> (e.q1, e.q2, e.morph) == (q1, q2, StoredMorph(useSp, morph))
  {
  }

  /** The bar's invariant: no two entries share a slot of the same morph. */
  ghost predicate UniqueSlots(entries: seq<Entry>)
  {
    forall i, j :: 0 <= i < j < |entries| ==>
      (entries[i].q1, entries[i].q2, entries[i].morph) != (entries[j].q1, entries[j].q2, entries[j].morph)
  }

  // ---------------------------------------------------------------------
  // List operations used by the handler

  /** List.RemoveAll with the slot predicate: the matching entries go, the
      others stay in their order. */
  function RemoveAll(entries: seq<Entry>, q1: int, q2: int, useSp: bool, morph: int): (r: seq<Entry>)
    ensures forall k :: 0 <= k < |r| ==> !Matches(r[k], q1, q2, useSp, morph)
    ensures forall e :: e in entries && !Matches(e, q1, q2, useSp, morph) ==> e in r
    ensures forall e :: e in r ==> e in entries
  {
    if entries == [] then []
    else
      var rest := RemoveAll(entries[1..], q1, q2, useSp, morph);
      if Matches(entries[0], q1, q2, useSp, morph) then rest else [entries[0]] + rest
  }

  /** Removing keeps the remaining entries' relative order, so it keeps
      distinct slots distinct. */
  lemma {:induction false} RemoveAllKeepsUnique(entries: seq<Entry>, q1: int, q2: int, useSp: bool, morph: int)
    requires UniqueSlots(entries)
    ensures UniqueSlots(RemoveAll(entries, q1, q2, useSp, morph))
  {
    if entries != [] {
      var rest := RemoveAll(entries[1..], q1, q2, useSp, morph);
      RemoveAllKeepsUnique(entries[1..], q1, q2, useSp, morph);
      if !Matches(entries[0], q1, q2, useSp, morph) {
        var r := [entries[0]] + rest;
        forall i, j | 0 <= i < j < |r|
          ensures (r[i].q1, r[i].q2, r[i].morph) != (r[j].q1, r[j].q2, r[j].morph)
        {
          if i == 0 {
            assert r[j] in entries[1..];
          }
        }
      }
    }
  }

  /** Removing twice is removing once. */
  lemma {:induction false} RemoveAllIdempotent(entries: seq<Entry>, q1: int, q2: int, useSp: bool, morph: int)
    ensures RemoveAll(RemoveAll(entries, q1, q2, useSp, morph), q1, q2, useSp, morph)
         == RemoveAll(entries, q1, q2, useSp, morph)
  {
    if entries != [] {
      RemoveAllKeepsEverything(RemoveAll(entries, q1, q2, useSp, morph), q1, q2, useSp, morph);
    }
  }

  /** Removing from a list with no match changes nothing. */
  lemma {:induction false} RemoveAllKeepsEverything(entries: seq<Entry>, q1: int, q2: int, useSp: bool, morph: int)
    requires forall k :: 0 <= k < |entries| ==> !Matches(entries[k], q1, q2, useSp, morph)
    ensures RemoveAll(entries, q1, q2, useSp, morph) == entries
  {
    if entries != [] {
      RemoveAllKeepsEverything(entries[1..], q1, q2, useSp, morph);
    }
  }

  /** How many entries match the slot. */
  function MatchCount(entries: seq<Entry>, q1: int, q2: int, useSp: bool, morph: int): nat
  {
    if entries == [] then 0
    else (if Matches(entries[0], q1, q2, useSp, morph) then 1 else 0) + MatchCount(entries[1..], q1, q2, useSp, morph)
  }

  /** The index of the first matching entry. */
  function FirstMatch(entries: seq<Entry>, q1: int, q2: int, useSp: bool, morph: int): (r: Option<nat>)
    ensures r.Some? ==> r.value < |entries| && Matches(entries[r.value], q1, q2, useSp, morph)
    ensures r.None? <==> MatchCount(entries, q1, q2, useSp, morph) == 0
  {
    if entries == [] then None
    else if Matches(entries[0], q1, q2, useSp, morph) then Some(0)
    else match FirstMatch(entries[1..], q1, q2, useSp, morph)
      case Some(i) => Some(i + 1)
      case None => None
  }

  /** SingleOrDefault: no entry, the one entry, or an exception when several
      entries match. */
  datatype Lookup = Absent | At(i: nat) | Ambiguous

  function Single(entries: seq<Entry>, q1: int, q2: int, useSp: bool, morph: int): (r: Lookup)
    ensures r.At? ==> r.i < |entries| && Matches(entries[r.i], q1, q2, useSp, morph)
  {
    var c := MatchCount(entries, q1, q2, useSp, morph);
    if c == 0 then Absent
    else if c == 1 then At(FirstMatch(entries, q1, q2, useSp, morph).value)
    else Ambiguous
  }

  /** The count is one for each matching index. */
  lemma {:induction false} CountOfUnique(entries: seq<Entry>, q1: int, q2: int, useSp: bool, morph: int, i: nat)
    requires i < |entries| && Matches(entries[i], q1, q2, useSp, morph)
    requires forall k :: 0 <= k < |entries| && k != i ==> !Matches(entries[k], q1, q2, useSp, morph)
    ensures MatchCount(entries, q1, q2, useSp, morph) == 1
    ensures FirstMatch(entries, q1, q2, useSp, morph) == Some(i)
  {
    if i == 0 {
      NoneMatch(entries[1..], q1, q2, useSp, morph);
    } else {
      CountOfUnique(entries[1..], q1, q2, useSp, morph, i - 1);
    }
  }

  lemma {:induction false} NoneMatch(entries: seq<Entry>, q1: int, q2: int, useSp: bool, morph: int)
    requires forall k :: 0 <= k < |entries| ==> !Matches(entries[k], q1, q2, useSp, morph)
    ensures MatchCount(entries, q1, q2, useSp, morph) == 0
  {
    if entries != [] {
      NoneMatch(entries[1..], q1, q2, useSp, morph);
    }
  }

  /** On a bar whose slots are unique, SingleOrDefault never throws: it finds
      exactly the entry in the slot, or none. */
  lemma SingleOnUnique(entries: seq<Entry>, q1: int, q2: int, useSp: bool, morph: int)
    requires UniqueSlots(entries) && FitsEntry(useSp, morph)
    ensures forall i :: 0 <= i < |entries| && Matches(entries[i], q1, q2, useSp, morph) ==>
              Single(entries, q1, q2, useSp, morph) == At(i)
    ensures (forall i :: 0 <= i < |entries| ==> !Matches(entries[i], q1, q2, useSp, morph)) ==>
              Single(entries, q1, q2, useSp, morph) == Absent
  {
    forall i | 0 <= i < |entries| && Matches(entries[i], q1, q2, useSp, morph)
      ensures Single(entries, q1, q2, useSp, morph) == At(i)
    {
      forall k | 0 <= k < |entries| && k != i
        ensures !Matches(entries[k], q1, q2, useSp, morph)
      {
        MatchesIsKey(entries[i], q1, q2, useSp, morph);
        MatchesIsKey(entries[k], q1, q2, useSp, morph);
      }
      CountOfUnique(entries, q1, q2, useSp, morph, i);
    }
    if forall i :: 0 <= i < |entries| ==> !Matches(entries[i], q1, q2, useSp, morph) {
      NoneMatch(entries, q1, q2, useSp, morph);
    }
  }

  /** The handler's RemoveAll, one entry at a time. */
  method RemoveMatching(entries: seq<Entry>, q1: int, q2: int, useSp: bool, morph: int) returns (kept: seq<Entry>)
    ensures kept == RemoveAll(entries, q1, q2, useSp, morph)
  {
    kept := [];
    var i := 0;
    while i < |entries|
      invariant 0 <= i <= |entries|
      invariant kept + RemoveAll(entries[i..], q1, q2, useSp, morph) == RemoveAll(entries, q1, q2, useSp, morph)
    {
      assert entries[i..][1..] == entries[i + 1..];
      if !Matches(entries[i], q1, q2, useSp, morph) {
        kept := kept + [entries[i]];
      }
      i := i + 1;
    }
  }

  /** The handler's SingleOrDefault: scan for matches and stop at the
      second one, where the call throws. */
  method FindSingle(entries: seq<Entry>, q1: int, q2: int, useSp: bool, morph: int) returns (found: Lookup)
    ensures found == Single(entries, q1, q2, useSp, morph)
  {
    var count := 0;
    var first := 0;
    var i := 0;
    while i < |entries| && count < 2
      invariant 0 <= i <= |entries| && count <= 2
      invariant count + MatchCount(entries[i..], q1, q2, useSp, morph) == MatchCount(entries, q1, q2, useSp, morph)
      invariant count == 0 && FirstMatch(entries[i..], q1, q2, useSp, morph).Some? ==>
        FirstMatch(entries, q1, q2, useSp, morph) == Some(FirstMatch(entries[i..], q1, q2, useSp, morph).value + i)
      invariant count > 0 ==> FirstMatch(entries, q1, q2, useSp, morph) == Some(first)
    {
      assert entries[i..][1..] == entries[i + 1..];
      if Matches(entries[i], q1, q2, useSp, morph) {
        if count == 0 {
          first := i;
        }
        count := count + 1;
      }
      i := i + 1;
    }
    if count == 0 {
      found := Absent;
    } else if count == 1 {
      found := At(first);
    } else {
      found := Ambiguous;
    }
  }

  // ---------------------------------------------------------------------
  // The three edits

  datatype QsetResult = QsetResult(entries: seq<Entry>, replies: seq<string>)

  function EntryReply(q1: int, q2: int, entryType: int, slot: int, pos: int): string
  {
    "qset " + ShowInt(q1) + " " + ShowInt(q2) + " " + ShowInt(entryType) + "." + ShowInt(slot) + "." + ShowInt(pos) + ".0"
  }

  function EmptyReply(q1: int, q2: int): string
  {
    "qset " + ShowInt(q1) + " " + ShowInt(q2) + " 7.7.-1.0"
  }

  /** Types 0 and 1: the slot's entries of the current form are replaced by
      one new entry. */
  function Put(entries: seq<Entry>, entryType: int, q1: int, q2: int, slot: int, pos: int, useSp: bool, morph: int): (r: QsetResult)
  {
    QsetResult(RemoveAll(entries, q1, q2, useSp, morph) + [Entry(q1, q2, entryType, slot, pos, StoredMorph(useSp, morph))],
               [EntryReply(q1, q2, entryType, slot, pos)])
  }

  /** Type 3: the slot of the current form is emptied. */
  function Clear(entries: seq<Entry>, q1: int, q2: int, useSp: bool, morph: int): (r: QsetResult)
  {
    QsetResult(RemoveAll(entries, q1, q2, useSp, morph), [EmptyReply(q1, q2)])
  }

  /** Type 2: the entry in slot (d1, d2) moves to slot (q1, q2); an entry
      already there moves to (d1, d2). Nothing happens without a source
      entry, or when a lookup throws. */
  function Move(entries: seq<Entry>, q1: int, q2: int, d1: int, d2: int, useSp: bool, morph: int): (r: QsetResult)
  {
    match Single(entries, d1, d2, useSp, morph)
    case Absent => QsetResult(entries, [])
    case Ambiguous => QsetResult(entries, [])
    case At(i) =>
      match Single(entries, q1, q2, useSp, morph)
      case Ambiguous => QsetResult(entries, [])
      case Absent =>
        var from := entries[i].(q1 := q1, q2 := q2);
        QsetResult(entries[i := from], [EntryReply(q1, q2, from.entryType, from.slot, from.pos), EmptyReply(d1, d2)])
      case At(j) =>
        var from := entries[i].(q1 := q1, q2 := q2);
        var moved := entries[i := from];
        var to := moved[j].(q1 := d1, q2 := d2);
        QsetResult(moved[j := to], [EntryReply(q1, q2, from.entryType, from.slot, from.pos),
                                    EntryReply(d1, d2, to.entryType, to.slot, to.pos)])
  }

  /** The whole qset packet, split on spaces: header, type, q1, q2 and, when
      present, the two data fields. Bad numbers and unknown types change
      nothing. */
  function Qset(tokens: seq<string>, entries: seq<Entry>, useSp: bool, morph: int): (r: QsetResult)
  {
    if |tokens| <= 4 then QsetResult(entries, [])
    else match (ParseShort(tokens[2]), ParseShort(tokens[3]), ParseShort(tokens[4]))
      case (Some(t), Some(q1), Some(q2)) =>
        var d1 := if |tokens| > 6 then ParseShortOrZero(tokens[5]) else 0;
        var d2 := if |tokens| > 6 then ParseShortOrZero(tokens[6]) else 0;
        if t == 0 || t == 1 then Put(entries, t, q1, q2, d1, d2, useSp, morph)
        else if t == 2 then Move(entries, q1, q2, d1, d2, useSp, morph)
        else if t == 3 then Clear(entries, q1, q2, useSp, morph)
        else QsetResult(entries, [])
      case _ => QsetResult(entries, [])
  }

  // ---------------------------------------------------------------------
  // The edits as the handler makes them

  /** Type 2 in place: the source entry's slot is overwritten, then the
      target entry's, each one element of the list. */
  method MoveEntries(entries: seq<Entry>, q1: int, q2: int, d1: int, d2: int, useSp: bool, morph: int)
    returns (list: seq<Entry>, replies: seq<string>)
    ensures QsetResult(list, replies) == Move(entries, q1, q2, d1, d2, useSp, morph)
  {
    list, replies := entries, [];
    var from := FindSingle(list, d1, d2, useSp, morph);
    if !from.At? {
      return;
    }
    var to := FindSingle(list, q1, q2, useSp, morph);
    if to.Ambiguous? {
      return;
    }
    var i := from.i;
    list := list[i := list[i].(q1 := q1, q2 := q2)];
    var moved := list[i];
    replies := [EntryReply(q1, q2, moved.entryType, moved.slot, moved.pos)];
    if to.Absent? {
      replies := replies + [EmptyReply(d1, d2)];
    } else {
      var j := to.i;
      list := list[j := list[j].(q1 := d1, q2 := d2)];
      var other := list[j];
      replies := replies + [EntryReply(d1, d2, other.entryType, other.slot, other.pos)];
    }
  }

  /** The qset handler's steps: parse the header, then edit the list. */
  method Edit(tokens: seq<string>, entries: seq<Entry>, useSp: bool, morph: int)
    returns (list: seq<Entry>, replies: seq<string>)
    ensures QsetResult(list, replies) == Qset(tokens, entries, useSp, morph)
  {
    list, replies := entries, [];
    if |tokens| <= 4 {
      return;
    }
    var parsedType, parsedQ1, parsedQ2 := ParseShort(tokens[2]), ParseShort(tokens[3]), ParseShort(tokens[4]);
    if parsedType.None? || parsedQ1.None? || parsedQ2.None? {
      return;
    }
    var t, q1, q2 := parsedType.value, parsedQ1.value, parsedQ2.value;
    var d1, d2 := 0, 0;
    if |tokens| > 6 {
      d1 := ParseShortOrZero(tokens[5]);
      d2 := ParseShortOrZero(tokens[6]);
    }
    if t == 0 || t == 1 {
      var kept := RemoveMatching(list, q1, q2, useSp, morph);
      list := kept + [Entry(q1, q2, t, d1, d2, StoredMorph(useSp, morph))];
      replies := [EntryReply(q1, q2, t, d1, d2)];
    } else if t == 2 {
      list, replies := MoveEntries(list, q1, q2, d1, d2, useSp, morph);
    } else if t == 3 {
      list := RemoveMatching(list, q1, q2, useSp, morph);
      replies := [EmptyReply(q1, q2)];
    }
  }

  // ---------------------------------------------------------------------
  // What the edits guarantee

  /** After a put, the slot holds exactly the new entry. */
  lemma PutThenLookup(entries: seq<Entry>, entryType: int, q1: int, q2: int, slot: int, pos: int, useSp: bool, morph: int)
    requires UniqueSlots(entries) && FitsEntry(useSp, morph)
    ensures var r := Put(entries, entryType, q1, q2, slot, pos, useSp, morph).entries;
      && UniqueSlots(r)
      && Single(r, q1, q2, useSp, morph) == At(|r| - 1)
      && r[|r| - 1] == Entry(q1, q2, entryType, slot, pos, StoredMorph(useSp, morph))
  {
    var kept := RemoveAll(entries, q1, q2, useSp, morph);
    RemoveAllKeepsUnique(entries, q1, q2, useSp, morph);
    var e := Entry(q1, q2, entryType, slot, pos, StoredMorph(useSp, morph));
    var r := kept + [e];
    MatchesIsKey(e, q1, q2, useSp, morph);
    forall i, j | 0 <= i < j < |r|
      ensures (r[i].q1, r[i].q2, r[i].morph) != (r[j].q1, r[j].q2, r[j].morph)
    {
      if j == |kept| {
        MatchesIsKey(r[i], q1, q2, useSp, morph);
      }
    }
    SingleOnUnique(r, q1, q2, useSp, morph);
  }

  /** After a clear, the slot is empty and nothing else changed. */
  lemma ClearThenLookup(entries: seq<Entry>, q1: int, q2: int, useSp: bool, morph: int)
    requires UniqueSlots(entries) && FitsEntry(useSp, morph)
    ensures var r := Clear(entries, q1, q2, useSp, morph).entries;
      && UniqueSlots(r)
      && Single(r, q1, q2, useSp, morph) == Absent
      && forall e :: e in entries && !Matches(e, q1, q2, useSp, morph) ==> e in r
  {
    RemoveAllKeepsUnique(entries, q1, q2, useSp, morph);
    SingleOnUnique(RemoveAll(entries, q1, q2, useSp, morph), q1, q2, useSp, morph);
  }

  /** Putting and then clearing a slot is the same as clearing it. */
  lemma PutThenClear(entries: seq<Entry>, entryType: int, q1: int, q2: int, slot: int, pos: int, useSp: bool, morph: int)
    requires FitsEntry(useSp, morph)
    ensures Clear(Put(entries, entryType, q1, q2, slot, pos, useSp, morph).entries, q1, q2, useSp, morph)
         == Clear(entries, q1, q2, useSp, morph)
  {
    var kept := RemoveAll(entries, q1, q2, useSp, morph);
    var e := Entry(q1, q2, entryType, slot, pos, StoredMorph(useSp, morph));
    MatchesIsKey(e, q1, q2, useSp, morph);
    RemoveAllAppend(kept, e, q1, q2, useSp, morph);
    RemoveAllIdempotent(entries, q1, q2, useSp, morph);
  }

  lemma {:induction false} RemoveAllAppend(entries: seq<Entry>, e: Entry, q1: int, q2: int, useSp: bool, morph: int)
    requires Matches(e, q1, q2, useSp, morph)
    ensures RemoveAll(entries + [e], q1, q2, useSp, morph) == RemoveAll(entries, q1, q2, useSp, morph)
  {
    if entries == [] {
      assert [e][1..] == [];
    } else {
      assert (entries + [e])[1..] == entries[1..] + [e];
      RemoveAllAppend(entries[1..], e, q1, q2, useSp, morph);
    }
  }

  /** A move on a bar with unique slots keeps the slots unique: the entry
      moves to a free slot, or the two entries exchange slots. */
  lemma MoveKeepsUnique(entries: seq<Entry>, q1: int, q2: int, d1: int, d2: int, useSp: bool, morph: int)
    requires UniqueSlots(entries) && FitsEntry(useSp, morph)
    ensures UniqueSlots(Move(entries, q1, q2, d1, d2, useSp, morph).entries)
  {
    SingleOnUnique(entries, d1, d2, useSp, morph);
    SingleOnUnique(entries, q1, q2, useSp, morph);
    var m := StoredMorph(useSp, morph);
    match Single(entries, d1, d2, useSp, morph) {
    case Absent =>
    case Ambiguous =>
    case At(i) =>
      MatchesIsKey(entries[i], d1, d2, useSp, morph);
      var from := entries[i].(q1 := q1, q2 := q2);
      var moved := entries[i := from];
      match Single(entries, q1, q2, useSp, morph) {
      case Ambiguous =>
      case Absent =>
        forall k | 0 <= k < |entries|
          ensures (entries[k].q1, entries[k].q2, entries[k].morph) != (q1, q2, m)
        {
          MatchesIsKey(entries[k], q1, q2, useSp, morph);
        }
      case At(j) =>
        MatchesIsKey(entries[j], q1, q2, useSp, morph);
        var r := moved[j := moved[j].(q1 := d1, q2 := d2)];
        if i != j {
          forall a, b | 0 <= a < b < |r|
            ensures (r[a].q1, r[a].q2, r[a].morph) != (r[b].q1, r[b].q2, r[b].morph)
          {
          }
        } else {
          assert r == entries;
        }
      }
    }
  }

  /** Type 2 touches no entry but the two it exchanges: the bar keeps its
      length and every entry outside both slots stays where it was. */
  lemma MoveKeepsOthers(entries: seq<Entry>, q1: int, q2: int, d1: int, d2: int, useSp: bool, morph: int)
    ensures var r := Move(entries, q1, q2, d1, d2, useSp, morph).entries;
      && |r| == |entries|
      && forall k :: (0 <= k < |entries| && !Matches(entries[k], q1, q2, useSp, morph)
                      && !Matches(entries[k], d1, d2, useSp, morph)) ==> r[k] == entries[k]
  {
  }

  /** Moving an entry to a free slot and back. */
  lemma MoveBackFromFree(entries: seq<Entry>, i: nat, q1: int, q2: int, d1: int, d2: int, useSp: bool, morph: int)
    requires UniqueSlots(entries) && FitsEntry(useSp, morph)
    requires i < |entries| && Matches(entries[i], d1, d2, useSp, morph)
    requires forall k :: 0 <= k < |entries| ==> !Matches(entries[k], q1, q2, useSp, morph)
    ensures Move(Move(entries, q1, q2, d1, d2, useSp, morph).entries, d1, d2, q1, q2, useSp, morph).entries == entries
  {
    SingleOnUnique(entries, d1, d2, useSp, morph);
    SingleOnUnique(entries, q1, q2, useSp, morph);
    MoveKeepsUnique(entries, q1, q2, d1, d2, useSp, morph);
    var once := entries[i := entries[i].(q1 := q1, q2 := q2)];
    assert Move(entries, q1, q2, d1, d2, useSp, morph).entries == once;
    MatchesIsKey(entries[i], d1, d2, useSp, morph);
    SingleOnUnique(once, q1, q2, useSp, morph);
    SingleOnUnique(once, d1, d2, useSp, morph);
    assert Matches(once[i], q1, q2, useSp, morph);
    forall k | 0 <= k < |once|
      ensures !Matches(once[k], d1, d2, useSp, morph)
    {
      if k != i {
        MatchesIsKey(entries[k], d1, d2, useSp, morph);
      } else {
        MatchesIsKey(entries[k], q1, q2, useSp, morph);
      }
    }
    assert once[i := once[i].(q1 := d1, q2 := d2)] == entries;
  }

  /** Moving onto an occupied slot: the two entries exchange slots. */
  lemma MoveOntoTaken(entries: seq<Entry>, i: nat, j: nat, q1: int, q2: int, d1: int, d2: int, useSp: bool, morph: int)
    requires UniqueSlots(entries) && FitsEntry(useSp, morph)
    requires i < |entries| && Matches(entries[i], d1, d2, useSp, morph)
    requires j < |entries| && Matches(entries[j], q1, q2, useSp, morph)
    ensures var moved := entries[i := entries[i].(q1 := q1, q2 := q2)];
      Move(entries, q1, q2, d1, d2, useSp, morph).entries == moved[j := moved[j].(q1 := d1, q2 := d2)]
  {
    SingleOnUnique(entries, d1, d2, useSp, morph);
    SingleOnUnique(entries, q1, q2, useSp, morph);
  }

  /** Exchanging two occupied slots and exchanging them back. */
  lemma MoveBackFromTaken(entries: seq<Entry>, i: nat, j: nat, q1: int, q2: int, d1: int, d2: int, useSp: bool, morph: int)
    requires UniqueSlots(entries) && FitsEntry(useSp, morph)
    requires i < |entries| && Matches(entries[i], d1, d2, useSp, morph)
    requires j < |entries| && Matches(entries[j], q1, q2, useSp, morph)
    ensures Move(Move(entries, q1, q2, d1, d2, useSp, morph).entries, d1, d2, q1, q2, useSp, morph).entries == entries
  {
    MoveKeepsUnique(entries, q1, q2, d1, d2, useSp, morph);
    MoveOntoTaken(entries, i, j, q1, q2, d1, d2, useSp, morph);
    var moved := entries[i := entries[i].(q1 := q1, q2 := q2)];
    var once := moved[j := moved[j].(q1 := d1, q2 := d2)];
    if i != j {
      assert Matches(once[i], q1, q2, useSp, morph);
      assert Matches(once[j], d1, d2, useSp, morph);
      MoveOntoTaken(once, i, j, d1, d2, q1, q2, useSp, morph);
      var back := once[i := once[i].(q1 := d1, q2 := d2)];
      assert back[j := back[j].(q1 := q1, q2 := q2)] == entries;
    } else {
      assert once == entries;
      MoveOntoTaken(once, i, i, d1, d2, q1, q2, useSp, morph);
    }
  }

  /** Moving an entry and moving it back restores the bar exactly: the
      exchange of two slots is its own inverse. */
  lemma MoveBack(entries: seq<Entry>, q1: int, q2: int, d1: int, d2: int, useSp: bool, morph: int)
    requires UniqueSlots(entries) && FitsEntry(useSp, morph)
    requires Single(entries, d1, d2, useSp, morph).At?
    ensures var once := Move(entries, q1, q2, d1, d2, useSp, morph).entries;
      Move(once, d1, d2, q1, q2, useSp, morph).entries == entries
  {
    var i := Single(entries, d1, d2, useSp, morph).i;
    if j :| 0 <= j < |entries| && Matches(entries[j], q1, q2, useSp, morph) {
      MoveBackFromTaken(entries, i, j, q1, q2, d1, d2, useSp, morph);
    } else {
      MoveBackFromFree(entries, i, q1, q2, d1, d2, useSp, morph);
    }
  }

  /** Every qset packet keeps the bar's slots unique. */
  lemma QsetKeepsUnique(tokens: seq<string>, entries: seq<Entry>, useSp: bool, morph: int)
    requires UniqueSlots(entries) && FitsEntry(useSp, morph)
    ensures UniqueSlots(Qset(tokens, entries, useSp, morph).entries)
  {
    if |tokens| > 4 {
      match (ParseShort(tokens[2]), ParseShort(tokens[3]), ParseShort(tokens[4]))
      case (Some(t), Some(q1), Some(q2)) =>
        var d1 := if |tokens| > 6 then ParseShortOrZero(tokens[5]) else 0;
        var d2 := if |tokens| > 6 then ParseShortOrZero(tokens[6]) else 0;
        PutThenLookup(entries, t, q1, q2, d1, d2, useSp, morph);
        MoveKeepsUnique(entries, q1, q2, d1, d2, useSp, morph);
        ClearThenLookup(entries, q1, q2, useSp, morph);
      case _ =>
    }
  }

  /** A line with fewer than five tokens, a type or slot that is not a
      16-bit number, or a type other than 0 to 3 leaves the bar as it is and
      sends nothing. */
  lemma QsetIgnoresMalformed(tokens: seq<string>, entries: seq<Entry>, useSp: bool, morph: int)
    ensures (|| |tokens| <= 4
             || ParseShort(tokens[2]).None? || ParseShort(tokens[3]).None? || ParseShort(tokens[4]).None?
             || !(0 <= ParseShort(tokens[2]).value <= 3))
            ==> Qset(tokens, entries, useSp, morph) == QsetResult(entries, [])
  {
  }

  /** A morph beyond 16 bits is stored truncated, so a second put into the
      same slot no longer finds the first entry and the slot holds two. */
  lemma WideMorphDuplicates()
    ensures var once := Put([], 0, 1, 2, 3, 4, true, 65536).entries;
      var twice := Put(once, 0, 1, 2, 3, 4, true, 65536).entries;
      |twice| == 2 && !UniqueSlots(twice)
  {
    var e := Entry(1, 2, 0, 3, 4, StoredMorph(true, 65536));
    assert StoredMorph(true, 65536) == 0;
    assert RemoveAll([], 1, 2, true, 65536) == [];
    assert RemoveAll([e], 1, 2, true, 65536) == [e];
    var twice := [e] + [e];
    assert Put([e], 0, 1, 2, 3, 4, true, 65536).entries == twice;
    assert (twice[0].q1, twice[0].q2, twice[0].morph) == (twice[1].q1, twice[1].q2, twice[1].morph);
  }
}
