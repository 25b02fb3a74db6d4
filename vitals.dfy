/** The heartbeat and revival of a character: the pulse packet
    (BasicPacketHandler.cs:1432-1440) and the #revival dialog answer
    (:1475-1542). */
module Vitals {
  import opened Wrappers
  import opened Text

  // ---------------------------------------------------------------------
  // Pulse

  /** Every pulse advances the expected tick by 60; a client whose tick is
      not the expected one is disconnected. */
  datatype PulseState = PulseState(lastPulse: int, disconnected: bool)

  function PulseStep(s: PulseState, tick: int): (r: PulseState)
    ensures r.lastPulse == s.lastPulse + 60
    ensures r.disconnected <==> s.disconnected || tick != s.lastPulse + 60
  {
    PulseState(s.lastPulse + 60, s.disconnected || tick != s.lastPulse + 60)
  }

  /** A sequence of pulses. */
  function PulseRun(s: PulseState, ticks: seq<int>): PulseState
    decreases |ticks|
  {
    if ticks == [] then s else PulseRun(PulseStep(s, ticks[0]), ticks[1..])
  }

  /** A client that sends 60, 120, 180, ... beyond the last pulse is never
      disconnected, and the expected tick keeps pace with it. */
  lemma {:induction false} HonestClientStays(s: PulseState, ticks: seq<int>)
    requires !s.disconnected
    requires forall i :: 0 <= i < |ticks| ==> ticks[i] == s.lastPulse + 60 * (i + 1)
    ensures PulseRun(s, ticks) == PulseState(s.lastPulse + 60 * |ticks|, false)
    decreases |ticks|
  {
    if ticks != [] {
      var next := PulseStep(s, ticks[0]);
      forall i | 0 <= i < |ticks[1..]|
        ensures ticks[1..][i] == next.lastPulse + 60 * (i + 1)
      {
        assert ticks[1..][i] == ticks[i + 1];
      }
      HonestClientStays(next, ticks[1..]);
    }
  }

  /** Disconnection is final for the rest of the run. */
  lemma {:induction false} DisconnectStays(s: PulseState, ticks: seq<int>)
    requires s.disconnected
    ensures PulseRun(s, ticks).disconnected
    decreases |ticks|
  {
    if ticks != [] {
      DisconnectStays(PulseStep(s, ticks[0]), ticks[1..]);
    }
  }

  /** Replaying an accepted tick disconnects the client. */
  lemma ReplayDisconnects(s: PulseState, tick: int)
    requires !PulseStep(s, tick).disconnected
    ensures PulseRun(s, [tick, tick]).disconnected
  {
    var once := PulseStep(s, tick);
    assert [tick, tick][1..] == [tick];
    assert PulseRun(once, [tick]) == PulseRun(PulseStep(once, tick), []);
  }

  // ---------------------------------------------------------------------
  // Revival

  /** The seed of power (item 1012): ten are used by a revival in place
      above level 20. */
  const SeedVNum := 1012
  const SeedCost := 10
  const RevivalGold := 100

  datatype Revival =
    | NotRevived
    | FirstPosition(lacksSeeds: bool)   // ReviveFirstPosition; NOT_ENOUGH_POWER_SEED when `lacksSeeds`
    | Restored(hp: int, mp: int, seedsUsed: nat, goldPaid: nat)

  /** The answer, split on ' ' and '^', for a character with `hp` left,
      `seeds` seeds of power, and maximum hp and mp `maxHp`, `maxMp`. */
  function Revive(tokens: seq<string>, hp: int, level: int, seeds: int, gold: int, maxHp: nat, maxMp: nat): (r: Revival)
  {
    if |tokens| <= 2 then NotRevived
    else match ParseByte(tokens[2])
      case None => NotRevived
      case Some(t) =>
        if hp > 0 then NotRevived
        else if t == 0 then
          if seeds < SeedCost && level > 20 then FirstPosition(true)
          else if level > 20 then Restored(maxHp / 2, maxMp / 2, SeedCost, 0)
          else Restored(maxHp, maxMp, 0, 0)
        else if t == 1 then FirstPosition(false)
        else if t == 2 then
          if gold >= RevivalGold then Restored(maxHp, maxMp, 0, RevivalGold) else FirstPosition(false)
        else NotRevived
  }

  /** Only a dead character is revived; a revival in place costs either ten
      seeds the character has (above level 20), or 100 gold it has, or
      nothing up to level 20, and never both. */
  lemma ReviveFair(tokens: seq<string>, hp: int, level: int, seeds: int, gold: int, maxHp: nat, maxMp: nat)
    ensures var r := Revive(tokens, hp, level, seeds, gold, maxHp, maxMp);
      !r.NotRevived? ==> hp <= 0
    ensures var r := Revive(tokens, hp, level, seeds, gold, maxHp, maxMp);
      r.Restored? ==>
        && (r.seedsUsed > 0 ==> r.seedsUsed <= seeds) && (r.goldPaid > 0 ==> r.goldPaid <= gold)
        && (r.seedsUsed == 0 || r.goldPaid == 0)
        && (r.seedsUsed > 0 <==> level > 20 && r.goldPaid == 0)
        && 0 <= r.hp <= maxHp && 0 <= r.mp <= maxMp
        && (r.seedsUsed == 0 ==> r.hp == maxHp && r.mp == maxMp)
  {
  }
}
