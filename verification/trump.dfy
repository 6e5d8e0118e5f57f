/** Trump selection for one round (`_pick_trump`). */
module Trumps {
  import opened Outcomes
  import opened Seqs
  import opened Cards
  import opened Schedules
  import opened Dealing

  /** A round's trump: suit and value, both absent when no trump is in play,
      the value alone absent when only the suit is known. */
  datatype Trump = Trump(suit: Option<Suit>, value: Option<int>)

  const NoTrump: Trump := Trump(None, None)

  /** The card a trump with both parts names. */
  function Indicator(t: Trump): Card
    requires t.suit.Some? && t.value.Some?
  {
    Card(t.suit.value, t.value.value)
  }

  /** The trump of a round whose deal left cards over: either suppressed, or
      the suit and value of an undealt card other than the spade seven. */
  ghost predicate FromUndealtCard(name: RoundName, used: set<Card>, t: Trump) {
    || (t == NoTrump && (name == NTR || SpadeSeven in Deck - used))
    || (name != NTR && t.suit.Some? && t.value.Some? &&
        Indicator(t) in Deck - used && Indicator(t) != SpadeSeven)
  }

  /** The corrected trump rule: none for a no-trump round; a
      suit without value when the whole deck was dealt; otherwise drawn from
      an undealt card as above. */
  ghost predicate TrumpRule(name: RoundName, used: set<Card>, t: Trump) {
    && (name == NTR ==> t == NoTrump)
    && (name != NTR && Deck - used == {} ==> t.suit.Some? && t.value.None?)
    && (name != NTR && Deck - used != {} ==> FromUndealtCard(name, used, t))
  }

  /** The trump `_pick_trump` hands back as written: a suit without value
      when the whole deck was dealt, whatever the round; otherwise drawn from
      an undealt card as above. */
  ghost predicate TrumpAsWritten(name: RoundName, used: set<Card>, t: Trump) {
    && (Deck - used == {} ==> t.suit.Some? && t.value.None?)
    && (Deck - used != {} ==> FromUndealtCard(name, used, t))
  }

  /** The two rules agree on every round except a no-trump round that dealt
      the whole deck, where the rule as written gives a suit and the
      corrected rule gives none. */
  lemma RulesDifferOnlyOnFullNoTrump(name: RoundName, used: set<Card>, t: Trump)
    ensures !(name == NTR && Deck - used == {}) ==>
              (TrumpAsWritten(name, used, t) <==> TrumpRule(name, used, t))
    ensures name == NTR && Deck - used == {} ==>
              (TrumpAsWritten(name, used, t) ==> !TrumpRule(name, used, t))
  {
  }

  /** `_pick_trump` as written. When every card was dealt it returns a random
      suit with no value, whatever the round; otherwise it draws an undealt
      card and suppresses the trump for a no-trump round or the spade seven. */
  method PickTrump(name: RoundName, used: set<Card>) returns (t: Trump)
    ensures TrumpAsWritten(name, used, t)
    ensures Deck - used != {} && name == NTR ==> t == NoTrump
    ensures Deck - used != {} && name != NTR && SpadeSeven !in Deck - used ==>
              t.suit.Some? && t.value.Some? && Indicator(t) !in used
  {
    var unused := Deck - used;
    if unused == {} {
      var s :| s in Suits;
      return Trump(Some(s), None);
    }
    var c :| c in unused;
    if name == NTR || c == SpadeSeven {
      return NoTrump;
    }
    return Trump(Some(c.suit), Some(c.value));
  }

  /** `_pick_trump` with the no-trump rule applied before the full-deal
      case, so that a no-trump round never has a trump. */
  method PickTrumpCorrected(name: RoundName, used: set<Card>) returns (t: Trump)
    ensures name == NTR ==> t == NoTrump
    ensures TrumpRule(name, used, t)
    ensures name != NTR && Deck - used != {} && SpadeSeven !in Deck - used ==>
              t.suit.Some? && t.value.Some? && Indicator(t) !in used
  {
    if name == NTR {
      return NoTrump;
    }
    t := PickTrump(name, used);
  }

  /** The discrepancy: when the player count divides 36 a no-trump round
      deals the whole deck, and the trump picked as written then names a
      suit. */
  method NoTrumpRoundAsWritten(players: seq<Player>) returns (t: Trump)
    requires 1 <= |players| && 36 % |players| == 0
    ensures t.suit.Some? && t.value.None?
  {
    var n := |players|;
    assert 36 == Peak(n) * n + 36 % n;
    var dealt := DealRound(NTR, players);
    FullDealUsesDeck(players, Peak(n), dealt.value);
    t := PickTrump(NTR, dealt.value.used);
  }
}
