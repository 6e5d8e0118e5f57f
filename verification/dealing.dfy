/** Dealing one round (`_generate_cards_for_set`): sampling without
    replacement from the deck across all players of the round. */
module Dealing {
  import opened Outcomes
  import opened Seqs
  import opened Arith
  import opened Cards
  import opened Schedules

  /** A store row id: of a user, a card, a trick or a round. */
  type Id = nat

  /** A seated player (`LobbyUserInfoDTO`). */
  datatype Player = Player(id: Id, username: string)

  /** One player's cards for one round (`UserCardListDTO`). */
  datatype Hand = Hand(id: Id, username: string, cards: seq<Card>)

  /** The hands of a round and the set of cards they consumed. */
  datatype Deal = Deal(hands: seq<Hand>, used: set<Card>)

  /** `max_cards_per_player`: the numeric round's own size, else a full deal
      of `36 // n`, which divides by zero when nobody is seated. */
  function CardsPerPlayer(name: RoundName, n: nat): (r: Result<nat>)
    ensures r.Err? <==> !name.Num? && n == 0
    ensures r.Err? ==> r.error == ZeroDivision
    ensures name.Num? ==> r == Ok(name.cards)
    ensures !name.Num? && n >= 1 ==> r.value * n <= DeckSize < r.value * n + n
  {
    assert n >= 1 ==> DeckSize == Peak(n) * n + DeckSize % n;
    match name
    case Num(k) => Ok(k)
    case _ => if n == 0 then Err(ZeroDivision) else Ok(Peak(n))
  }

  /** The cards of all hands, hand after hand. */
  function AllCards(hands: seq<Hand>): seq<Card> {
    if |hands| == 0 then [] else AllCards(hands[..|hands| - 1]) + hands[|hands| - 1].cards
  }

  /** A card is dealt in the round exactly when some hand holds it. */
  lemma {:induction false} AllCardsMembership(hands: seq<Hand>, c: Card)
    ensures c in AllCards(hands) <==> exists i :: 0 <= i < |hands| && c in hands[i].cards
  {
    if |hands| > 0 {
      var init := hands[..|hands| - 1];
      AllCardsMembership(init, c);
      assert forall i :: 0 <= i < |init| ==> init[i] == hands[i];
    }
  }

  lemma AllCardsAppend(hands: seq<Hand>, h: Hand)
    ensures AllCards(hands + [h]) == AllCards(hands) + h.cards
  {
    assert (hands + [h])[..|hands|] == hands;
  }

  /** No card is in two hands, and no hand holds a card twice, when the
      round's cards have no repeats. */
  lemma {:induction false} HandsDisjoint(hands: seq<Hand>, i: nat, j: nat)
    requires NoDup(AllCards(hands))
    requires i < |hands| && j < |hands|
    ensures NoDup(hands[i].cards)
    ensures i != j ==> forall c :: c in hands[i].cards ==> c !in hands[j].cards
  {
    var last := |hands| - 1;
    var init := hands[..last];
    NoDupSplit(AllCards(init), hands[last].cards);
    assert forall k :: 0 <= k < last ==> init[k] == hands[k];
    if i < last {
      HandsDisjoint(init, i, i);
    }
    if i < last && j < last {
      HandsDisjoint(init, i, j);
    } else if i == last && j < last {
      forall c | c in hands[j].cards
        ensures c !in hands[i].cards
      {
        AllCardsMembership(init, c);
      }
    } else if j == last && i < last {
      forall c | c in hands[i].cards
        ensures c !in hands[j].cards
      {
        AllCardsMembership(init, c);
      }
    }
  }

  /** The outcome of a successful deal: one hand per seated player, in
      seating order, each of `count` cards; the round's cards are all deck
      cards, never repeated; `used` is exactly those cards (so it has
      `count * n` members, see `DealSize`). */
  ghost predicate ValidDeal(players: seq<Player>, count: nat, d: Deal) {
    && |d.hands| == |players|
    && (forall i :: 0 <= i < |players| ==>
          d.hands[i].id == players[i].id && d.hands[i].username == players[i].username &&
          |d.hands[i].cards| == count)
    && NoDup(AllCards(d.hands))
    && d.used == Elems(AllCards(d.hands))
    && d.used <= Deck
  }

  /** A valid deal consumes `count` cards per player. */
  lemma {:induction false} DealSize(players: seq<Player>, count: nat, d: Deal)
    requires ValidDeal(players, count, d)
    ensures |d.used| == count * |players|
  {
    NoDupCard(AllCards(d.hands));
    HandsTotal(d.hands, count);
  }

  lemma {:induction false} HandsTotal(hands: seq<Hand>, count: nat)
    requires forall i :: 0 <= i < |hands| ==> |hands[i].cards| == count
    ensures |AllCards(hands)| == count * |hands|
  {
    if |hands| > 0 {
      var init := hands[..|hands| - 1];
      HandsTotal(init, count);
      assert count * |hands| == count * |init| + count;
    }
  }

  /** The inner loop of the deal: draws `count` cards one at a time, each
      from the deck minus the cards already used in this round (`dealt`
      before this hand, then this hand's own draws). It fails exactly when
      the deck runs out, that is when the round would need more than 36. */
  method DrawCards(count: nat, used: set<Card>, ghost dealt: seq<Card>)
    returns (r: Result<seq<Card>>, usedAfter: set<Card>)
    requires NoDup(dealt) && used == Elems(dealt) && used <= Deck
    ensures r.Err? <==> |dealt| + count > DeckSize
    ensures r.Err? ==> r.error == EmptyChoice
    ensures r.Ok? ==> |r.value| == count && NoDup(dealt + r.value)
    ensures r.Ok? ==> usedAfter == Elems(dealt + r.value) && usedAfter <= Deck
  {
    DeckCard();
    var cards: seq<Card> := [];
    usedAfter := used;
    var j := 0;
    while j < count
      invariant 0 <= j <= count
      invariant |cards| == j
      invariant NoDup(dealt + cards)
      invariant usedAfter == Elems(dealt + cards)
      invariant usedAfter <= Deck
    {
      var pool := Deck - usedAfter;
      if pool == {} {
        forall x | x in Deck
          ensures x in usedAfter
        {
          assert x !in pool;
        }
        assert usedAfter == Deck;
        NoDupCard(dealt + cards);
        return Err(EmptyChoice), usedAfter;
      }
      var c :| c in pool;
      ghost var before := dealt + cards;
      assert c !in before;
      cards := cards + [c];
      usedAfter := usedAfter + {c};
      assert dealt + cards == before + [c];
      j := j + 1;
    }
    NoDupCard(dealt + cards);
    SubsetCard(usedAfter, Deck);
    return Ok(cards), usedAfter;
  }

  /** Deals `CardsPerPlayer(name, n)` cards to each player in seating order,
      each drawn from the cards not yet used in this round. The draw fails
      exactly when the round needs more than the 36 cards of the deck. */
  method DealRound(name: RoundName, players: seq<Player>) returns (r: Result<Deal>)
    ensures CardsPerPlayer(name, |players|).Err? ==> r == Err(ZeroDivision)
    ensures CardsPerPlayer(name, |players|).Ok? ==>
              (r.Ok? <==> CardsPerPlayer(name, |players|).value * |players| <= DeckSize)
    ensures CardsPerPlayer(name, |players|).Ok? && r.Err? ==> r.error == EmptyChoice
    ensures r.Ok? ==> ValidDeal(players, CardsPerPlayer(name, |players|).value, r.value)
    ensures r.Ok? ==> |r.value.used| == CardsPerPlayer(name, |players|).value * |players|
  {
    var perPlayer := CardsPerPlayer(name, |players|);
    if perPlayer.Err? {
      return Err(perPlayer.error);
    }
    var count := perPlayer.value;
    var n := |players|;
    var hands: seq<Hand> := [];
    var used: set<Card> := {};
    var p := 0;
    while p < n
      invariant 0 <= p <= n
      invariant |hands| == p
      invariant forall i :: 0 <= i < p ==>
                  hands[i].id == players[i].id && hands[i].username == players[i].username &&
                  |hands[i].cards| == count
      invariant NoDup(AllCards(hands))
      invariant used == Elems(AllCards(hands))
      invariant used <= Deck
    {
      var drawn, usedAfter := DrawCards(count, used, AllCards(hands));
      if drawn.Err? {
        HandsTotal(hands, count);
        MulMonotone(p + 1, n, count);
        assert count * p + count == (p + 1) * count <= n * count == count * n;
        return Err(EmptyChoice);
      }
      var hand := Hand(players[p].id, players[p].username, drawn.value);
      AllCardsAppend(hands, hand);
      hands := hands + [hand];
      used := usedAfter;
      p := p + 1;
    }
    DealSize(players, count, Deal(hands, used));
    DeckCard();
    SubsetCard(used, Deck);
    return Ok(Deal(hands, used));
  }

  /** A valid deal of `36 / n` cards each, with `n` dividing 36, uses the
      whole deck. */
  lemma FullDealUsesDeck(players: seq<Player>, count: nat, d: Deal)
    requires 1 <= |players| && 36 % |players| == 0 && count == Peak(|players|)
    requires ValidDeal(players, count, d)
    ensures d.used == Deck
  {
    var n := |players|;
    assert 36 == Peak(n) * n + 36 % n;
    DealSize(players, count, d);
    DeckCard();
    SubsetCard(d.used, Deck);
  }
  /** With 1 to 36 players no round of the schedule asks for more cards than
      the deck holds, so dealing the whole session never runs dry. */
  lemma ScheduleFitsDeck(n: nat)
    requires 1 <= n <= 36
    ensures forall i :: 0 <= i < |Schedule(n)| ==>
              CardsPerPlayer(Schedule(n)[i], n).Ok? &&
              CardsPerPlayer(Schedule(n)[i], n).value * n <= DeckSize
  {
    var m := Peak(n);
    assert 36 == m * n + 36 % n;
    ScheduleNamesInRange(n);
    forall i | 0 <= i < |Schedule(n)|
      ensures CardsPerPlayer(Schedule(n)[i], n).value * n <= DeckSize
    {
      if Schedule(n)[i].Num? {
        MulMonotone(Schedule(n)[i].cards, m, n);
      }
    }
  }
}
