/** Materialising the rounds of a new session (the loop of
    `create_sets_with_cards`), with the store replaced by a list of records. */
module Session {
  import opened Outcomes
  import opened Seqs
  import opened Cards
  import opened Schedules
  import opened Rotation
  import opened Dealing
  import opened Trumps

  /** One stored round (`sets` row) together with its dealings. */
  datatype RoundRecord = RoundRecord(
    name: RoundName,
    number: nat,
    trump: Trump,
    dealerId: Id,
    openerId: Id,
    isCurrent: bool,
    dealings: seq<Hand>)

  /** The cards a round's dealings hold. */
  function UsedCards(rec: RoundRecord): set<Card> {
    Elems(AllCards(rec.dealings))
  }

  /** What the session promises about its `i`-th round when the circular
      generator started at seat `start`. */
  ghost predicate RoundOk(players: seq<Player>, start: nat, i: nat, rec: RoundRecord)
    requires 1 <= |players| && start < |players| && i < |Schedule(|players|)|
  {
    var n := |players|;
    && rec.name == Schedule(n)[i]
    && rec.number == i + 1
    && (rec.isCurrent <==> i == 0)
    && CardsPerPlayer(rec.name, n).Ok?
    && ValidDeal(players, CardsPerPlayer(rec.name, n).value, Deal(rec.dealings, UsedCards(rec)))
    && TrumpAsWritten(rec.name, UsedCards(rec), rec.trump)
    && rec.dealerId == players[SeatIndex(n, start, i)].id
    && rec.openerId == players[SeatIndex(n, start, i + 1)].id
  }

  /** A whole session: one record per scheduled round, in schedule order. */
  ghost predicate SessionOk(players: seq<Player>, start: nat, records: seq<RoundRecord>) {
    && 1 <= |players| && start < |players|
    && |records| == |Schedule(|players|)|
    && forall i :: 0 <= i < |records| ==> RoundOk(players, start, i, records[i])
  }

  lemma AppendRound(players: seq<Player>, start: nat, records: seq<RoundRecord>, rec: RoundRecord)
    requires 1 <= |players| && start < |players| && |records| < |Schedule(|players|)|
    requires forall i :: 0 <= i < |records| ==> RoundOk(players, start, i, records[i])
    requires RoundOk(players, start, |records|, rec)
    ensures forall i :: 0 <= i < |records| + 1 ==> RoundOk(players, start, i, (records + [rec])[i])
  {
    forall i | 0 <= i < |records| + 1
      ensures RoundOk(players, start, i, (records + [rec])[i])
    {
      if i < |records| {
        assert (records + [rec])[i] == records[i];
      }
    }
  }

  /** One pass of the loop body: deal the round, pick its trump and form its
      record with the given dealer, opener and current flag. */
  method BuildRound(name: RoundName, number: nat, players: seq<Player>,
                    dealer: Player, opener: Player, isCurrent: bool)
    returns (r: Result<RoundRecord>)
    ensures CardsPerPlayer(name, |players|).Ok? ==>
              (r.Ok? <==> CardsPerPlayer(name, |players|).value * |players| <= DeckSize)
    ensures CardsPerPlayer(name, |players|).Ok? && r.Err? ==> r.error == EmptyChoice
    ensures r.Ok? ==>
              && r.value.name == name && r.value.number == number
              && r.value.isCurrent == isCurrent
              && r.value.dealerId == dealer.id && r.value.openerId == opener.id
              && CardsPerPlayer(name, |players|).Ok?
              && ValidDeal(players, CardsPerPlayer(name, |players|).value,
                           Deal(r.value.dealings, UsedCards(r.value)))
              && TrumpAsWritten(name, UsedCards(r.value), r.value.trump)
  {
    var dealt := DealRound(name, players);
    if dealt.Err? {
      return Err(dealt.error);
    }
    var trump := PickTrump(name, dealt.value.used);
    return Ok(RoundRecord(name, number, trump, dealer.id, opener.id, isCurrent,
                          dealt.value.hands));
  }

  /** Builds every round of the session. The start seat is drawn once; round
      `i` is dealt by the generator's `i`-th player and opened by the next;
      only the first round is current. Fails when nobody is seated (the start
      draw has an empty range) or when more than 36 are (the first round
      cannot be dealt). */
  method CreateSetsWithCards(players: seq<Player>) returns (r: Result<seq<RoundRecord>>)
    ensures r.Ok? <==> 1 <= |players| <= 36
    ensures |players| == 0 ==> r == Err(EmptyRandRange)
    ensures |players| > 36 ==> r == Err(EmptyChoice)
    ensures r.Ok? ==> exists start :: SessionOk(players, start, r.value)
  {
    var n := |players|;
    if n == 0 {
      return Err(EmptyRandRange);
    }
    var start :| 0 <= start < n;
    var seats := CircularYields(players, start, |Schedule(n)| + 2);
    r := BuildRounds(players, start, seats);
  }

  /** The loop over the schedule, given the generator's first yields. */
  method BuildRounds(players: seq<Player>, start: nat, seats: seq<Player>)
    returns (r: Result<seq<RoundRecord>>)
    requires 1 <= |players| && start < |players|
    requires |seats| == |Schedule(|players|)| + 2
    requires forall k :: 0 <= k < |seats| ==> seats[k] == players[SeatIndex(|players|, start, k)]
    ensures r.Ok? <==> |players| <= 36
    ensures |players| > 36 ==> r == Err(EmptyChoice)
    ensures r.Ok? ==> SessionOk(players, start, r.value)
  {
    var n := |players|;
    var names := Schedule(n);
    var cursor := 0;
    var dealer := seats[cursor];
    cursor := cursor + 1;
    var opener := seats[cursor];
    cursor := cursor + 1;
    if n <= 36 {
      ScheduleFitsDeck(n);
    }
    var isCurrent := true;
    var records: seq<RoundRecord> := [];
    var index := 0;
    while index < |names|
      invariant 0 <= index <= |names|
      invariant |records| == index
      invariant cursor == index + 2
      invariant dealer == seats[index] && opener == seats[index + 1]
      invariant isCurrent <==> index == 0
      invariant index > 0 ==> n <= 36
      invariant forall i :: 0 <= i < index ==> RoundOk(players, start, i, records[i])
    {
      var built := BuildRound(names[index], index + 1, players, dealer, opener, isCurrent);
      if built.Err? {
        return Err(built.error);
      }
      assert RoundOk(players, start, index, built.value);
      AppendRound(players, start, records, built.value);
      records := records + [built.value];
      isCurrent := false;
      dealer := opener;
      opener := seats[cursor];
      cursor := cursor + 1;
      index := index + 1;
    }
    return Ok(records);
  }

  /** Exactly one round of a fresh session is current: the first. */
  lemma ExactlyOneCurrent(players: seq<Player>, start: nat, records: seq<RoundRecord>)
    requires SessionOk(players, start, records)
    ensures (set i | 0 <= i < |records| && records[i].isCurrent) == {0}
  {
    ScheduleLength(|players|);
    assert RoundOk(players, start, 0, records[0]);
  }

  /** Each round's opener deals the next round, and sits immediately after
      that round's dealer in seating order. */
  lemma {:induction false} OpenerDealsNext(players: seq<Player>, start: nat, records: seq<RoundRecord>, i: nat)
    requires SessionOk(players, start, records)
    requires i < |records|
    ensures records[i].dealerId == players[SeatIndex(|players|, start, i)].id
    ensures records[i].openerId == players[(SeatIndex(|players|, start, i) + 1) % |players|].id
    ensures i + 1 < |records| ==> records[i].openerId == records[i + 1].dealerId
  {
    assert RoundOk(players, start, i, records[i]);
    NextSeat(|players|, start, i);
    if i + 1 < |records| {
      assert RoundOk(players, start, i + 1, records[i + 1]);
    }
  }

  /** No two seated players share an id. */
  predicate DistinctIds(players: seq<Player>) {
    forall a, b :: 0 <= a < b < |players| ==> players[a].id != players[b].id
  }

  /** Among any `n` consecutive rounds every seated player deals, and when
      the players' ids are distinct no two of those rounds share a dealer,
      so each player deals exactly once. */
  lemma DealerVisitsEverySeat(players: seq<Player>, start: nat, records: seq<RoundRecord>,
                              from: nat, j: nat)
    requires SessionOk(players, start, records)
    requires from + |players| <= |records| && j < |players|
    ensures exists k :: from <= k < from + |players| && records[k].dealerId == players[j].id
    ensures DistinctIds(players) ==>
              forall k1, k2 :: from <= k1 < k2 < from + |players| ==>
                records[k1].dealerId != records[k2].dealerId
  {
    var n := |players|;
    EverySeatInLap(n, start, from, j);
    var k :| from <= k < from + n && SeatIndex(n, start, k) == j;
    assert RoundOk(players, start, k, records[k]);
    if DistinctIds(players) {
      forall k1, k2 | from <= k1 < k2 < from + n
        ensures records[k1].dealerId != records[k2].dealerId
      {
        assert RoundOk(players, start, k1, records[k1]);
        assert RoundOk(players, start, k2, records[k2]);
        SeatsDistinctInLap(n, start, k1, k2);
      }
    }
  }

  /** The first finding at session level: when the player count divides 36,
      every no-trump round of the session deals the whole deck, and its
      trump, picked as written, names a suit without a value. */
  lemma NoTrumpRoundKeepsSuit(players: seq<Player>, start: nat, records: seq<RoundRecord>, i: nat)
    requires SessionOk(players, start, records) && 36 % |players| == 0
    requires i < |records| && records[i].name == NTR
    ensures UsedCards(records[i]) == Deck
    ensures records[i].trump.suit.Some? && records[i].trump.value.None?
  {
    var n := |players|;
    var rec := records[i];
    assert RoundOk(players, start, i, rec);
    assert CardsPerPlayer(NTR, n) == Ok(Peak(n));
    FullDealUsesDeck(players, Peak(n), Deal(rec.dealings, UsedCards(rec)));
    assert Deck - UsedCards(rec) == {};
  }

  /** A four-player session has 34 rounds; the first is the only current one
      and deals one card to each player, four in all. */
  lemma FourPlayerSession(players: seq<Player>, start: nat, records: seq<RoundRecord>)
    requires |players| == 4 && SessionOk(players, start, records)
    ensures |records| == 34
    ensures records[0].isCurrent && forall i :: 1 <= i < 34 ==> !records[i].isCurrent
    ensures records[0].name == Num(1) && |UsedCards(records[0])| == 4
    ensures forall h :: h in records[0].dealings ==> |h.cards| == 1
  {
    ScheduleForFour();
    assert RoundOk(players, start, 0, records[0]);
    assert forall i :: 1 <= i < 34 ==> RoundOk(players, start, i, records[i]);
    DealSize(players, 1, Deal(records[0].dealings, UsedCards(records[0])));
  }
}
