/** Reassembling the view of a game from the flat rows the store returns
    (`get_full_game_info`): the current round's trump, each player's hand and
    the cards on the table. */
module GameView {
  import opened Outcomes
  import opened Cards
  import opened Dealing

  /** One flat row of the store's query: a card of the current round with its
      holder, its trick (if played) and the round's trump. */
  datatype InfoRow = InfoRow(
    cardId: Id,
    suit: Suit,
    value: int,
    userId: Id,
    username: string,
    entryId: Option<Id>,
    setId: Id,
    trumpSuit: Option<Suit>,
    trumpValue: Option<int>)

  /** `FullCardInfoDTO` */
  datatype CardInfo = CardInfo(id: Id, suit: Suit, value: int, userId: Id, entryId: Option<Id>)

  /** `FullUserCardInfoDTO` */
  datatype UserCards = UserCards(id: Id, username: string, cards: seq<CardInfo>)

  /** `FullEntryCardInfoDTO` */
  datatype EntryCards = EntryCards(id: Id, cards: seq<CardInfo>)

  /** `FullGameCardInfoDTO` */
  datatype FullGameInfo = FullGameInfo(
    setId: Id,
    users: seq<UserCards>,
    entry: Option<EntryCards>,
    trumpSuit: Option<Suit>,
    trumpValue: Option<int>)

  function CardOf(row: InfoRow): CardInfo {
    CardInfo(row.cardId, row.suit, row.value, row.userId, row.entryId)
  }

  /** The card of every row, in row order. */
  function CardsOf(rows: seq<InfoRow>): seq<CardInfo> {
    seq(|rows|, i requires 0 <= i < |rows| => CardOf(rows[i]))
  }

  /** A card still in its holder's hand: it belongs to no trick. */
  predicate InHand(c: CardInfo) {
    c.entryId.None?
  }

  predicate OnTable(c: CardInfo) {
    c.entryId.Some?
  }

  /** The elements of `s` that satisfy `p`, in order. */
  function Filter<T>(s: seq<T>, p: T -> bool): seq<T> {
    if |s| == 0 then []
    else Filter(s[..|s| - 1], p) + (if p(s[|s| - 1]) then [s[|s| - 1]] else [])
  }

  lemma {:induction false} FilterMembership<T>(s: seq<T>, p: T -> bool, x: T)
    ensures x in Filter(s, p) <==> x in s && p(x)
  {
    if |s| > 0 {
      var init := s[..|s| - 1];
      FilterMembership(init, p, x);
      assert s == init + [s[|s| - 1]];
    }
  }

  /** `Filter` with `p` and with its negation split `s` without loss or
      duplication. */
  lemma {:induction false} FilterPartition<T>(s: seq<T>, p: T -> bool, q: T -> bool)
    requires forall x :: q(x) == !p(x)
    ensures multiset(Filter(s, p)) + multiset(Filter(s, q)) == multiset(s)
  {
    if |s| > 0 {
      var init := s[..|s| - 1];
      FilterPartition(init, p, q);
      assert s == init + [s[|s| - 1]];
    }
  }

  /** `Filter` keeps nothing exactly when nothing satisfies `p`; otherwise its
      head is the first element that does. */
  lemma {:induction false} FilterFirst<T>(s: seq<T>, p: T -> bool)
    ensures Filter(s, p) == [] <==> forall i :: 0 <= i < |s| ==> !p(s[i])
    ensures Filter(s, p) != [] ==>
              exists i :: 0 <= i < |s| && p(s[i]) && Filter(s, p)[0] == s[i] &&
                          forall k :: 0 <= k < i ==> !p(s[k])
  {
    if |s| > 0 {
      var init := s[..|s| - 1];
      FilterFirst(init, p);
      assert forall k :: 0 <= k < |init| ==> init[k] == s[k];
    }
  }

  /** The loop over the rows: each card goes to the hands when it belongs to
      no trick and to the table otherwise, keeping the rows' order. */
  method SplitRows(rows: seq<InfoRow>) returns (userCards: seq<CardInfo>, entryCards: seq<CardInfo>)
    ensures userCards == Filter(CardsOf(rows), InHand)
    ensures entryCards == Filter(CardsOf(rows), OnTable)
    ensures multiset(userCards) + multiset(entryCards) == multiset(CardsOf(rows))
  {
    userCards := [];
    entryCards := [];
    var i := 0;
    while i < |rows|
      invariant 0 <= i <= |rows|
      invariant userCards == Filter(CardsOf(rows)[..i], InHand)
      invariant entryCards == Filter(CardsOf(rows)[..i], OnTable)
    {
      var card := CardOf(rows[i]);
      assert CardsOf(rows)[..i + 1][..i] == CardsOf(rows)[..i];
      if rows[i].entryId.None? {
        userCards := userCards + [card];
      } else {
        entryCards := entryCards + [card];
      }
      i := i + 1;
    }
    assert CardsOf(rows)[..|rows|] == CardsOf(rows);
    FilterPartition(CardsOf(rows), InHand, OnTable);
  }

  predicate HeldBy(uid: Id, c: CardInfo) {
    c.userId == uid
  }

  /** The cards of `hand` that `uid` holds, in order. */
  function UserHand(hand: seq<CardInfo>, uid: Id): seq<CardInfo> {
    Filter(hand, c => HeldBy(uid, c))
  }

  /** A user's entry lists exactly that user's cards still in hand. */
  lemma UserHandMembership(cs: seq<CardInfo>, uid: Id, c: CardInfo)
    ensures c in UserHand(Filter(cs, InHand), uid) <==> c in cs && c.entryId.None? && c.userId == uid
  {
    FilterMembership(Filter(cs, InHand), c => HeldBy(uid, c), c);
    FilterMembership(cs, InHand, c);
  }

  /** One user entry per owner row, each with that user's cards in hand. */
  function UserEntries(owners: seq<InfoRow>, hand: seq<CardInfo>): seq<UserCards> {
    seq(|owners|, i requires 0 <= i < |owners| =>
      UserCards(owners[i].userId, owners[i].username, UserHand(hand, owners[i].userId)))
  }

  /** The trick shown with the view: absent when no card of `cs` is on the
      table, otherwise the table cards keyed by the first one's trick. */
  function TableEntry(cs: seq<CardInfo>): Option<EntryCards> {
    var table := Filter(cs, OnTable);
    if table != [] then
      FilterMembership(cs, OnTable, table[0]);
      Some(EntryCards(table[0].entryId.value, table))
    else None
  }

  /** `get_full_game_info` as written: one user entry per ROW, because the
      filter on the set of row user ids keeps every row. */
  function FullGameInfoAsWritten(rows: seq<InfoRow>): (r: Result<FullGameInfo>)
    ensures r.Err? <==> |rows| == 0
    ensures r.Err? ==> r.error == EmptyIndex
  {
    if |rows| == 0 then Err(EmptyIndex)
    else
      Ok(FullGameInfo(
        rows[0].setId,
        UserEntries(rows, Filter(CardsOf(rows), InHand)),
        TableEntry(CardsOf(rows)),
        rows[0].trumpSuit,
        rows[0].trumpValue))
  }

  /** The view as written, round and trick: round and trump come from the
      first row; the trick is absent exactly when no row is on the table,
      otherwise it is keyed by the first table row's trick and holds exactly
      the table cards. */
  lemma ViewAsWrittenTrick(rows: seq<InfoRow>)
    requires |rows| > 0
    ensures var v := FullGameInfoAsWritten(rows).value;
      && v.setId == rows[0].setId
      && v.trumpSuit == rows[0].trumpSuit && v.trumpValue == rows[0].trumpValue
      && (v.entry.None? <==> forall i :: 0 <= i < |rows| ==> rows[i].entryId.None?)
      && (v.entry.Some? ==>
            exists i :: 0 <= i < |rows| && rows[i].entryId == Some(v.entry.value.id) &&
                        forall k :: 0 <= k < i ==> rows[k].entryId.None?)
      && (v.entry.Some? ==>
            forall c :: c in v.entry.value.cards <==> c in CardsOf(rows) && c.entryId.Some?)
  {
    var cs := CardsOf(rows);
    var table := Filter(cs, OnTable);
    assert |cs| == |rows| && forall i :: 0 <= i < |rows| ==> cs[i].entryId == rows[i].entryId;
    FilterFirst(cs, OnTable);
    forall c
      ensures c in table <==> c in cs && c.entryId.Some?
    {
      FilterMembership(cs, OnTable, c);
    }
  }

  /** The view as written, users: one entry per row, carrying that row's
      user. */
  lemma ViewAsWrittenUsers(rows: seq<InfoRow>)
    requires |rows| > 0
    ensures |FullGameInfoAsWritten(rows).value.users| == |rows|
    ensures forall i :: 0 <= i < |rows| ==>
              FullGameInfoAsWritten(rows).value.users[i].id == rows[i].userId &&
              FullGameInfoAsWritten(rows).value.users[i].username == rows[i].username
  {
    assert FullGameInfoAsWritten(rows).value.users == UserEntries(rows, Filter(CardsOf(rows), InHand));
  }

  /** The view as written, hands: the entry made for row `i` lists exactly
      the cards of that row's user still in hand. */
  lemma ViewAsWrittenHands(rows: seq<InfoRow>, i: nat, c: CardInfo)
    requires i < |rows|
    ensures c in FullGameInfoAsWritten(rows).value.users[i].cards <==>
              c in CardsOf(rows) && c.entryId.None? && c.userId == rows[i].userId
  {
    var cs := CardsOf(rows);
    assert FullGameInfoAsWritten(rows).value.users == UserEntries(rows, Filter(cs, InHand));
    UserHandMembership(cs, rows[i].userId, c);
  }

  function UserIds(rows: seq<InfoRow>): set<Id> {
    set r | r in rows :: r.userId
  }

  /** The first row of each user, in order of first appearance. */
  function FirstPerUser(rows: seq<InfoRow>): seq<InfoRow> {
    if |rows| == 0 then []
    else
      var seen := FirstPerUser(rows[..|rows| - 1]);
      if rows[|rows| - 1].userId in UserIds(seen) then seen else seen + [rows[|rows| - 1]]
  }

  /** `FirstPerUser` names every user of the rows exactly once. */
  lemma {:induction false} FirstPerUserSpec(rows: seq<InfoRow>)
    ensures UserIds(FirstPerUser(rows)) == UserIds(rows)
    ensures forall r :: r in FirstPerUser(rows) ==> r in rows
    ensures forall i, j :: 0 <= i < j < |FirstPerUser(rows)| ==>
              FirstPerUser(rows)[i].userId != FirstPerUser(rows)[j].userId
  {
    if |rows| > 0 {
      var init := rows[..|rows| - 1];
      var last := rows[|rows| - 1];
      FirstPerUserSpec(init);
      assert rows == init + [last];
      assert UserIds(rows) == UserIds(init) + {last.userId};
      var seen := FirstPerUser(init);
      if last.userId !in UserIds(seen) {
        var d := seen + [last];
        assert UserIds(d) == UserIds(seen) + {last.userId};
        forall i | 0 <= i < |seen|
          ensures d[i].userId != last.userId
        {
          assert d[i] in seen;
        }
      }
    }
  }

  /** `get_full_game_info` with one user entry per distinct user, as the
      `user_ids` filter evidently intends; the entries are built from each
      user's first row. */
  function FullGameInfoCorrected(rows: seq<InfoRow>): (r: Result<FullGameInfo>)
    ensures r.Err? <==> |rows| == 0
    ensures r.Err? ==> r.error == EmptyIndex
  {
    var asWritten := FullGameInfoAsWritten(rows);
    if asWritten.Err? then asWritten
    else
      var hand := Filter(CardsOf(rows), InHand);
      Ok(asWritten.value.(users := UserEntries(FirstPerUser(rows), hand)))
  }

  /** The corrected view lists each user of the rows exactly once; round,
      trump and trick are those of the view as written. */
  lemma ViewCorrectedUsers(rows: seq<InfoRow>)
    requires |rows| > 0
    ensures var v := FullGameInfoCorrected(rows).value;
      && v.setId == rows[0].setId && v.entry == FullGameInfoAsWritten(rows).value.entry
      && v.trumpSuit == rows[0].trumpSuit && v.trumpValue == rows[0].trumpValue
      && (forall i, j :: 0 <= i < j < |v.users| ==> v.users[i].id != v.users[j].id)
      && (forall k :: 0 <= k < |rows| ==> exists i :: 0 <= i < |v.users| && v.users[i].id == rows[k].userId)
      && (forall i :: 0 <= i < |v.users| ==> v.users[i].id in UserIds(rows))
      && (set u | u in v.users :: u.id) == UserIds(rows)
  {
    var v := FullGameInfoCorrected(rows).value;
    var firsts := FirstPerUser(rows);
    FirstPerUserSpec(rows);
    assert |v.users| == |firsts|;
    assert forall i :: 0 <= i < |firsts| ==> v.users[i].id == firsts[i].userId;
    forall k | 0 <= k < |rows|
      ensures exists i :: 0 <= i < |v.users| && v.users[i].id == rows[k].userId
    {
      assert rows[k].userId in UserIds(rows);
      var r :| r in firsts && r.userId == rows[k].userId;
      var i :| 0 <= i < |firsts| && firsts[i] == r;
      assert v.users[i].id == rows[k].userId;
    }
    EntriesNameRowUsers(v.users, firsts, rows);
  }

  /** Entries made one per row of `firsts`, whose users are exactly the row
      users, name only row users, and name each of them. */
  lemma EntriesNameRowUsers(us: seq<UserCards>, firsts: seq<InfoRow>, rows: seq<InfoRow>)
    requires |us| == |firsts| && forall i :: 0 <= i < |firsts| ==> us[i].id == firsts[i].userId
    requires UserIds(firsts) == UserIds(rows)
    ensures forall i :: 0 <= i < |us| ==> us[i].id in UserIds(rows)
    ensures (set u | u in us :: u.id) == UserIds(rows)
  {
    forall i | 0 <= i < |us|
      ensures us[i].id in UserIds(rows)
    {
      assert firsts[i] in firsts;
    }
    forall uid | uid in UserIds(rows)
      ensures uid in (set u | u in us :: u.id)
    {
      var j := UserEntryOf(us, firsts, rows, uid);
      assert us[j] in us;
    }
  }

  /** The index of an entry naming the row user `uid`. */
  lemma UserEntryOf(us: seq<UserCards>, firsts: seq<InfoRow>, rows: seq<InfoRow>, uid: Id)
    returns (j: nat)
    requires |us| == |firsts| && forall i :: 0 <= i < |firsts| ==> us[i].id == firsts[i].userId
    requires UserIds(firsts) == UserIds(rows) && uid in UserIds(rows)
    ensures j < |us| && us[j].id == uid
  {
    var r :| r in firsts && r.userId == uid;
    j :| 0 <= j < |firsts| && firsts[j] == r;
  }

  /** Each user entry of the corrected view lists exactly that user's cards
      still in hand. */
  lemma ViewCorrectedHands(rows: seq<InfoRow>)
    requires |rows| > 0
    ensures var v := FullGameInfoCorrected(rows).value;
      forall i, c :: 0 <= i < |v.users| ==>
        (c in v.users[i].cards <==> c in CardsOf(rows) && c.entryId.None? && c.userId == v.users[i].id)
  {
    var cs := CardsOf(rows);
    var v := FullGameInfoCorrected(rows).value;
    var firsts := FirstPerUser(rows);
    forall i, c | 0 <= i < |v.users|
      ensures c in v.users[i].cards <==> c in cs && c.entryId.None? && c.userId == v.users[i].id
    {
      assert v.users[i].id == firsts[i].userId;
      UserHandMembership(cs, firsts[i].userId, c);
    }
  }

  /** The discrepancy: two cards in one player's hand give that player two
      identical user entries in the view as written, one in the corrected
      view. */
  lemma DuplicateUserEntries()
    ensures var a := InfoRow(1, H, 6, 7, "ann", None, 3, Some(S), Some(9));
      && var b := a.(cardId := 2, value := 7);
      && |FullGameInfoAsWritten([a, b]).value.users| == 2
      && FullGameInfoAsWritten([a, b]).value.users[0] == FullGameInfoAsWritten([a, b]).value.users[1]
      && |FullGameInfoCorrected([a, b]).value.users| == 1
  {
    var a := InfoRow(1, H, 6, 7, "ann", None, 3, Some(S), Some(9));
    var b := a.(cardId := 2, value := 7);
    var rows := [a, b];
    assert rows[..1] == [a];
    assert [a][..0] == [];
    assert UserIds([a]) == {7};
    assert FirstPerUser([a]) == [a];
    assert FirstPerUser(rows) == [a];
  }
}
