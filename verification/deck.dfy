/** The fixed 36-card deck: four suits, values 6 to 14 (`CARDS`). */
module Cards {
  import opened Seqs

  datatype Suit = H | D | C | S

  datatype Card = Card(suit: Suit, value: int)

  const Suits: seq<Suit> := [H, D, C, S]
  const DeckSize: nat := 36
  const LowValue: int := 6
  const HighValue: int := 14

  /** The card that switches the trump off when drawn as indicator. */
  const SpadeSeven: Card := Card(S, 7)

  function SuitIndex(s: Suit): (i: nat)
    ensures i < 4 && Suits[i] == s
  {
    match s
    case H => 0
    case D => 1
    case C => 2
    case S => 3
  }

  /** The deck laid out value-major, four suits per value. */
  function DeckOrder(): (d: seq<Card>)
    ensures |d| == DeckSize
  {
    seq(36, i requires 0 <= i < 36 => Card(Suits[i % 4], LowValue + i / 4))
  }

  const Deck: set<Card> := Elems(DeckOrder())

  predicate IsDeckCard(c: Card) {
    LowValue <= c.value <= HighValue
  }

  /** The deck holds exactly the cards with a value in 6..14, of any suit. */
  lemma DeckMembership(c: Card)
    ensures c in Deck <==> IsDeckCard(c)
  {
    var d := DeckOrder();
    if IsDeckCard(c) {
      var i := SuitIndex(c.suit) + 4 * (c.value - LowValue);
      assert 0 <= i < 36;
      assert i % 4 == SuitIndex(c.suit) && i / 4 == c.value - LowValue;
      assert d[i] == c;
    }
    if c in Deck {
      var i :| 0 <= i < 36 && d[i] == c;
      assert 0 <= i / 4 < 9;
    }
  }

  lemma DeckOrderNoDup()
    ensures NoDup(DeckOrder())
  {
    var d := DeckOrder();
    forall i, j | 0 <= i < j < |d|
      ensures d[i] != d[j]
    {
      if i % 4 == j % 4 {
        assert i / 4 != j / 4;
        assert d[i].value != d[j].value;
      } else {
        assert d[i].suit != d[j].suit;
      }
    }
  }

  /** `CARDS` has exactly 36 members. */
  lemma DeckCard()
    ensures |Deck| == DeckSize
  {
    DeckOrderNoDup();
    NoDupCard(DeckOrder());
  }
}
