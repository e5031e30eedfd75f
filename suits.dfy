/**
 * The SwiftUI solitaire's suits and foundation piles (Suit.swift). A suit's
 * raw value is its one-character pictogram; `allCases` lists the suits in
 * declaration order, which is the order the foundations are created in.
 */
module Suits {
  import opened Wrappers
  import opened Cards

  datatype Suit = Spades | Clubs | Hearts | Diamonds {

    function Symbol(): char {
      match this
      case Spades => '♠'
      case Clubs => '♣'
      case Hearts => '♥'
      case Diamonds => '♦'
    }

    /** The enum's `rawValue`. */
    function RawValue(): string {
      [Symbol()]
    }

    predicate IsRed() {
      this == Hearts || this == Diamonds
    }
  }

  /** `Suit.allCases`, in declaration order. */
  const AllCases: seq<Suit> := [Spades, Clubs, Hearts, Diamonds]

  /** Position of a suit in `allCases`. */
  function SuitIndex(s: Suit): (i: nat)
    ensures i < |AllCases| && AllCases[i] == s
    ensures forall j :: 0 <= j < |AllCases| && AllCases[j] == s ==> j == i
  {
    match s
    case Spades => 0
    case Clubs => 1
    case Hearts => 2
    case Diamonds => 3
  }

  /** One foundation pile for a single suit. */
  datatype FoundationPile = FoundationPile(suit: Suit, cards: seq<Card>) {

    /** `topCard`: the last card, nil for an empty pile. */
    function TopCard(): (r: Option<Card>)
      ensures r.None? <==> cards == []
      ensures r.Some? ==> r.value == cards[|cards| - 1]
    {
      if cards == [] then None else Some(cards[|cards| - 1])
    }
  }

  /**
   * The suit a card's display string names: the first suit of `allCases`
   * whose pictogram occurs in the string. Card.swift gives a card no suit
   * property; GameView.swift:141 reads one, and this stands in for it.
   */
  function SuitOf(value: string): (r: Option<Suit>)
    ensures r.Some? ==> r.value.Symbol() in value
    ensures r.None? ==> forall s: Suit :: s.Symbol() !in value
  {
    if '♠' in value then Some(Spades)
    else if '♣' in value then Some(Clubs)
    else if '♥' in value then Some(Hearts)
    else if '♦' in value then Some(Diamonds)
    else None
  }

  /** Every suit's pictogram is one of the symbols `Card.rank` trims. */
  lemma SymbolIsSuitSymbol(s: Suit)
    ensures IsSuitSymbol(s.Symbol()) && AllSuitSymbols(s.RawValue())
  {
  }

  /**
   * The four raw values are distinct, so the suit can be read back from the
   * display string of any face built as rank text followed by the suit.
   */
  lemma SuitOfFace(name: string, s: Suit)
    requires NoSuitSymbols(name)
    ensures SuitOf(name + s.RawValue()) == Some(s)
  {
    var v := name + s.RawValue();
    assert v[|name|] == s.Symbol();
    forall t: Suit, i | t != s && 0 <= i < |v| ensures v[i] != t.Symbol() {
      if i < |name| { assert v[i] == name[i]; }
    }
  }

  /**
   * The colour Card.swift derives from the display string agrees with the
   * suit's own `isRed` for every face built as rank text + raw value.
   */
  lemma CardColourMatchesSuit(id: nat, name: string, s: Suit, up: bool)
    requires NoSuitSymbols(name)
    ensures IsRed(Card(id, name + s.RawValue(), up)) == s.IsRed()
  {
    IsRedFace(id, name, s.RawValue(), up);
  }
}
