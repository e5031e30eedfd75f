/**
 * The card node of the older SpriteKit solitaire (SKCard.swift): the card
 * record it draws, the image name chosen for a record, and the node's tap
 * highlight.
 */
module LegacyCard {
  import Numerals

  /** The SpriteKit version's own suit enum, with its raw values. */
  datatype LegacySuit = NoSuit | Hearts | Diamonds | Clubs | Spades {
    function RawValue(): string {
      match this
      case NoSuit => "none"
      case Hearts => "heart"
      case Diamonds => "diamond"
      case Clubs => "clubs"
      case Spades => "spade"
    }
  }

  /** The `SKColor` values the legacy code uses. */
  datatype Colour = Red | Black | Blue | White | LightGray

  /** A card as the legacy deck describes it. */
  datatype CardDTO = CardDTO(suit: LegacySuit, color: Colour, number: int)

  /** `CardDTO()`: no suit, blue, number -1. */
  const DefaultDTO: CardDTO := CardDTO(NoSuit, Blue, -1)

  const BackImage: string := "card back side"

  /** Ace and court cards by letter, every other number by `String(number)`. */
  function RankName(number: int): string {
    match number
    case 1 => "A"
    case 11 => "J"
    case 12 => "Q"
    case 13 => "K"
    case _ => Numerals.DecimalString(number)
  }

  /** `getCardImageName`: the back for a suitless record, else "<rank> <suit>". */
  function ImageName(dto: CardDTO): string {
    if dto.suit == NoSuit then BackImage
    else RankName(dto.number) + " " + dto.suit.RawValue()
  }

  predicate NoSpace(s: string) {
    forall i :: 0 <= i < |s| ==> s[i] != ' '
  }

  lemma RankNameNoSpace(number: int)
    ensures NoSpace(RankName(number)) && RankName(number) != []
  {
    var s := Numerals.DecimalString(number);
    if number < 0 {
      forall i | 0 < i < |s| ensures s[i] != ' ' {
        assert s[i] == s[1..][i - 1];
      }
    }
  }

  /** Text joined at a space splits back at its first space. */
  lemma SplitAtSpace(x: string, y: string, u: string, v: string)
    requires NoSpace(x) && NoSpace(u)
    requires x + " " + y == u + " " + v
    ensures x == u && y == v
  {
    var w := x + " " + y;
    assert w[|x|] == ' ' && w[|u|] == ' ';
    assert x == w[..|x|] && u == w[..|u|];
    assert y == w[|x| + 1..] && v == w[|u| + 1..];
  }

  /** Only 1, 11, 12 and 13 are named by a letter; every other name starts with a digit or a minus sign. */
  lemma RankNameLetter(n: int)
    ensures RankName(n) in ["A", "J", "Q", "K"] <==> n in {1, 11, 12, 13}
  {
    if n !in {1, 11, 12, 13} {
      var s := Numerals.DecimalString(n);
      assert s[0] == '-' || Numerals.IsDigit(s[0]);
    }
  }

  /** Different 64-bit numbers get different rank names. */
  lemma RankNameInjective(a: int, b: int)
    requires Numerals.IntMin <= a <= Numerals.IntMax && Numerals.IntMin <= b <= Numerals.IntMax
    requires RankName(a) == RankName(b)
    ensures a == b
  {
    RankNameLetter(a);
    RankNameLetter(b);
    if a !in {1, 11, 12, 13} && b !in {1, 11, 12, 13} {
      Numerals.ParseDecimalRoundTrip(a);
      Numerals.ParseDecimalRoundTrip(b);
    }
  }

  /**
   * A suitless record shows the back; any other shows "<rank> <suit raw
   * value>" with the rank named A, J, Q, K for 1, 11, 12, 13 and in decimal
   * otherwise.
   */
  lemma ImageNameCases(dto: CardDTO)
    ensures dto.suit == NoSuit ==> ImageName(dto) == BackImage
    ensures dto.suit != NoSuit && dto.number == 1 ==> ImageName(dto) == "A " + dto.suit.RawValue()
    ensures dto.suit != NoSuit && dto.number == 11 ==> ImageName(dto) == "J " + dto.suit.RawValue()
    ensures dto.suit != NoSuit && dto.number == 12 ==> ImageName(dto) == "Q " + dto.suit.RawValue()
    ensures dto.suit != NoSuit && dto.number == 13 ==> ImageName(dto) == "K " + dto.suit.RawValue()
    ensures dto.suit != NoSuit && dto.number !in {1, 11, 12, 13} ==>
      ImageName(dto) == Numerals.DecimalString(dto.number) + " " + dto.suit.RawValue()
  {
  }

  /**
   * Two records with a suit share an image exactly when they share suit and
   * number; colour plays no part.
   */
  lemma ImageNameIdentifiesCard(a: CardDTO, b: CardDTO)
    requires a.suit != NoSuit && b.suit != NoSuit
    requires Numerals.IntMin <= a.number <= Numerals.IntMax && Numerals.IntMin <= b.number <= Numerals.IntMax
    ensures ImageName(a) == ImageName(b) <==> a.suit == b.suit && a.number == b.number
  {
    if ImageName(a) == ImageName(b) {
      RankNameNoSpace(a.number);
      RankNameNoSpace(b.number);
      SplitAtSpace(RankName(a.number), a.suit.RawValue(), RankName(b.number), b.suit.RawValue());
      RankNameInjective(a.number, b.number);
    }
  }

  /** No record with a suit shows the back. */
  lemma FaceIsNotBack(dto: CardDTO)
    requires dto.suit != NoSuit
    ensures ImageName(dto) != BackImage
  {
    RankNameNoSpace(dto.number);
    assert BackImage == "card" + " " + "back side";
    if ImageName(dto) == BackImage {
      SplitAtSpace(RankName(dto.number), dto.suit.RawValue(), "card", "back side");
    }
  }

  /** The card node: its record, tap and cover flags, fill colour and texture. */
  class SKCard {
    var dto: CardDTO
    var tapped: bool
    var covered: bool
    var fill: Colour
    var texture: string

    /** The fill shows whether the card is tapped. */
    predicate Highlighted()
      reads this
    {
      fill == (if tapped then LightGray else White)
    }

    /**
     * `init(cardDto:size:radius:covered:)`: a covered card shows the back,
     * an uncovered one its image name; the fill starts white. The
     * `covered` parameter is not stored, so the field keeps its initial
     * `false`.
     */
    constructor(cardDto: CardDTO, coveredParam: bool)
      ensures dto == cardDto && !tapped && !covered && fill == White
      ensures texture == (if coveredParam then BackImage else ImageName(cardDto))
      ensures Highlighted()
    {
      dto := cardDto;
      tapped := false;
      covered := false;
      texture := if coveredParam then BackImage else ImageName(cardDto);
      fill := White;
    }

    /** `tap`: white again if it was tapped, light grey if not, then toggle. */
    method Tap()
      modifies this
      ensures tapped == !old(tapped)
      ensures fill == (if old(tapped) then White else LightGray)
      ensures dto == old(dto) && covered == old(covered) && texture == old(texture)
      ensures old(Highlighted()) ==> Highlighted()
    {
      if tapped {
        fill := White;
      } else {
        fill := LightGray;
      }
      tapped := !tapped;
    }
  }
}
