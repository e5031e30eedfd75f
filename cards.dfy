/**
 * The SwiftUI solitaire's playing card (Card.swift): a display string such as
 * "10♦" or "Q♣", a face-up flag, and a per-instance identifier. The rank and
 * the colour are derived from the display string on demand.
 */
module Cards {
  import opened Wrappers
  import Numerals

  /** `id` stands for the card's `UUID()`, drawn once when the card is made. */
  datatype Card = Card(id: nat, value: string, faceUp: bool)

  /** The characters `rank` trims away before reading the rank. */
  predicate IsSuitSymbol(ch: char) {
    ch == '♠' || ch == '♣' || ch == '♥' || ch == '♦'
  }

  predicate NoSuitSymbols(s: string) {
    forall i :: 0 <= i < |s| ==> !IsSuitSymbol(s[i])
  }

  predicate AllSuitSymbols(s: string) {
    forall i :: 0 <= i < |s| ==> IsSuitSymbol(s[i])
  }

  function TrimLeading(s: string): (r: string)
    ensures |r| <= |s| && r == s[|s| - |r|..]
    ensures AllSuitSymbols(s[..|s| - |r|])
    ensures r == [] || !IsSuitSymbol(r[0])
  {
    if s != [] && IsSuitSymbol(s[0]) then TrimLeading(s[1..]) else s
  }

  function TrimTrailing(s: string): (r: string)
    ensures |r| <= |s| && r == s[..|r|]
    ensures AllSuitSymbols(s[|r|..])
    ensures r == [] || !IsSuitSymbol(r[|r| - 1])
  {
    if s != [] && IsSuitSymbol(s[|s| - 1]) then TrimTrailing(s[..|s| - 1]) else s
  }

  /**
   * `value.trimmingCharacters(in: "♠♣♥♦")`: the longest infix of `value`
   * that neither starts nor ends with a suit symbol, everything around it
   * being suit symbols.
   */
  function TrimSuitSymbols(value: string): (r: string)
    ensures exists a, b ::
              && 0 <= a <= b <= |value| && r == value[a..b]
              && AllSuitSymbols(value[..a]) && AllSuitSymbols(value[b..])
    ensures r == [] || (!IsSuitSymbol(r[0]) && !IsSuitSymbol(r[|r| - 1]))
  {
    var lead := TrimLeading(value);
    var r := TrimTrailing(lead);
    var a := |value| - |lead|;
    var b := a + |r|;
    assert r == value[a..b];
    assert value[b..] == lead[|r|..];
    r
  }

  /** `Card.rank`: A is 1, J 11, Q 12, K 13, a number is itself, anything else 0. */
  function Rank(c: Card): int {
    var rankString := TrimSuitSymbols(c.value);
    match rankString
    case "A" => 1
    case "J" => 11
    case "Q" => 12
    case "K" => 13
    case _ => Numerals.ParseInt(rankString).GetOr(0)
  }

  /** `Card.isRed`: the display string holds a heart or a diamond. */
  predicate IsRed(c: Card) {
    '♥' in c.value || '♦' in c.value
  }

  /** A rank text followed by suit symbols trims back to the rank text. */
  lemma {:induction false} TrimRankFace(name: string, symbols: string)
    requires name != [] && NoSuitSymbols(name) && AllSuitSymbols(symbols)
    ensures TrimSuitSymbols(name + symbols) == name
  {
    TrimTrailingSymbols(name, symbols);
  }

  lemma {:induction false} TrimTrailingSymbols(name: string, symbols: string)
    requires name != [] && !IsSuitSymbol(name[|name| - 1]) && AllSuitSymbols(symbols)
    ensures TrimTrailing(name + symbols) == name
    decreases |symbols|
  {
    if symbols == [] {
      assert name + symbols == name;
    } else {
      var shorter := symbols[..|symbols| - 1];
      assert (name + symbols)[..|name + symbols| - 1] == name + shorter;
      TrimTrailingSymbols(name, shorter);
    }
  }

  /**
   * The rank of a face "<n><suit symbols>" is `n` for every number text that
   * `String(n)` produces, in particular "2" to "10".
   */
  lemma RankOfNumberFace(id: nat, n: int, symbols: string, up: bool)
    requires Numerals.IntMin <= n <= Numerals.IntMax
    requires AllSuitSymbols(symbols)
    ensures Rank(Card(id, Numerals.DecimalString(n) + symbols, up)) == n
  {
    var text := Numerals.DecimalString(n);
    assert NoSuitSymbols(text) by {
      forall i | 0 <= i < |text| ensures !IsSuitSymbol(text[i]) {
        if n < 0 && i > 0 { assert text[i] == text[1..][i - 1]; }
      }
    }
    TrimRankFace(text, symbols);
    Numerals.ParseDecimalRoundTrip(n);
    assert text != "A" && text != "J" && text != "Q" && text != "K" by {
      assert Numerals.IsDigit(text[0]) || text[0] == '-';
    }
  }

  /**
   * A face whose rank text is none of A, J, Q, K and does not parse as an
   * `Int` ranks 0, the `?? 0` default: the empty text, text with other
   * characters, and numbers beyond 64 bits among them.
   */
  lemma RankOfUnreadableFace(id: nat, name: string, symbols: string, up: bool)
    requires NoSuitSymbols(name) && AllSuitSymbols(symbols)
    requires name !in ["A", "J", "Q", "K"] && Numerals.ParseInt(name).None?
    ensures Rank(Card(id, name + symbols, up)) == 0
  {
    if name == [] {
      assert name + symbols == symbols;
    } else {
      TrimRankFace(name, symbols);
    }
  }

  /** The decimal text of a number beyond 64 bits, followed by suit symbols, ranks 0. */
  lemma RankOfOverflowFace(id: nat, n: int, symbols: string, up: bool)
    requires n < Numerals.IntMin || Numerals.IntMax < n
    requires AllSuitSymbols(symbols)
    ensures Rank(Card(id, Numerals.DecimalString(n) + symbols, up)) == 0
  {
    var text := Numerals.DecimalString(n);
    assert NoSuitSymbols(text) by {
      forall i | 0 <= i < |text| ensures !IsSuitSymbol(text[i]) {
        if n < 0 && i > 0 { assert text[i] == text[1..][i - 1]; }
      }
    }
    assert text !in ["A", "J", "Q", "K"] by {
      assert Numerals.IsDigit(text[0]) || text[0] == '-';
    }
    Numerals.ParseOverflow(n);
    RankOfUnreadableFace(id, text, symbols, up);
  }

  /** The faces "A", "J", "Q" and "K" followed by suit symbols rank 1, 11, 12 and 13. */
  lemma RankOfCourtFace(id: nat, letter: string, symbols: string, up: bool)
    requires letter in ["A", "J", "Q", "K"]
    requires AllSuitSymbols(symbols)
    ensures Rank(Card(id, letter + symbols, up)) ==
      match letter case "A" => 1 case "J" => 11 case "Q" => 12 case _ => 13
  {
    TrimRankFace(letter, symbols);
  }

  /**
   * Colour depends on the display string only: a face without hearts or
   * diamonds in its rank text is red exactly when its suit symbols hold one.
   */
  lemma IsRedFace(id: nat, name: string, symbols: string, up: bool)
    requires NoSuitSymbols(name)
    ensures IsRed(Card(id, name + symbols, up)) <==> ('♥' in symbols || '♦' in symbols)
  {
    var v := name + symbols;
    if '♥' in v {
      var i :| 0 <= i < |v| && v[i] == '♥';
      assert i >= |name| && symbols[i - |name|] == '♥';
    }
    if '♦' in v {
      var i :| 0 <= i < |v| && v[i] == '♦';
      assert i >= |name| && symbols[i - |name|] == '♦';
    }
    if '♥' in symbols {
      var i :| 0 <= i < |symbols| && symbols[i] == '♥';
      assert v[|name| + i] == '♥';
    }
    if '♦' in symbols {
      var i :| 0 <= i < |symbols| && symbols[i] == '♦';
      assert v[|name| + i] == '♦';
    }
  }

  /**
   * Equality of cards includes the identifier: two cards built with the same
   * display string and orientation are still different cards.
   */
  lemma DistinctIdsDistinctCards(a: Card, b: Card)
    requires a.value == b.value && a.faceUp == b.faceUp && a.id != b.id
    ensures a != b && Rank(a) == Rank(b) && IsRed(a) == IsRed(b)
  {
  }

  /** Turning a card over changes neither its rank nor its colour. */
  lemma TurningKeepsFace(c: Card, up: bool)
    ensures Rank(c.(faceUp := up)) == Rank(c) && IsRed(c.(faceUp := up)) == IsRed(c)
  {
    assert c.(faceUp := up).value == c.value;
  }

  /** The same cards with every one turned to `up` (`faceUp = up` in a `map`). */
  function Turned(s: seq<Card>, up: bool): (r: seq<Card>)
    ensures |r| == |s| && forall i :: 0 <= i < |s| ==> r[i] == s[i].(faceUp := up)
  {
    seq(|s|, i requires 0 <= i < |s| => s[i].(faceUp := up))
  }

  /** What identifies a card whichever way up it lies. */
  function Key(c: Card): (nat, string) {
    (c.id, c.value)
  }

  function Keys(s: seq<Card>): (r: seq<(nat, string)>)
    ensures |r| == |s| && forall i :: 0 <= i < |s| ==> r[i] == Key(s[i])
  {
    seq(|s|, i requires 0 <= i < |s| => Key(s[i]))
  }

  /** The cards of a pile as a multiset, ignoring which way up they lie. */
  function Identities(s: seq<Card>): multiset<(nat, string)> {
    multiset(Keys(s))
  }

  lemma IdentitiesAppend(a: seq<Card>, b: seq<Card>)
    ensures Identities(a + b) == Identities(a) + Identities(b)
  {
    assert Keys(a + b) == Keys(a) + Keys(b);
  }

  lemma IdentitiesTurned(s: seq<Card>, up: bool)
    ensures Identities(Turned(s, up)) == Identities(s)
  {
    assert Keys(Turned(s, up)) == Keys(s);
  }
}

