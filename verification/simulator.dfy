/**
  The non-graphical part of the simulator window: loading a decklist,
  the "shuffle & draw" step that puts the previous hand back first (the
  mulligan), the land count shown for a hand, and the per-name counts of
  the full-decklist view.

  `previous_hand` is a Python list reference. After a short draw it is the
  very list the deck holds, so the state records that aliasing explicitly.
 */
module Simulator {
  import opened Wrappers
  import opened Cards
  import opened Decklist
  import opened Decks
  import Counting
  import Shuffling

  /** The hand size the window always draws. */
  const HandSize: int := 7

  /** What `previous_hand` refers to: a list of its own, or the deck's own card list. */
  datatype PreviousHand = Own(cards: seq<Card>) | SameAsDeck

  /**
    The window's state: the deck (None until a decklist loads), the
    previous hand, and the lines of the last decklist chosen.
   */
  datatype State = State(deck: Option<Deck>, previousHand: PreviousHand, decklist: seq<string>)

  /** A hand can only share the deck's list when there is a deck. */
  predicate Valid(s: State) {
    s.previousHand.SameAsDeck? ==> s.deck.Some?
  }

  /** The state when the window opens: no deck, an empty previous hand. */
  const Start: State := State(None, Own([]), [])

  /** The cards the previous-hand list holds. */
  function HandOf(s: State): seq<Card>
    requires Valid(s)
  {
    match s.previousHand
    case Own(h) => h
    case SameAsDeck => s.deck.value.cards
  }

  /** The deck's list once a non-empty previous hand has been put back at its end; an empty hand adds nothing. */
  function Pile(s: State): seq<Card>
    requires Valid(s) && s.deck.Some?
  {
    var hand := HandOf(s);
    if |hand| > 0 then s.deck.value.cards + hand else s.deck.value.cards
  }

  /** The physically distinct cards the state holds: the deck, plus the hand when it is a list of its own. */
  function Held(s: State): seq<Card>
    requires s.deck.Some?
  {
    match s.previousHand
    case Own(h) => s.deck.value.cards + h
    case SameAsDeck => s.deck.value.cards
  }

  /** `rolls` are the random draws the shuffle of the redraw makes. */
  predicate RollsFit(s: State, rolls: seq<int>) {
    Valid(s) && (s.deck.Some? ==> Shuffling.ValidRolls(|Pile(s)|, rolls))
  }

  /**
    The "Shuffle & Draw" step: put the previous hand back, shuffle, draw a
    hand of seven, and keep it as the previous hand. With fewer than seven
    cards the hand is the deck list itself. Without a deck nothing happens.
   */
  function Redraw(s: State, rolls: seq<int>): (t: State)
    requires RollsFit(s, rolls)
    ensures Valid(t) && t.decklist == s.decklist && t.deck.Some? == s.deck.Some?
    ensures s.deck.None? ==> t == s
    ensures s.deck.Some? ==> t.deck.value.original == s.deck.value.original
    ensures s.deck.Some? && |Pile(s)| >= HandSize ==>
              && t.previousHand.Own?
              && |HandOf(t)| == HandSize
              && multiset(HandOf(t)) + multiset(t.deck.value.cards) == multiset(Pile(s))
    ensures s.deck.Some? && |Pile(s)| < HandSize ==>
              && t.previousHand == SameAsDeck
              && multiset(t.deck.value.cards) == multiset(Pile(s))
  {
    if s.deck.None? then s
    else
      var shuffled := Shuffle(s.deck.value.(cards := Pile(s)), rolls);
      var drawn := DrawHand(shuffled, HandSize);
      var hand := match drawn.hand
        case Popped(h) => Own(h)
        case DeckList => SameAsDeck;
      assert drawn.HandCards() + drawn.deck.cards == shuffled.cards ==>
               multiset(drawn.HandCards()) + multiset(drawn.deck.cards) == multiset(shuffled.cards);
      State(Some(drawn.deck), hand, s.decklist)
  }

  /** `rolls` are the draws of the shuffle after building, `redrawRolls` those of the first redraw. */
  predicate LoadRollsFit(s: State, lines: seq<string>, db: string -> Response,
                         rolls: seq<int>, redrawRolls: seq<int>)
  {
    && Valid(s)
    && (Build(lines, db).Success? ==>
          var n := |Build(lines, db).value|;
          && Shuffling.ValidRolls(n, rolls)
          && Shuffling.ValidRolls(n + |HandOf(s)|, redrawRolls))
  }

  /**
    "Upload Decklist" once a file is chosen, `lines` being its stripped
    non-empty lines: remember them, build and shuffle a new deck, then
    redraw. The previous hand is not cleared, so it is put back into the
    new deck. A malformed line aborts after the lines were remembered.
   */
  function Load(s: State, lines: seq<string>, db: string -> Response,
                rolls: seq<int>, redrawRolls: seq<int>): (t: State)
    requires LoadRollsFit(s, lines, db, rolls, redrawRolls)
    ensures Valid(t) && t.decklist == lines
    ensures Build(lines, db).Failure? ==> t.deck == s.deck && t.previousHand == s.previousHand
    ensures Build(lines, db).Success? ==>
              t.deck.Some? && t.deck.value.original == Build(lines, db).value
  {
    match NewDeck(lines, db)
    case Failure(_) => s.(decklist := lines)
    case Success(d) =>
      var loaded := State(Some(Shuffle(d, rolls)), Own(HandOf(s)), lines);
      assert |Pile(loaded)| == |d.cards| + |HandOf(s)|;
      Redraw(loaded, redrawRolls)
  }

  /** Number of lands in a hand: one for each card that passes the land test. */
  function LandCount(hand: seq<Card>): (n: nat)
    ensures n <= |hand|
    ensures n == 0 <==> forall k :: 0 <= k < |hand| ==> !IsLand(hand[k])
  {
    Counting.CountWhere(hand, IsLand)
  }

  /** The land count of a hand does not depend on the order of its cards. */
  lemma LandCountPermutation(a: seq<Card>, b: seq<Card>)
    requires multiset(a) == multiset(b)
    ensures LandCount(a) == LandCount(b)
  {
    Counting.CountWherePermutation(a, b, IsLand);
  }

  /** A hand made only of cards whose lookup failed has no land. */
  lemma FallbackHandHasNoLand(names: seq<string>)
    ensures LandCount(seq(|names|, k requires 0 <= k < |names| => FallbackCard(names[k]))) == 0
  {
  }

  /** The label shown when the hand has no land. */
  const NoLandLabel: string := "No Lander hander!"

  /** What the label shows before the land count. */
  const LabelPrefix: string := "Lands in Hand: "

  /**
    The label under the hand: a fixed message for no land, otherwise the
    prefix followed by the count, which reads back as that count.
   */
  function LandLabel(lands: nat): (shown: string)
    ensures lands == 0 ==> shown == NoLandLabel
    ensures lands > 0 ==>
              && |shown| > |LabelPrefix|
              && shown[..|LabelPrefix|] == LabelPrefix
              && ParseInt(shown[|LabelPrefix|..]) == Some(lands)
              && (forall i :: |LabelPrefix| <= i < |shown| ==> IsDigit(shown[i]))
              && shown[|LabelPrefix|] != '0'
  {
    if lands == 0 then NoLandLabel
    else
      var shown := LabelPrefix + IntToString(lands);
      assert shown[|LabelPrefix|..] == IntToString(lands);
      ParseIntRoundTrip(lands);
      shown
  }

  /** The label determines the land count: different counts never show the same label. */
  lemma LandLabelInjective(a: nat, b: nat)
    requires LandLabel(a) == LandLabel(b)
    ensures a == b
  {
    assert NoLandLabel[0] != LabelPrefix[0];
  }

  /** `Counter[name]`: the stored count, or zero for a name it never saw. */
  function CountOf(counts: map<string, nat>, name: string): nat {
    if name in counts then counts[name] else 0
  }

  /** Names of the cards of a list. */
  function Names(cards: seq<Card>): set<string> {
    set c | c in cards :: c.name
  }

  /**
    The deck's name counter updated with the hand's: every name of either
    list, with the number of its cards in both together.
   */
  function NameCounts(deck: seq<Card>, hand: seq<Card>): (counts: map<string, nat>)
    ensures forall name :: name in counts <==> CountName(deck, name) + CountName(hand, name) > 0
    ensures forall name :: CountOf(counts, name) == CountName(deck, name) + CountName(hand, name)
  {
    forall name | CountName(deck, name) + CountName(hand, name) > 0
      ensures name in Names(deck + hand)
    {
      if CountName(deck, name) > 0 {
        var k :| 0 <= k < |deck| && deck[k].name == name;
        assert (deck + hand)[k] == deck[k];
      } else {
        var k :| 0 <= k < |hand| && hand[k].name == name;
        assert (deck + hand)[|deck| + k] == hand[k];
      }
    }
    forall name | name in Names(deck + hand)
      ensures CountName(deck, name) + CountName(hand, name) > 0
    {
      var c :| c in deck + hand && c.name == name;
      Counting.CountWhereAppend(deck, hand, (x: Card) => x.name == name);
      var k :| 0 <= k < |deck + hand| && (deck + hand)[k] == c;
    }
    map name | name in Names(deck + hand) :: CountName(deck, name) + CountName(hand, name)
  }

  /**
    "View Full Decklist": nothing when there is no deck or the deck list is
    empty; otherwise the per-name counts of the deck and the previous hand.
   */
  function FullDecklist(s: State): (v: Option<map<string, nat>>)
    requires Valid(s)
    ensures v.None? <==> s.deck.None? || s.deck.value.cards == []
    ensures v.Some? ==>
              forall name :: CountOf(v.value, name) == CountName(s.deck.value.cards, name) + CountName(HandOf(s), name)
  {
    if s.deck.None? || s.deck.value.cards == [] then None
    else Some(NameCounts(s.deck.value.cards, HandOf(s)))
  }

  /**
    The card whose image the view shows for `name`: the first card of the
    deck list with that name, or none when only the hand holds such cards.
   */
  function FirstNamed(cards: seq<Card>, name: string): (r: Option<Card>)
    ensures r.None? <==> forall k :: 0 <= k < |cards| ==> cards[k].name != name
    ensures r.Some? ==>
              exists k :: 0 <= k < |cards| && cards[k] == r.value && r.value.name == name
                          && forall j :: 0 <= j < k ==> cards[j].name != name
    decreases |cards|
  {
    if cards == [] then None
    else if cards[0].name == name then
      Some(cards[0])
    else
      var r := FirstNamed(cards[1..], name);
      assert forall k :: 0 < k < |cards| ==> cards[k] == cards[1..][k - 1];
      r
  }

  /** Putting the hand back and drawing again keeps the same cards, when the hand is its own list. */
  lemma RedrawKeepsCards(s: State, rolls: seq<int>)
    requires RollsFit(s, rolls) && s.deck.Some? && s.previousHand.Own?
    ensures multiset(Held(Redraw(s, rolls))) == multiset(Held(s))
  {
    var h := s.previousHand.cards;
    assert multiset(Pile(s)) == multiset(Held(s)) by {
      if |h| == 0 {
        assert Held(s) == s.deck.value.cards;
      }
    }
  }

  /**
    When the previous hand is the deck list itself, putting it back doubles
    the deck: `extend` appends the list to itself.
   */
  lemma RedrawAliasedDoubles(s: State, rolls: seq<int>)
    requires RollsFit(s, rolls) && s.previousHand == SameAsDeck
    ensures multiset(Held(Redraw(s, rolls)))
         == multiset(s.deck.value.cards) + multiset(s.deck.value.cards)
  {
    var cards := s.deck.value.cards;
    if |cards| == 0 {
      assert Pile(s) == cards == [];
    } else {
      assert Pile(s) == cards + cards;
    }
  }

  /**
    While the previous hand is a list of its own and at least seven cards
    are in play, the cards in play stay `pool`.
   */
  ghost predicate Conserves(s: State, pool: multiset<Card>) {
    && Valid(s)
    && s.deck.Some?
    && s.previousHand.Own?
    && multiset(Held(s)) == pool
    && |pool| >= HandSize
  }

  /** A redraw from a conserving state draws a full hand and conserves the same cards. */
  lemma RedrawConserves(s: State, pool: multiset<Card>, rolls: seq<int>)
    requires Conserves(s, pool) && RollsFit(s, rolls)
    ensures Conserves(Redraw(s, rolls), pool)
    ensures |HandOf(Redraw(s, rolls))| == HandSize
  {
    RedrawKeepsCards(s, rolls);
  }

  /** `t` is reached from `s` by redraws that use the draws in `runs`, one list per redraw. */
  ghost predicate Redraws(s: State, runs: seq<seq<int>>, t: State)
    decreases |runs|
  {
    if runs == [] then t == s
    else RollsFit(s, runs[0]) && Redraws(Redraw(s, runs[0]), runs[1..], t)
  }

  /** Any number of mulligans from a conserving state keeps exactly the same cards in play. */
  lemma {:induction false} RedrawsConserve(s: State, pool: multiset<Card>, runs: seq<seq<int>>, t: State)
    requires Conserves(s, pool) && Redraws(s, runs, t)
    ensures Conserves(t, pool)
    decreases |runs|
  {
    if runs != [] {
      RedrawConserves(s, pool, runs[0]);
      RedrawsConserve(Redraw(s, runs[0]), pool, runs[1..], t);
    }
  }

  /** Loading a decklist puts the previous hand's cards into the new deck alongside the built cards. */
  lemma LoadCarriesPreviousHand(s: State, lines: seq<string>, db: string -> Response,
                                rolls: seq<int>, redrawRolls: seq<int>)
    requires LoadRollsFit(s, lines, db, rolls, redrawRolls) && Build(lines, db).Success?
    ensures var t := Load(s, lines, db, rolls, redrawRolls);
            multiset(Held(t)) == multiset(Build(lines, db).value) + multiset(HandOf(s))
  {
    var d := NewDeck(lines, db).value;
    var loaded := State(Some(Shuffle(d, rolls)), Own(HandOf(s)), lines);
    assert |Pile(loaded)| == |d.cards| + |HandOf(s)|;
    assert Load(s, lines, db, rolls, redrawRolls) == Redraw(loaded, redrawRolls);
    RedrawKeepsCards(loaded, redrawRolls);
    assert Held(loaded) == Shuffle(d, rolls).cards + HandOf(s);
  }

  /** Loading at least seven cards over an empty hand starts conserving exactly the built cards. */
  lemma LoadConserves(s: State, lines: seq<string>, db: string -> Response,
                      rolls: seq<int>, redrawRolls: seq<int>)
    requires LoadRollsFit(s, lines, db, rolls, redrawRolls) && HandOf(s) == []
    requires Build(lines, db).Success? && |Build(lines, db).value| >= HandSize
    ensures Conserves(Load(s, lines, db, rolls, redrawRolls), multiset(Build(lines, db).value))
  {
    var cards := Build(lines, db).value;
    LoadCarriesPreviousHand(s, lines, db, rolls, redrawRolls);
    assert multiset(HandOf(s)) == multiset{};
    assert |multiset(cards)| == |cards|;
  }

  /**
    While the cards in play are those of `cards`, the name counter counts each
    name as `cards` does, and so does the view whenever it shows anything.
   */
  lemma ConservedCounts(t: State, cards: seq<Card>, name: string)
    requires Conserves(t, multiset(cards))
    ensures CountOf(NameCounts(t.deck.value.cards, HandOf(t)), name) == CountName(cards, name)
    ensures FullDecklist(t).Some? ==> CountOf(FullDecklist(t).value, name) == CountName(cards, name)
  {
    Counting.CountWhereAppend(t.deck.value.cards, t.previousHand.cards, (x: Card) => x.name == name);
    Counting.CountWherePermutation(Held(t), cards, (x: Card) => x.name == name);
  }

  /** After a load from an empty hand, the view counts every name as often as the decklist declares it. */
  lemma LoadThenRedrawsCountDecklist(s: State, lines: seq<string>, db: string -> Response,
                                     rolls: seq<int>, redrawRolls: seq<int>,
                                     runs: seq<seq<int>>, t: State, name: string)
    requires LoadRollsFit(s, lines, db, rolls, redrawRolls) && HandOf(s) == []
    requires Build(lines, db).Success? && |Build(lines, db).value| >= HandSize
    requires Redraws(Load(s, lines, db, rolls, redrawRolls), runs, t)
    ensures Valid(t) && t.deck.Some?
    ensures CountOf(NameCounts(t.deck.value.cards, HandOf(t)), name)
         == DeclaredCount(ParseDecklist(lines).value, db, name)
    ensures FullDecklist(t).Some? ==>
              CountOf(FullDecklist(t).value, name) == DeclaredCount(ParseDecklist(lines).value, db, name)
  {
    var cards := Build(lines, db).value;
    LoadConserves(s, lines, db, rolls, redrawRolls);
    RedrawsConserve(Load(s, lines, db, rolls, redrawRolls), multiset(cards), runs, t);
    ConservedCounts(t, cards, name);
    ExpandCountsNames(ParseDecklist(lines).value, db, name);
  }

  /** With the hand aliasing the deck, the view counts every card of the deck twice. */
  lemma AliasedViewCountsTwice(s: State, name: string)
    requires Valid(s) && s.previousHand == SameAsDeck && s.deck.value.cards != []
    ensures CountOf(FullDecklist(s).value, name) == 2 * CountName(s.deck.value.cards, name)
  {
  }

  /** A first load of fewer than seven cards leaves the hand aliasing the deck, holding every card. */
  lemma SmallFirstLoadAliases(lines: seq<string>, db: string -> Response,
                              rolls: seq<int>, redrawRolls: seq<int>)
    requires LoadRollsFit(Start, lines, db, rolls, redrawRolls)
    requires Build(lines, db).Success? && |Build(lines, db).value| < HandSize
    ensures var t := Load(Start, lines, db, rolls, redrawRolls);
            && t.previousHand == SameAsDeck
            && HandOf(t) == t.deck.value.cards
            && multiset(HandOf(t)) == multiset(Build(lines, db).value)
  {
    var d := NewDeck(lines, db).value;
    var loaded := State(Some(Shuffle(d, rolls)), Own([]), lines);
    assert Pile(loaded) == Shuffle(d, rolls).cards;
  }
}
