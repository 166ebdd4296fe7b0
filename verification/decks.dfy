/**
  The deck: built from a parsed decklist by looking every copy up in the
  card database, shuffled in place, and drawn from the front.
 */
module Decks {
  import opened Wrappers
  import opened Cards
  import opened Decklist
  import Counting
  import Shuffling

  /** The cards still in the deck, and the snapshot taken when it was built. */
  datatype Deck = Deck(cards: seq<Card>, original: seq<Card>)

  /** How many times `range(count)` runs: `count`, or none at all when it is not positive. */
  function Copies(count: int): nat {
    if count <= 0 then 0 else count
  }

  /** `count` copies of `c`, as many as the decklist line asks for. */
  function Repeat(c: Card, count: int): (r: seq<Card>)
    ensures |r| == Copies(count)
    ensures forall k :: 0 <= k < |r| ==> r[k] == c
    decreases Copies(count)
  {
    if count <= 0 then [] else Repeat(c, count - 1) + [c]
  }

  /** The sum of the declared counts, non-positive ones counting as zero. */
  function TotalCount(entries: seq<Entry>): nat
    decreases |entries|
  {
    if entries == [] then 0
    else TotalCount(entries[..|entries| - 1]) + Copies(entries[|entries| - 1].count)
  }

  /**
    The cards a parsed decklist stands for: each line's copies of its
    looked-up card, in line order. There are as many as the positive
    counts add up to.
   */
  function Expand(entries: seq<Entry>, db: string -> Response): (r: seq<Card>)
    ensures |r| == TotalCount(entries)
    decreases |entries|
  {
    if entries == [] then []
    else
      var last := entries[|entries| - 1];
      Expand(entries[..|entries| - 1], db) + Repeat(Lookup(db, last.name), last.count)
  }

  /** How many copies the decklist declares of cards whose looked-up name is `name`. */
  function DeclaredCount(entries: seq<Entry>, db: string -> Response, name: string): nat
    decreases |entries|
  {
    if entries == [] then 0
    else
      var last := entries[|entries| - 1];
      DeclaredCount(entries[..|entries| - 1], db, name)
        + (if Lookup(db, last.name).name == name then Copies(last.count) else 0)
  }

  /** Number of cards called `name`: what a counter of the cards' names holds for it. */
  function CountName(cards: seq<Card>, name: string): nat {
    Counting.CountWhere(cards, (c: Card) => c.name == name)
  }

  /** Expanding two runs of lines one after the other gives their decks one after the other. */
  lemma {:induction false} ExpandAppend(a: seq<Entry>, b: seq<Entry>, db: string -> Response)
    ensures Expand(a + b, db) == Expand(a, db) + Expand(b, db)
    decreases |b|
  {
    if b == [] {
      assert a + b == a;
    } else {
      assert (a + b)[..|a + b| - 1] == a + b[..|b| - 1];
      ExpandAppend(a, b[..|b| - 1], db);
    }
  }

  /** Copies of one card count towards its own name only. */
  lemma {:induction false} CountNameRepeat(c: Card, count: int, name: string)
    ensures CountName(Repeat(c, count), name) == if c.name == name then Copies(count) else 0
    decreases Copies(count)
  {
    if count > 0 {
      Counting.CountWhereAppend(Repeat(c, count - 1), [c], (x: Card) => x.name == name);
      CountNameRepeat(c, count - 1, name);
    }
  }

  /** Every name occurs in the built deck exactly as often as the decklist declares it. */
  lemma {:induction false} ExpandCountsNames(entries: seq<Entry>, db: string -> Response, name: string)
    ensures CountName(Expand(entries, db), name) == DeclaredCount(entries, db, name)
    decreases |entries|
  {
    if entries != [] {
      var init, last := entries[..|entries| - 1], entries[|entries| - 1];
      Counting.CountWhereAppend(Expand(init, db), Repeat(Lookup(db, last.name), last.count),
                                (x: Card) => x.name == name);
      CountNameRepeat(Lookup(db, last.name), last.count, name);
      ExpandCountsNames(init, db, name);
    }
  }

  /**
    The deck a decklist builds: parse every line, then expand. It succeeds
    exactly when every line parses, and the first bad line's error aborts it.
   */
  function Build(lines: seq<string>, db: string -> Response): (r: Result<seq<Card>, ParseError>)
    ensures r.Success? <==> forall j :: 0 <= j < |lines| ==> ParseLine(lines[j], j).Success?
    ensures r.Failure? ==> r.error == ParseDecklist(lines).error
    ensures r.Success? ==> |r.value| == TotalCount(ParseDecklist(lines).value)
  {
    match ParseDecklist(lines)
    case Failure(e) => Failure(e)
    case Success(entries) => Success(Expand(entries, db))
  }

  /** Appending one parsed line appends that line's copies to the deck. */
  lemma ExpandSnoc(entries: seq<Entry>, e: Entry, db: string -> Response)
    ensures Expand(entries + [e], db) == Expand(entries, db) + Repeat(Lookup(db, e.name), e.count)
  {
    assert (entries + [e])[..|entries|] == entries;
  }

  /** One more copy appended after `i` copies makes `i + 1` copies. */
  lemma RepeatSnoc(cards: seq<Card>, c: Card, i: nat)
    ensures cards + Repeat(c, i) + [c] == cards + Repeat(c, i + 1)
  {
    assert Repeat(c, i + 1) == Repeat(c, i) + [c];
  }

  /**
    The inner copy loop of the build: one lookup per copy, each appended
    in turn. The database answers every copy of a name alike.
   */
  method AppendCopies(cards: seq<Card>, db: string -> Response, name: string, count: int)
    returns (r: seq<Card>)
    ensures r == cards + Repeat(Lookup(db, name), count)
  {
    r := cards;
    var i := 0;
    while i < count
      invariant 0 <= i <= Copies(count)
      invariant r == cards + Repeat(Lookup(db, name), i)
    {
      var card := Lookup(db, name);
      RepeatSnoc(cards, card, i);
      r := r + [card];
      i := i + 1;
    }
  }

  /**
    `build_deck` as written: for each line in order, split and parse it,
    then append one looked-up card per copy; a bad line raises and nothing
    is returned. It agrees with `Build`.
   */
  method BuildDeck(lines: seq<string>, db: string -> Response) returns (r: Result<seq<Card>, ParseError>)
    ensures r == Build(lines, db)
  {
    var cards: seq<Card> := [];
    ghost var entries: seq<Entry> := [];
    for k := 0 to |lines|
      invariant |entries| == k
      invariant forall j :: 0 <= j < k ==> ParseLine(lines[j], j) == Success(entries[j])
      invariant cards == Expand(entries, db)
    {
      var line := ParseLine(lines[k], k);
      if line.Failure? {
        ParsedUpTo(lines, k);
        return Failure(line.error);
      }
      cards := AppendCopies(cards, db, line.value.name, line.value.count);
      ExpandSnoc(entries, line.value, db);
      ParsedNext(lines, entries, line.value);
      entries := entries + [line.value];
    }
    ParsedAll(lines, entries);
    return Success(cards);
  }

  /** One more line parsed extends the entries parsed so far. */
  lemma ParsedNext(lines: seq<string>, entries: seq<Entry>, e: Entry)
    requires |entries| < |lines|
    requires forall j :: 0 <= j < |entries| ==> ParseLine(lines[j], j) == Success(entries[j])
    requires ParseLine(lines[|entries|], |entries|) == Success(e)
    ensures forall j :: 0 <= j < |entries| + 1 ==> ParseLine(lines[j], j) == Success((entries + [e])[j])
  {
  }

  /** A decklist whose lines all parse yields exactly those entries. */
  lemma ParsedAll(lines: seq<string>, entries: seq<Entry>)
    requires |entries| == |lines|
    requires forall j :: 0 <= j < |lines| ==> ParseLine(lines[j], j) == Success(entries[j])
    ensures ParseDecklist(lines) == Success(entries)
  {
    var r := ParseDecklist(lines);
    assert r.Success?;
    forall j | 0 <= j < |lines|
      ensures r.value[j] == entries[j]
    {
      assert ParseLine(lines[j], j) == Success(r.value[j]);
    }
    assert |r.value| == |entries|;
    assert r.value == entries;
  }

  /** A decklist fails with the error of its first bad line. */
  lemma ParsedUpTo(lines: seq<string>, k: nat)
    requires k < |lines|
    requires forall j :: 0 <= j < k ==> ParseLine(lines[j], j).Success?
    requires ParseLine(lines[k], k).Failure?
    ensures ParseDecklist(lines) == Failure(ParseLine(lines[k], k).error)
  {
    var r := ParseDecklist(lines);
    assert r.Failure?;
    var j :| 0 <= j < |lines| && ParseLine(lines[j], j) == Failure(r.error)
             && forall i :: 0 <= i < j ==> ParseLine(lines[i], i).Success?;
    assert j == k;
  }

  /** `Deck(decklist)`: builds the cards and snapshots them as the original list. */
  function NewDeck(lines: seq<string>, db: string -> Response): (r: Result<Deck, ParseError>)
    ensures r.Success? <==> Build(lines, db).Success?
    ensures r.Success? ==> r.value.cards == r.value.original == Build(lines, db).value
  {
    match Build(lines, db)
    case Failure(e) => Failure(e)
    case Success(cards) => Success(Deck(cards, cards))
  }

  /** `Deck.shuffle`: the cards are reordered by the shuffle loop; the snapshot is untouched. */
  function Shuffle(d: Deck, rolls: seq<int>): (r: Deck)
    requires Shuffling.ValidRolls(|d.cards|, rolls)
    ensures r.original == d.original
    ensures multiset(r.cards) == multiset(d.cards)
  {
    Shuffling.FisherYatesPermutes(d.cards, rolls);
    d.(cards := Shuffling.FisherYates(d.cards, rolls))
  }

  /**
    What `Deck.draw_hand` returns: a new list of the cards popped off the
    front, or, when too few cards remain, the deck's own card list.
   */
  datatype Hand = Popped(cards: seq<Card>) | DeckList

  /** A hand together with the deck it was drawn from. */
  datatype Drawn = Drawn(hand: Hand, deck: Deck) {
    /** The cards the returned hand list holds; for `DeckList` that is the deck's own list. */
    function HandCards(): seq<Card> {
      match hand
      case Popped(cards) => cards
      case DeckList => deck.cards
    }
  }

  /**
    `Deck.draw_hand(hand_size)`: with at least `hand_size` cards left, pop
    that many off the front in order; otherwise hand back the deck list
    itself and remove nothing.
   */
  function DrawHand(d: Deck, handSize: int): (r: Drawn)
    ensures r.deck.original == d.original
    ensures |d.cards| >= handSize ==>
              && r.hand.Popped?
              && |r.HandCards()| == Copies(handSize)
              && r.HandCards() + r.deck.cards == d.cards
    ensures |d.cards| < handSize ==> r.hand == DeckList && r.deck == d && r.HandCards() == d.cards
  {
    if |d.cards| >= handSize then
      var n := Copies(handSize);
      assert d.cards[..n] + d.cards[n..] == d.cards;
      Drawn(Popped(d.cards[..n]), d.(cards := d.cards[n..]))
    else Drawn(DeckList, d)
  }

  /** The number of cards a draw takes out of the deck: all `hand_size` of them, or none. */
  lemma DrawRemoves(d: Deck, handSize: int)
    ensures |DrawHand(d, handSize).deck.cards|
         == |d.cards| - (if |d.cards| >= handSize then Copies(handSize) else 0)
  {
  }

  /**
    The pop loop of a full draw: it takes the front card off the deck
    `hand_size` times. The hand is the deck's first cards in order, and the
    rest is what follows them.
   */
  method PopFront(cards: seq<Card>, handSize: int) returns (hand: seq<Card>, rest: seq<Card>)
    requires |cards| >= handSize
    ensures |hand| == Copies(handSize)
    ensures hand + rest == cards
  {
    hand, rest := [], cards;
    var i := 0;
    while i < handSize
      invariant 0 <= i <= Copies(handSize)
      invariant |hand| == i
      invariant hand + rest == cards
    {
      assert rest == [rest[0]] + rest[1..];
      hand, rest := hand + [rest[0]], rest[1..];
      i := i + 1;
    }
  }
}
