# MTG deck simulator: card, deck and mulligan logic

A model of the non-graphical core of `deckSim.py`, a Magic: The Gathering
deck simulator. It covers four parts:

- **Cards.** A `Card` stores its type line lower-cased. It is a land when
  that line contains `"land"`. A failed database lookup yields a fallback
  card of type `"Unknown"`.
- **Decks.** A decklist is a sequence of lines `"<count> <name>"`. Each line
  is split at its first space and its count is read with Python's `int()`.
  The line adds `count` looked-up cards in order. Any bad line aborts the
  whole build. The deck keeps a snapshot (`original_deck`), can be shuffled,
  and hands are drawn from its front. A short deck hands back its own list.
- **Shuffling.** `random.shuffle` is modelled as its Fisher–Yates loop. The
  random draws are a parameter.
- **The simulator window's state.** Loading a decklist, the "Shuffle & Draw"
  mulligan step, the land count shown for a hand, and the per-name counts of
  the full-decklist view.

Modules, one file each:

- `Wrappers` holds `Option` and `Result`.
- `Text` holds `lower()` and substring search.
- `Counting` holds generic counting.
- `Cards`, `Decklist`, `Shuffling` and `Decks` cover cards, line parsing,
  the shuffle and the deck.
- `Simulator` holds the window's state machine.

Modelling choices:

- **Card lookup.** The Scryfall lookup is a parameter
  `db: string -> Response`. It answers `Found(name, typeLine?, imageUrl?)`
  or `NotFound`. `Cards.FetchCard` turns the answer into a card the way
  `fetch_card_data` does.
- **Random draws.** A shuffle takes `rolls`, the values the random source
  returns. `Shuffling.ValidRolls` says only that each lies in its range.
- **The aliased hand.** After a short draw, `previous_hand` is the very
  list the deck holds. The state records this as `PreviousHand.SameAsDeck`,
  so the doubling that a later `extend` causes is reproduced rather than
  hidden.

Two behaviours of the code are reproduced as written:

- A short draw returns the deck's own list and removes nothing
  (deckSim.py:81).
- Only a missing deck skips the "Shuffle & Draw" step (deckSim.py:164). A
  `Deck` object is always truthy, so an empty deck still goes through it.

## Model

| member | source | states |
|---|---|---|
| Text.Lower | deckSim.py:20 | the lowered type line has the same length, holds no capital letter, and each character is the original one or its small letter |
| Text.LowerIdempotent | deckSim.py:20 | lowering an already lowered line changes nothing |
| Text.Contains | deckSim.py:29 | `needle in hay` holds exactly when the needle occurs at some position of the haystack |
| Text.ContainsInLowerIgnoresCase | deckSim.py:20-29 | searching the lowered line finds exactly the case-insensitive occurrences in the original line |
| Cards.NewCard | deckSim.py:16-21 | a new card keeps its name and image link, and its type line has the same length, no capital letters, and each character is the given one or its small letter |
| Cards.IsLand | deckSim.py:23-29 | a card is a land iff "land" occurs at some position of its stored type line |
| Cards.NewCardLandIff | deckSim.py:16-29 | a card is a land iff its given type line spells "land" somewhere, in any mix of cases |
| Cards.FallbackCard | deckSim.py:17-21 | the default card keeps the requested name, has no image, has type line "unknown", and is never a land |
| Cards.FetchCard | deckSim.py:59-70 | a failed lookup gives the fallback card for the requested name; a successful one keeps the database name and image, and is a land iff its type line (default "Unknown") contains "land" in any case |
| Cards.Lookup | deckSim.py:54-70 | a name the database does not know resolves to the fallback card for that name; a known one takes the database's name and image link |
| Counting.CountWhere | deckSim.py:185 | a count is at most the length, zero iff no element qualifies, and equal to the length iff all qualify |
| Decklist.SplitFirstSpace | deckSim.py:48 | splitting fails iff the line has no space; otherwise the head has no space and head, space and tail rebuild the line |
| Decklist.SplitJoin | deckSim.py:48 | joining a space-free head and any tail with a space splits back into that head and tail, even when the tail holds spaces |
| Decklist.ParseInt | deckSim.py:49 | a token that `int()` accepts holds a digit, and a token of digits only reads as its decimal value |
| Decklist.IntToString | deckSim.py:189 | `str(n)` is non-empty, has no space, starts with a minus sign exactly when `n` is negative, is digits otherwise, and its first digit is `0` only for zero |
| Decklist.ParseIntRoundTrip | deckSim.py:49 | `int(str(n)) == n` for every integer, negative ones included |
| Decklist.ParseIntNeedsDigit | deckSim.py:49 | a count token without any digit is rejected |
| Decklist.ParseLine | deckSim.py:47-49 | a line fails with its own index; it lacks a space iff the split fails; a bad count is the text before the first space and is not a number; a good line is a number, a space and the name |
| Decklist.ParseLineParts | deckSim.py:48-49 | a line whose first space follows `head` is judged by `int(head)` alone, with everything after that space as the name |
| Decklist.ParseLineSeparatorInCount | deckSim.py:48-49 | a count followed by the separator 0x1C, which `int()` does not skip, makes the line fail |
| Decklist.ParseLineTabInCount | deckSim.py:48-49 | a count followed by a tab, which `int()` skips, still parses |
| Decklist.ParseLineFormatted | deckSim.py:47-49 | a line written as count, space, name parses to exactly that count and name |
| Decklist.ParseDecklist | deckSim.py:47-49 | the decklist parses iff every line parses, giving one entry per line in order; otherwise the error is that of the first bad line |
| Decklist.ParseFromFailure | deckSim.py:47-49 | a failed parse reports a bad line all of whose predecessors parse |
| Decks.Repeat | deckSim.py:50-51 | a line contributes `count` copies of one card, and none when its count is not positive |
| Decks.Expand | deckSim.py:44-52 | the built deck holds as many cards as the positive counts add up to |
| Decks.ExpandAppend | deckSim.py:46-51 | building two runs of lines one after the other gives their decks one after the other |
| Decks.ExpandCountsNames | deckSim.py:44-52 | every name occurs in the built deck as often as the decklist declares cards that resolve to it |
| Decks.AppendCopies | deckSim.py:50-51 | the copy loop appends exactly the line's copies to the cards so far; every copy gets the database's one answer for the name |
| Decks.Build | deckSim.py:44-52 | the build succeeds iff every line parses, fails with the first bad line's error, and otherwise holds as many cards as the positive counts add up to |
| Decks.BuildDeck | deckSim.py:44-52 | the line-by-line build loop yields the parsed-and-expanded deck, or the first bad line's error |
| Decks.NewDeck | deckSim.py:39-42 | a deck is made iff the build succeeds, and its cards and snapshot are both the built cards |
| Decks.Shuffle | deckSim.py:72-74 | shuffling keeps the same cards, each as often as before, and leaves the snapshot alone |
| Shuffling.FisherYates | deckSim.py:74 | a shuffle outcome is as long as its input (its outcomes are exactly the rearrangements: see ShuffleOutcomes) |
| Shuffling.ShuffleInPlace | deckSim.py:74 | the in-place swap loop computes the recursive Fisher–Yates outcome |
| Shuffling.FisherYatesPermutes | deckSim.py:74 | every shuffle outcome is a rearrangement of its input |
| Shuffling.FisherYatesReaches | deckSim.py:74 | every rearrangement is the outcome of some valid draws |
| Shuffling.ShuffleOutcomes | deckSim.py:74 | the possible shuffle outcomes are exactly the rearrangements of the input |
| Decks.DrawHand | deckSim.py:76-82 | with enough cards the hand is the deck's first `hand_size` cards and the deck keeps the rest; otherwise the hand is the deck's own list and the deck is untouched; the snapshot never changes |
| Decks.DrawRemoves | deckSim.py:78-82 | a draw takes `hand_size` cards out of the deck, or none at all |
| Decks.PopFront | deckSim.py:79 | popping the front `hand_size` times gives that many cards, which followed by what remains rebuild the deck |
| Simulator.Redraw | deckSim.py:162-174 | without a deck nothing happens; otherwise the hand goes back, and either a seven-card hand is drawn with the cards in play conserved, or the hand becomes the deck's own list |
| Simulator.RedrawKeepsCards | deckSim.py:169-174 | a mulligan with a hand of its own keeps exactly the same cards in play |
| Simulator.RedrawAliasedDoubles | deckSim.py:169-174 | a mulligan while the hand is the deck's own list doubles every card of the deck |
| Simulator.RedrawConserves | deckSim.py:169-174 | from at least seven cards in play, a mulligan draws a full hand and conserves the cards in play |
| Simulator.RedrawsConserve | deckSim.py:162-174 | any number of mulligans from at least seven cards in play conserves exactly the same cards |
| Simulator.Load | deckSim.py:149-160 | loading remembers the lines; a bad decklist leaves deck and hand as they were; a good one installs a deck whose snapshot is the built cards |
| Simulator.LoadCarriesPreviousHand | deckSim.py:152-174 | after a load the cards in play are the built cards plus the previous hand's cards |
| Simulator.LoadConserves | deckSim.py:152-174 | loading at least seven cards over an empty hand starts conserving exactly the built cards |
| Simulator.SmallFirstLoadAliases | deckSim.py:153-174 | a first load of fewer than seven cards leaves the hand being the deck's own list, holding every built card |
| Simulator.LandCount | deckSim.py:185 | the land count is at most the hand size, and zero iff no card of the hand is a land |
| Simulator.LandCountPermutation | deckSim.py:185 | the land count does not depend on the order of the hand |
| Simulator.FallbackHandHasNoLand | deckSim.py:185 | a hand of fallback cards has no land |
| Simulator.LandLabel | deckSim.py:186-189 | no land shows the fixed message; otherwise the label is the prefix followed by the count's decimal digits, without leading zeros, which read back as the count |
| Simulator.LandLabelInjective | deckSim.py:186-189 | different land counts never show the same label |
| Simulator.NameCounts | deckSim.py:256-263 | the counter holds exactly the names present in deck or hand, each with its deck count plus its hand count |
| Simulator.FullDecklist | deckSim.py:222-263 | the view shows nothing iff there is no deck or the deck is empty; otherwise each name counts its deck and hand cards |
| Simulator.ConservedCounts | deckSim.py:222-263 | while the cards in play are a given list, the name counter counts each name as that list does, and so does the view whenever it shows anything |
| Simulator.LoadThenRedrawsCountDecklist | deckSim.py:222-263 | after a load over an empty hand and any number of mulligans, the name counter counts every name as often as the decklist declares it, and so does the view whenever it shows anything |
| Simulator.AliasedViewCountsTwice | deckSim.py:256-263 | while the hand is the deck's own list, the view counts every card of the deck twice |
| Simulator.FirstNamed | deckSim.py:289 | the view's card for a name is the first card of the deck with that name, and none iff the deck has no such card |

## Left out

- The Tk window is left out: widgets, canvas layout, scrollbars, mouse-wheel bindings, button enabling and the row/column placement in the full-decklist view (deckSim.py:86-132, deckSim.py:225-356). It is user interface with no logic to verify.
- The file dialog, file reading and line stripping in `load_deck` (deckSim.py:136-150) are I/O. The model takes the already stripped, non-empty lines.
- The HTTP request, JSON field extraction and warning print of `fetch_card_data` (deckSim.py:56-60, deckSim.py:69) are network I/O and output. They are replaced by the `db` parameter.
- Image download, decoding, resizing and `PhotoImage` references (deckSim.py:193-217, deckSim.py:291-335) are I/O and a foreign library.
- The randomness of `random.shuffle` is left out. Only the range of each draw is modelled, not the uniform distribution.
- `Card.__repr__` (deckSim.py:31-32) is display only.
- Counter iteration order in the full-decklist view is left out. Only the counts and the card chosen for each name are modelled.
- Text.Lower: lowers ASCII capital letters only. Python's `str.lower()` also lowers non-ASCII letters, and some of them change length. No such letter can make "land" appear or disappear, so the land test is unaffected.
- Decklist.ParseInt: skips only the ASCII white space `int()` skips (tab, line feed, vertical tab, form feed, carriage return, space) and reads ASCII digits only. Python's `int()` also skips Unicode white space such as U+00A0 and U+3000, reads other Unicode decimal digits, and rejects strings of more than 4300 digits; none of these is modelled.
- Cards.Lookup: the database is a function of the name, so every copy of a name gets the same answer. The program sends one request per copy (deckSim.py:50-51, deckSim.py:57), so a single failed reply can give that copy alone the fallback card; `Decks.ExpandCountsNames` relies on the answers agreeing.
- Cards.FetchCard: a lookup never raises. In the program, a network error from the request (deckSim.py:57), a reply that is not JSON (deckSim.py:60), a reply lacking `name` (deckSim.py:62), or one whose `image_uris` lacks `normal` (deckSim.py:65) raises, and the whole load aborts; `Decks.Build` cannot report that outcome.
- Exceptions are not modelled as exceptions. A failed build stops the load after the lines were remembered, as an uncaught exception in the button callback does. The model returns the state with only the remembered lines changed.
- Object identity is modelled only for the hand sharing the deck's list. No other list in the program is shared.
