/**
  One physical card, its land test, and the card-database lookup that
  produces it (with the fallback card used when the lookup fails).
 */
module Cards {
  import opened Wrappers
  import Text

  /** A card: its name, its type line (kept lower-cased) and an optional image link. */
  datatype Card = Card(name: string, typeLine: string, imageUrl: Option<string>)

  /** Type line given to a card when none is known; stored as "unknown". */
  const DefaultTypeLine: string := "Unknown"

  /** The text whose presence in a type line makes a card a land. */
  const LandMarker: string := "land"

  /** The card constructor: it keeps the name and link and lowers the type line. */
  function NewCard(name: string, typeLine: string, imageUrl: Option<string>): (c: Card)
    ensures c.name == name && c.imageUrl == imageUrl
    ensures |c.typeLine| == |typeLine|
    ensures forall i :: 0 <= i < |typeLine| ==> !Text.IsUpper(c.typeLine[i]) && Text.LowerOf(typeLine[i], c.typeLine[i])
  {
    Card(name, Text.Lower(typeLine), imageUrl)
  }

  /** A land is a card whose (lowered) type line contains "land" anywhere, even inside a longer word. */
  predicate IsLand(c: Card): (b: bool)
    ensures b <==> exists i :: Text.OccursAt(LandMarker, c.typeLine, i)
  {
    Text.Contains(LandMarker, c.typeLine)
  }

  /**
    A freshly built card is a land exactly when four consecutive characters
    of the type line it was given spell "land" in some mix of cases.
   */
  lemma NewCardLandIff(name: string, typeLine: string, imageUrl: Option<string>)
    ensures IsLand(NewCard(name, typeLine, imageUrl))
        <==> exists i :: Text.OccursAtIgnoringCase(LandMarker, typeLine, i)
  {
    Text.ContainsInLowerIgnoresCase(LandMarker, typeLine);
  }

  /** The card used when the database lookup fails: only the requested name, default type, no image. */
  function FallbackCard(name: string): (c: Card)
    ensures c.name == name && c.imageUrl == None
    ensures c.typeLine == "unknown"
    ensures !IsLand(c)
  {
    var c := NewCard(name, DefaultTypeLine, None);
    assert c.typeLine == "unknown";
    // "unknown" has no 'l', so no occurrence of "land" can start anywhere in it.
    assert forall i :: 0 <= i < |c.typeLine| ==> c.typeLine[i] != LandMarker[0];
    assert forall i :: Text.OccursAt(LandMarker, c.typeLine, i) ==> c.typeLine[i] == LandMarker[0];
    c
  }

  /**
    What the card database answers for one exact-name query: the canonical
    name with the type line and image link when it has them, or a failure.
   */
  datatype Response =
    | Found(name: string, typeLine: Option<string>, imageUrl: Option<string>)
    | NotFound

  /** Turns a database answer for `requested` into a card. */
  function FetchCard(requested: string, response: Response): (c: Card)
    ensures response.NotFound? ==> c.name == requested && c.imageUrl == None && !IsLand(c)
    ensures response.Found? ==> c.name == response.name && c.imageUrl == response.imageUrl
    ensures response.Found? ==>
              (IsLand(c) <==> exists i :: Text.OccursAtIgnoringCase(LandMarker, response.typeLine.GetOr(DefaultTypeLine), i))
  {
    match response
    case Found(name, typeLine, url) =>
      NewCardLandIff(name, typeLine.GetOr(DefaultTypeLine), url);
      NewCard(name, typeLine.GetOr(DefaultTypeLine), url)
    case NotFound => FallbackCard(requested)
  }

  /**
    The card a decklist name resolves to, given the database's answer
    `db(name)`: every query for the same name gets the same answer.
   */
  function Lookup(db: string -> Response, name: string): (c: Card)
    ensures db(name).NotFound? ==> c == FallbackCard(name)
    ensures db(name).Found? ==> c.name == db(name).name && c.imageUrl == db(name).imageUrl
  {
    FetchCard(name, db(name))
  }
}
