/**
 * The plain records of the board (resources/js/Card.js). A card carries its
 * identity, its text and the name of the list (stage) it is in; a card event
 * is an `Event` whose payload is a card. Both constructors store their
 * arguments unchanged, which the datatype constructors give by construction.
 */
module Cards {
  import opened Observable

  datatype Card = Card(id: int, text: string, list: string)

  /** `CardEvent`: an event whose type tag comes from the base `Event`, carrying a card. */
  type CardEvent = Event<Card>
}
