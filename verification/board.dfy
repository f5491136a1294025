/**
 * The board (resources/js/Board.js): the card store keyed by id, the fixed
 * ordered list of stages, and the operations that create a card, replace its
 * text and move it one stage left or right, each publishing a typed event
 * after a successful change.
 *
 * The source keeps the store in a module-level map shared by every board
 * object and exports one board; here that state is the explicit value
 * `BoardState`, whose registry is the board's inherited listener registry.
 */
module Board {
  import opened Wrappers
  import opened Observable
  import opened Cards

  /** The stages, in the order moves walk through them. */
  const ListNames: seq<string> := ["open", "processing", "closed"]
  const DefaultCardText: string := "New Task"
  const DefaultList: string := ListNames[0]

  /** The event types the board publishes. */
  const CardCreated: string := "cardCreated"
  const CardUpdated: string := "cardUpdated"
  const CardMoved: string := "cardMoved"

  datatype BoardState = BoardState(cards: map<int, Card>, registry: Registry)

  /**
   * What the store looks like after any sequence of board operations: ids are
   * exactly 1..n for n cards, each card is stored under its own id, and each
   * card sits in one of the stages.
   */
  ghost predicate Valid(cards: map<int, Card>)
  {
    && (forall k :: k in cards <==> 1 <= k <= |cards|)
    && (forall k :: k in cards ==> cards[k].id == k && cards[k].list in ListNames)
  }

  /** `after` differs from `before` at most in the card stored under `id`. */
  ghost predicate OnlyTarget(before: map<int, Card>, after: map<int, Card>, id: int)
  {
    && (forall k :: k in after <==> k in before)
    && (forall k :: k in before && k != id ==> after[k] == before[k])
  }

  /** The exported board before any call: no cards, no listeners. */
  function Initial(): (b: BoardState)
    ensures Valid(b.cards) && |b.cards| == 0
    ensures forall kind :: Listeners(b.registry, kind) == []
  {
    BoardState(map[], New())
  }

  /** What an inner helper returns: the new store and the card it touched, or `null`. */
  datatype Mutation = Mutation(cards: map<int, Card>, card: Option<Card>)

  /** Array `indexOf`: the first position of `x` in `s`, `None` for -1. */
  function IndexOf<T(==)>(s: seq<T>, x: T): (r: Option<nat>)
    ensures r.Some? <==> x in s
    ensures r.Some? ==> r.value < |s| && s[r.value] == x && x !in s[..r.value]
  {
    if s == [] then None
    else if s[0] == x then Some(0)
    else match IndexOf(s[1..], x)
      case None => None
      case Some(i) =>
        assert s[..i + 1] == [s[0]] + s[1..][..i];
        Some(i + 1)
  }

  /**
   * `getListsPosition`: the position of a list name among the stages, or
   * `undefined` for a name that is not a stage.
   */
  function GetListsPosition(listName: string): (p: Option<nat>)
    ensures p.Some? <==> listName in ListNames
    ensures p.Some? ==> p.value < |ListNames| && ListNames[p.value] == listName
  {
    IndexOf(ListNames, listName)
  }

  /** `createCardID`: one more than the number of stored cards. */
  function CreateCardID(cards: map<int, Card>): (id: int)
    ensures id >= 1
    ensures Valid(cards) ==> id !in cards && forall k :: k in cards ==> k < id
  {
    |cards| + 1
  }

  /**
   * `createNewCard`: stores a card with the next id, the default text and the
   * first stage, adding one entry and keeping every stored card.
   */
  function CreateNewCard(cards: map<int, Card>): (m: Mutation)
    ensures m.card.Some?
    ensures m.card.value.id == |cards| + 1
    ensures m.card.value.text == DefaultCardText && m.card.value.list == ListNames[0]
    ensures m.card.value.id in m.cards && m.cards[m.card.value.id] == m.card.value
    ensures forall k :: k in cards && k != m.card.value.id ==> k in m.cards && m.cards[k] == cards[k]
    ensures forall k :: k in m.cards <==> k in cards || k == m.card.value.id
  {
    var card := Card(CreateCardID(cards), DefaultCardText, DefaultList);
    Mutation(cards[card.id := card], Some(card))
  }

  /** Storing a card in the first stage under the next id keeps a valid store valid. */
  lemma InsertNextKeepsValid(cards: map<int, Card>, card: Card)
    requires card.id == |cards| + 1 && card.list in ListNames
    ensures Valid(cards) ==> card.id !in cards
    ensures Valid(cards) ==> |cards[card.id := card]| == |cards| + 1
    ensures Valid(cards) ==> Valid(cards[card.id := card])
  {
    if !Valid(cards) { return; }
    var cards' := cards[card.id := card];
    assert cards'.Keys == cards.Keys + {card.id};
    assert |cards'| == |cards| + 1;
    forall k
      ensures k in cards' <==> 1 <= k <= |cards'|
    {
      if k == card.id {
      } else {
        assert k in cards' <==> k in cards;
      }
    }
  }

  /**
   * `updateCardWithID`: replaces the text of the card stored under `id` and
   * returns it; for an absent id nothing changes and the result is `null`.
   */
  function UpdateCardWithID(cards: map<int, Card>, id: int, newText: string): (m: Mutation)
    ensures m.card.Some? <==> id in cards
    ensures OnlyTarget(cards, m.cards, id)
    ensures id !in cards ==> m.cards == cards
    ensures id in cards ==>
      && m.cards[id].text == newText
      && m.cards[id].id == cards[id].id
      && m.cards[id].list == cards[id].list
      && m.card == Some(m.cards[id])
    ensures Valid(cards) ==> Valid(m.cards)
  {
    if id in cards then
      var card := cards[id].(text := newText);
      Mutation(cards[id := card], Some(card))
    else
      Mutation(cards, None)
  }

  /**
   * `moveCardInDirection`: moves the card stored under `id` to the stage
   * `shift` positions away when that position exists, and returns it;
   * otherwise nothing changes and the result is `null`. The source reads the
   * card's list without checking that the card exists, so an absent id throws.
   */
  function MoveCardInDirection(cards: map<int, Card>, id: int, shift: int): (m: Mutation)
    requires id in cards
    ensures var p := GetListsPosition(cards[id].list);
      m.card.Some? <==> p.Some? && 0 <= p.value + shift < |ListNames|
    ensures OnlyTarget(cards, m.cards, id)
    ensures m.card.None? ==> m.cards == cards
    ensures m.card.Some? ==>
      && m.cards[id].list == ListNames[GetListsPosition(cards[id].list).value + shift]
      && m.cards[id].id == cards[id].id
      && m.cards[id].text == cards[id].text
      && m.card == Some(m.cards[id])
    ensures Valid(cards) ==> Valid(m.cards)
  {
    var card := cards[id];
    match GetListsPosition(card.list)
    case None => Mutation(cards, None)
    case Some(pos) =>
      if 0 <= pos + shift < |ListNames| then
        var moved := card.(list := ListNames[pos + shift]);
        Mutation(cards[id := moved], Some(moved))
      else
        Mutation(cards, None)
  }

  /**
   * The outcome of one board method: the new state, the event it published
   * (if any) and the callback calls that publication made.
   */
  datatype Step = Step(board: BoardState, published: Option<CardEvent>, calls: seq<Invocation<Card>>)

  /** Each board method's tail: notify listeners of `kind` when the helper returned a card. */
  function PublishIfPresent(b: BoardState, m: Mutation, kind: string): Step
  {
    match m.card
    case None => Step(b.(cards := m.cards), None, [])
    case Some(card) =>
      var e := Event(kind, card);
      Step(b.(cards := m.cards), Some(e), NotifyAll(b.registry, e))
  }

  /**
   * `createCard`: always stores one new card (next id, default text, first
   * stage) and publishes exactly one "cardCreated" event carrying it.
   */
  function CreateCard(b: BoardState): (s: Step)
    ensures s.board.registry == b.registry
    ensures s.published.Some? && s.published.value.kind == CardCreated
    ensures s.published.value.payload == Card(|b.cards| + 1, DefaultCardText, ListNames[0])
    ensures |b.cards| + 1 in s.board.cards && s.board.cards[|b.cards| + 1] == s.published.value.payload
    ensures forall k :: k in b.cards && k != |b.cards| + 1 ==> k in s.board.cards && s.board.cards[k] == b.cards[k]
    ensures s.calls == NotifyAll(b.registry, s.published.value)
  {
    PublishIfPresent(b, CreateNewCard(b.cards), CardCreated)
  }

  /**
   * On a valid store, the new id is fresh and greater than every stored id,
   * the store grows by exactly one card and stays valid.
   */
  lemma CreateCardKeepsValid(b: BoardState)
    requires Valid(b.cards)
    ensures var s := CreateCard(b);
      && (forall k :: k in b.cards ==> k < s.published.value.payload.id)
      && |s.board.cards| == |b.cards| + 1
      && Valid(s.board.cards)
  {
    InsertNextKeepsValid(b.cards, Card(|b.cards| + 1, DefaultCardText, DefaultList));
  }

  /**
   * `createCard` on a board whose observable fields are as the constructor as
   * written leaves them: the card is stored before `notifyAll` runs, so when
   * `notifyAll` throws (`calls` is `None`) the store already holds the card.
   */
  datatype StepAsWritten = StepAsWritten(cards: map<int, Card>, calls: Option<seq<Invocation<Card>>>)

  function CreateCardAsWritten(cards: map<int, Card>, o: FieldsAsWritten): (s: StepAsWritten)
    ensures s.calls.None? <==> o.listeners.None?
    ensures |cards| + 1 in s.cards && s.cards[|cards| + 1] == Card(|cards| + 1, DefaultCardText, DefaultList)
    ensures forall k :: k in cards && k != |cards| + 1 ==> k in s.cards && s.cards[k] == cards[k]
    ensures s.calls.Some? ==>
      s.calls.value == NotifyAll(Registry(o.listeners.value), Event(CardCreated, s.cards[|cards| + 1]))
  {
    var m := CreateNewCard(cards);
    StepAsWritten(m.cards, NotifyAllAsWritten(o, Event(CardCreated, m.card.value)))
  }

  /**
   * On the exported board as written, `createCard` stores the card with the
   * next id and then throws inside `notifyAll`.
   */
  lemma AsWrittenCreateCardStoresThenThrows(cards: map<int, Card>)
    ensures var s := CreateCardAsWritten(cards, ConstructAsWritten());
      && s.calls.None?
      && |cards| + 1 in s.cards
      && s.cards[|cards| + 1] == Card(|cards| + 1, DefaultCardText, DefaultList)
  {
  }

  /**
   * With `listeners` initialised to `m`, the as-written `createCard` stores
   * the same cards and makes the same calls as `CreateCard` on the registry `m`.
   */
  lemma AsWrittenCreateCardAgrees(cards: map<int, Card>, listener: Option<map<string, seq<HandlerId>>>, m: map<string, seq<HandlerId>>)
    ensures var s := CreateCardAsWritten(cards, FieldsAsWritten(listener, Some(m)));
      var t := CreateCard(BoardState(cards, Registry(m)));
      s.cards == t.board.cards && s.calls == Some(t.calls)
  {
  }

  /**
   * `updateCard(id, text)`: on a stored id, replaces only that card's text and
   * publishes exactly one "cardUpdated" event carrying the updated card; on an
   * absent id nothing changes and nothing is published.
   */
  function UpdateCard(b: BoardState, id: int, text: string): (s: Step)
    ensures s.board.registry == b.registry
    ensures s.published.Some? <==> id in b.cards
    ensures id !in b.cards ==> s.board == b && s.calls == []
    ensures id in b.cards ==>
      && OnlyTarget(b.cards, s.board.cards, id)
      && s.board.cards[id] == Card(b.cards[id].id, text, b.cards[id].list)
      && s.published == Some(Event(CardUpdated, s.board.cards[id]))
      && s.calls == NotifyAll(b.registry, s.published.value)
    ensures Valid(b.cards) ==> Valid(s.board.cards)
  {
    PublishIfPresent(b, UpdateCardWithID(b.cards, id, text), CardUpdated)
  }

  /**
   * `moveCardToLeft(id)`: a card in a stage after the first moves to the
   * previous stage and one "cardMoved" event carrying it is published; a card
   * in the first stage stays and nothing is published.
   */
  function MoveCardToLeft(b: BoardState, id: int): (s: Step)
    requires id in b.cards
    ensures s.board.registry == b.registry
    ensures var p := GetListsPosition(b.cards[id].list);
      s.published.Some? <==> p.Some? && p.value >= 1
    ensures s.published.None? ==> s.board == b && s.calls == []
    ensures s.published.Some? ==>
      && OnlyTarget(b.cards, s.board.cards, id)
      && GetListsPosition(s.board.cards[id].list).Some?
      && GetListsPosition(s.board.cards[id].list).value + 1 == GetListsPosition(b.cards[id].list).value
      && s.board.cards[id] == b.cards[id].(list := s.board.cards[id].list)
      && s.published == Some(Event(CardMoved, s.board.cards[id]))
      && s.calls == NotifyAll(b.registry, s.published.value)
    ensures Valid(b.cards) ==> Valid(s.board.cards)
  {
    PublishIfPresent(b, MoveCardInDirection(b.cards, id, -1), CardMoved)
  }

  /**
   * `moveCardToRight(id)`: a card in a stage before the last moves to the
   * next stage and one "cardMoved" event carrying it is published; a card in
   * the last stage stays and nothing is published.
   */
  function MoveCardToRight(b: BoardState, id: int): (s: Step)
    requires id in b.cards
    ensures s.board.registry == b.registry
    ensures var p := GetListsPosition(b.cards[id].list);
      s.published.Some? <==> p.Some? && p.value + 1 < |ListNames|
    ensures s.published.None? ==> s.board == b && s.calls == []
    ensures s.published.Some? ==>
      && OnlyTarget(b.cards, s.board.cards, id)
      && GetListsPosition(s.board.cards[id].list).Some?
      && GetListsPosition(s.board.cards[id].list).value == GetListsPosition(b.cards[id].list).value + 1
      && s.board.cards[id] == b.cards[id].(list := s.board.cards[id].list)
      && s.published == Some(Event(CardMoved, s.board.cards[id]))
      && s.calls == NotifyAll(b.registry, s.published.value)
    ensures Valid(b.cards) ==> Valid(s.board.cards)
  {
    PublishIfPresent(b, MoveCardInDirection(b.cards, id, 1), CardMoved)
  }
}
