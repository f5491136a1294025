/**
 * Sequences of calls on the exported board: the operations a controller can
 * invoke, applied one after another from the board as it is exported, and
 * the facts that hold of every such run.
 */
module BoardSession {
  import opened Wrappers
  import opened Observable
  import opened Cards
  import opened Board

  /** One call on the board: registering a listener (inherited) or a board method. */
  datatype Op =
    | Subscribe(kind: string, handler: HandlerId)
    | Create
    | UpdateText(id: int, text: string)
    | MoveLeft(id: int)
    | MoveRight(id: int)

  /** The board after a run, the events it published and the callback calls made, in order. */
  datatype Session = Session(board: BoardState, events: seq<CardEvent>, calls: seq<Invocation<Card>>)

  /**
   * One call. A move naming an absent id throws in the source, which ends the
   * run; that is `None`.
   */
  function Apply(b: BoardState, op: Op): (r: Option<Step>)
    ensures r.None? <==> (op.MoveLeft? || op.MoveRight?) && op.id !in b.cards
    ensures r.Some? && !op.Subscribe? ==> r.value.board.registry == b.registry
    ensures r.Some? && op.Subscribe? ==> r.value.board.cards == b.cards && r.value.published.None?
  {
    match op
    case Subscribe(kind, h) => Some(Step(b.(registry := AddEventListener(b.registry, kind, h)), None, []))
    case Create => Some(CreateCard(b))
    case UpdateText(id, text) => Some(UpdateCard(b, id, text))
    case MoveLeft(id) => if id in b.cards then Some(MoveCardToLeft(b, id)) else None
    case MoveRight(id) => if id in b.cards then Some(MoveCardToRight(b, id)) else None
  }

  /** The calls of `ops`, in order, starting from `b`; `None` if one of them throws. */
  function Run(b: BoardState, ops: seq<Op>): Option<Session>
    decreases |ops|
  {
    if ops == [] then Some(Session(b, [], []))
    else match Apply(b, ops[0])
      case None => None
      case Some(s) =>
        match Run(s.board, ops[1..])
        case None => None
        case Some(rest) => Some(Session(rest.board, ToSeq(s.published) + rest.events, s.calls + rest.calls))
  }

  /** A run starting with `createCard` continues from the board that call leaves. */
  lemma RunCreateFirst(b: BoardState, ops: seq<Op>)
    requires ops != [] && ops[0] == Create
    ensures Run(b, ops).Some? <==> Run(CreateCard(b).board, ops[1..]).Some?
    ensures Run(b, ops).Some? ==>
      && Run(b, ops).value.board == Run(CreateCard(b).board, ops[1..]).value.board
      && Run(b, ops).value.events == [CreateCard(b).published.value] + Run(CreateCard(b).board, ops[1..]).value.events
      && Run(b, ops).value.calls == CreateCard(b).calls + Run(CreateCard(b).board, ops[1..]).value.calls
  {
    assert Apply(b, ops[0]) == Some(CreateCard(b));
  }

  /** `n` calls of `createCard`. */
  function Creates(n: nat): (ops: seq<Op>)
    ensures |ops| == n
    ensures forall i :: 0 <= i < n ==> ops[i] == Create
  {
    if n == 0 then [] else [Create] + Creates(n - 1)
  }

  /**
   * Cards are never deleted and keep their ids: every card stored in `before`
   * is still stored in `after` under the same key with the same id, and the
   * store has not shrunk.
   */
  ghost predicate KeepsCards(before: map<int, Card>, after: map<int, Card>)
  {
    && |after| >= |before|
    && forall k :: k in before ==> k in after && after[k].id == before[k].id
  }

  /** One call on a valid store keeps every stored card and its id. */
  lemma ApplyKeepsCards(b: BoardState, op: Op)
    requires Valid(b.cards)
    ensures Apply(b, op).Some? ==> KeepsCards(b.cards, Apply(b, op).value.board.cards)
  {
    var r := Apply(b, op);
    if r.Some? {
      var after := r.value.board.cards;
      match op
      case Create =>
        CreateCardKeepsValid(b);
      case Subscribe(_, _) =>
      case UpdateText(id, _) =>
        assert after.Keys == b.cards.Keys;
      case MoveLeft(id) =>
        assert after.Keys == b.cards.Keys;
      case MoveRight(id) =>
        assert after.Keys == b.cards.Keys;
    }
  }

  /**
   * The store invariant holds after every run: ids are exactly 1..n, each card
   * keeps the id it was created with, no card is deleted, and every card's
   * list is a stage.
   */
  lemma {:induction false} RunPreservesValid(b: BoardState, ops: seq<Op>)
    requires Valid(b.cards)
    ensures Run(b, ops).Some? ==> Valid(Run(b, ops).value.board.cards)
    ensures Run(b, ops).Some? ==> KeepsCards(b.cards, Run(b, ops).value.board.cards)
    decreases |ops|
  {
    if ops != [] {
      var s := Apply(b, ops[0]);
      if s.Some? {
        if ops[0].Create? {
          CreateCardKeepsValid(b);
        }
        assert Valid(s.value.board.cards);
        ApplyKeepsCards(b, ops[0]);
        RunPreservesValid(s.value.board, ops[1..]);
      }
    }
  }

  /**
   * `n` calls of `createCard` from a valid store: they publish `n` events and
   * grow the store by `n`, keeping it valid.
   */
  function CreateMany(b: BoardState, n: nat): (r: Session)
    requires Valid(b.cards)
    ensures Valid(r.board.cards)
    ensures |r.board.cards| == |b.cards| + n
    ensures |r.events| == n
    decreases n
  {
    if n == 0 then Session(b, [], [])
    else
      var s := CreateCard(b);
      CreateCardKeepsValid(b);
      var rest := CreateMany(s.board, n - 1);
      Session(rest.board, [s.published.value] + rest.events, s.calls + rest.calls)
  }

  /** One creation, then the remaining `n - 1`. */
  lemma CreateManyFirst(b: BoardState, n: nat)
    requires Valid(b.cards) && n > 0
    ensures Valid(CreateCard(b).board.cards)
    ensures CreateMany(b, n).events == [CreateCard(b).published.value] + CreateMany(CreateCard(b).board, n - 1).events
  {
    CreateCardKeepsValid(b);
  }

  /**
   * `events` are "cardCreated" events whose cards get the consecutive ids
   * after `base`, with the default text and the first stage.
   */
  ghost predicate CreatedAfter(events: seq<CardEvent>, base: int)
  {
    forall i :: 0 <= i < |events| ==>
      events[i] == Event(CardCreated, Card(base + i + 1, DefaultCardText, DefaultList))
  }

  lemma CreatedAfterCons(e: CardEvent, rest: seq<CardEvent>, base: int)
    requires e == Event(CardCreated, Card(base + 1, DefaultCardText, DefaultList))
    requires CreatedAfter(rest, base + 1)
    ensures CreatedAfter([e] + rest, base)
  {
    var all := [e] + rest;
    forall i | 0 <= i < |all|
      ensures all[i] == Event(CardCreated, Card(base + i + 1, DefaultCardText, DefaultList))
    {
      if i > 0 {
        assert all[i] == rest[i - 1];
      }
    }
  }

  /**
   * The events of `n` creations get the consecutive ids after the current
   * count, with the default text and the first stage.
   */
  lemma {:induction false} CreatesAssignConsecutiveIds(b: BoardState, n: nat)
    requires Valid(b.cards)
    ensures CreatedAfter(CreateMany(b, n).events, |b.cards|)
    decreases n
  {
    if n > 0 {
      CreateCardKeepsValid(b);
      CreatesAssignConsecutiveIds(CreateCard(b).board, n - 1);
      CreatesAssignStep(b, n);
    }
  }

  /** The inductive step: one creation in front of creations that are already numbered. */
  lemma CreatesAssignStep(b: BoardState, n: nat)
    requires Valid(b.cards) && n > 0
    requires Valid(CreateCard(b).board.cards)
    requires CreatedAfter(CreateMany(CreateCard(b).board, n - 1).events, |CreateCard(b).board.cards|)
    ensures CreatedAfter(CreateMany(b, n).events, |b.cards|)
  {
    CreateManyFirst(b, n);
    CreateCardKeepsValid(b);
    CreatedAfterCons(CreateCard(b).published.value, CreateMany(CreateCard(b).board, n - 1).events, |b.cards|);
  }

  /** Running `n` creations on a valid store never throws and is `CreateMany`. */
  lemma {:induction false} RunCreates(b: BoardState, n: nat)
    requires Valid(b.cards)
    ensures Run(b, Creates(n)) == Some(CreateMany(b, n))
    decreases n
  {
    if n > 0 {
      var ops := Creates(n);
      assert ops[1..] == Creates(n - 1);
      CreateCardKeepsValid(b);
      RunCreates(CreateCard(b).board, n - 1);
      RunCreateFirst(b, ops);
    }
  }

  /**
   * From the exported board, `n` creations store exactly the ids 1..n and
   * publish cards whose ids strictly increase.
   */
  lemma IdsFromInitialAreOneToN(n: nat)
    ensures Run(Initial(), Creates(n)).Some?
    ensures var r := Run(Initial(), Creates(n)).value;
      && (forall k :: k in r.board.cards <==> 1 <= k <= n)
      && |r.events| == n
      && (forall i :: 0 <= i < n ==> r.events[i].payload.id == i + 1)
      && (forall i, j :: 0 <= i < j < n ==> r.events[i].payload.id < r.events[j].payload.id)
  {
    RunCreates(Initial(), n);
    CreatesAssignConsecutiveIds(Initial(), n);
  }

  /** A move left followed by a move right puts the board back as it was. */
  lemma MoveLeftThenRightRestores(b: BoardState, id: int)
    requires id in b.cards
    requires MoveCardToLeft(b, id).published.Some?
    ensures id in MoveCardToLeft(b, id).board.cards
    ensures MoveCardToRight(MoveCardToLeft(b, id).board, id).published.Some?
    ensures MoveCardToRight(MoveCardToLeft(b, id).board, id).board == b
  {
    var b1 := MoveCardToLeft(b, id).board;
    var b2 := MoveCardToRight(b1, id).board;
    var p := GetListsPosition(b.cards[id].list).value;
    assert GetListsPosition(b2.cards[id].list).value == p;
    assert b2.cards[id].list == b.cards[id].list;
    assert b2.cards == b.cards;
  }

  /** A move right followed by a move left puts the board back as it was. */
  lemma MoveRightThenLeftRestores(b: BoardState, id: int)
    requires id in b.cards
    requires MoveCardToRight(b, id).published.Some?
    ensures id in MoveCardToRight(b, id).board.cards
    ensures MoveCardToLeft(MoveCardToRight(b, id).board, id).published.Some?
    ensures MoveCardToLeft(MoveCardToRight(b, id).board, id).board == b
  {
    var b1 := MoveCardToRight(b, id).board;
    var b2 := MoveCardToLeft(b1, id).board;
    var p := GetListsPosition(b.cards[id].list).value;
    assert GetListsPosition(b2.cards[id].list).value == p;
    assert b2.cards[id].list == b.cards[id].list;
    assert b2.cards == b.cards;
  }

  /**
   * The boundary stages admit only the inward move: moving left from "open"
   * or right from "closed" changes nothing and publishes nothing.
   */
  lemma MoveAtBoundaryIsNoOp(b: BoardState, id: int)
    requires id in b.cards
    ensures b.cards[id].list == "open" ==> MoveCardToLeft(b, id) == Step(b, None, [])
    ensures b.cards[id].list == "closed" ==> MoveCardToRight(b, id) == Step(b, None, [])
  {
    if b.cards[id].list == "open" {
      assert GetListsPosition("open") == Some(0);
    }
    if b.cards[id].list == "closed" {
      assert GetListsPosition("closed") == Some(2);
    }
  }

  /** Updating the same card twice leaves the second text, as one update with it would. */
  lemma UpdateLastWriteWins(b: BoardState, id: int, first: string, second: string)
    ensures UpdateCard(UpdateCard(b, id, first).board, id, second).board == UpdateCard(b, id, second).board
  {
    var b1 := UpdateCard(b, id, first).board;
    if id in b.cards {
      assert UpdateCard(b1, id, second).board.cards == UpdateCard(b, id, second).board.cards;
    }
  }

  /** A board holding the single card 1, with no listeners. */
  function OneCard(text: string, list: string): BoardState
  {
    BoardState(map[1 := Card(1, text, list)], New())
  }

  /*
   * A walk-through of one card on the exported board: it is created in
   * "open" (one "cardCreated"), moved right to "processing" and to "closed"
   * (one "cardMoved" each), a third move right is ignored, its text is
   * replaced (one "cardUpdated"), and an update of the unknown id 99 is
   * ignored. With no listeners registered, no callback is called.
   */

  lemma WalkthroughCreate()
    ensures CreateCard(Initial()) == Step(OneCard("New Task", "open"), Some(Event(CardCreated, Card(1, "New Task", "open"))), [])
  {
    assert CreateCard(Initial()).board.cards == map[1 := Card(1, "New Task", "open")];
  }

  lemma WalkthroughMoves()
    ensures MoveCardToRight(OneCard("New Task", "open"), 1)
         == Step(OneCard("New Task", "processing"), Some(Event(CardMoved, Card(1, "New Task", "processing"))), [])
    ensures MoveCardToRight(OneCard("New Task", "processing"), 1)
         == Step(OneCard("New Task", "closed"), Some(Event(CardMoved, Card(1, "New Task", "closed"))), [])
    ensures MoveCardToRight(OneCard("New Task", "closed"), 1) == Step(OneCard("New Task", "closed"), None, [])
  {
    assert GetListsPosition("open") == Some(0);
    assert GetListsPosition("processing") == Some(1);
    assert GetListsPosition("closed") == Some(2);
    assert MoveCardToRight(OneCard("New Task", "open"), 1).board.cards == map[1 := Card(1, "New Task", "processing")];
    assert MoveCardToRight(OneCard("New Task", "processing"), 1).board.cards == map[1 := Card(1, "New Task", "closed")];
  }

  lemma WalkthroughUpdates()
    ensures UpdateCard(OneCard("New Task", "closed"), 1, "Write report")
         == Step(OneCard("Write report", "closed"), Some(Event(CardUpdated, Card(1, "Write report", "closed"))), [])
    ensures UpdateCard(OneCard("Write report", "closed"), 99, "x") == Step(OneCard("Write report", "closed"), None, [])
  {
    assert UpdateCard(OneCard("New Task", "closed"), 1, "Write report").board.cards == map[1 := Card(1, "Write report", "closed")];
  }
}
