# Kanban board core in Dafny

A model of the in-memory logic of a client-side kanban board. The board owns
a map from card id to card and a fixed, ordered list of stages
(`"open"`, `"processing"`, `"closed"`). It creates cards, replaces a card's
text and moves a card one stage left or right. After each successful change
it publishes a typed event through a small publish-subscribe primitive.

Modules, one per component:

- `Wrappers` (`wrappers.dfy`): `Option`, standing for the source's `null`/`undefined`.
- `Observable` (`observable.dfy`): the listener registry (event type → callbacks in registration order), `addEventListener` and `notifyAll`.
  - Callbacks are opaque `HandlerId`s.
  - `NotifyAll` returns the ordered trace of the calls it makes.
  - The registry is an argument of `NotifyAll`, never a result, so dispatch cannot change it.
- `Cards` (`cards.dfy`): the `Card` record (`id`, `text`, `list`) and `CardEvent`, an `Event` whose payload is a card.
  - Both are datatypes, so their constructors store their arguments unchanged by construction.
  - The event's type tag is the field `kind`, because `type` is a Dafny keyword.
- `Board` (`board.dfy`): the constants, the module-level helpers (`createCardID`, `getListsPosition`, `createNewCard`, `updateCardWithID`, `moveCardInDirection`) and the board methods (`createCard`, `updateCard`, `moveCardToLeft`, `moveCardToRight`).
  - The module-level card map and the listener registry the board inherits are one explicit value, `BoardState`.
  - Each board method returns a `Step`: the new state, the event it published (if any) and the callback calls that publication made.
  - `Initial()` is the exported singleton before any call.
- `BoardSession` (`session.dfy`): sequences of calls on the exported board (`Run`) and the facts that hold across them.
  - The store invariant `Board.Valid` says three things: ids are exactly 1..n, each card is stored under its own id, and every card's list is a stage.

Notes on behaviour the model follows:

- `moveCardInDirection` reads `card.list` without checking that the card exists, so an absent id throws a TypeError. `MoveCardInDirection`, `MoveCardToLeft` and `MoveCardToRight` therefore require the id to be present. The absent-id case is not a silent no-op: the source throws before changing anything. In `BoardSession.Run`, a move on an absent id ends the run (`None`).
- `getListsPosition` returns `undefined` for a list name that is not a stage. `undefined + shift` is `NaN`, indexing with it gives `undefined`, and the move returns `null`. `MoveCardInDirection` models this as a no-op.
- The move's target check `if (newListName)` tests truthiness. Every stage name is non-empty, so it is exactly the in-range check `0 <= pos + shift < 3`.
- `createNewCard` never returns `null`, so `createCard` always publishes.

## Model

| member | source | states |
|---|---|---|
| `Observable.New` | resources/js/Observable.js:11-19 | A freshly constructed registry has no callbacks for any event type. This is the corrected constructor, which initialises `listeners` (see Findings). |
| `Observable.AddEventListener` | resources/js/Observable.js:40-45 | The callback is appended at the end of its type's list, which is created on the first registration. Every other type's list is unchanged. The set of registered types gains exactly this type. |
| `Observable.Dispatch` | resources/js/Observable.js:29-31 | Calling a list of callbacks makes one call per entry, in list order, each with the same event. |
| `Observable.NotifyAll` | resources/js/Observable.js:26-33 | The trace has one call per callback registered for `e.kind`. The i-th call goes to the i-th registered callback, with `e`. A type with no callbacks calls nothing. |
| `Observable.AddThenNotify` | resources/js/Observable.js:26-45 | Registering one more callback for a type adds exactly one call, at the end, to the trace for that type. It leaves the trace for every other type unchanged. |
| `Observable.DuplicateRegistrationCallsTwice` | resources/js/Observable.js:40-45 | There is no duplicate check: registering the same callback twice adds two calls to every notification of that type. |
| `Observable.RegisterAllAppends` | resources/js/Observable.js:40-45 | Registering a list of callbacks appends exactly that list, in order, to the type's list. Other types are untouched. |
| `Observable.NotifyFollowsRegistrationOrder` | resources/js/Observable.js:26-45 | Callbacks registered one after another on a fresh registry are called in exactly their registration order, each once, each with the same event. |
| `Observable.AsWrittenConstructorBreaksDispatch` | resources/js/Observable.js:18-44 | As written, the constructor sets `listener` while both methods read `listeners`. On an object it builds, every `addEventListener` and every `notifyAll` throws. |
| `Observable.ConstructAsWritten` | resources/js/Observable.js:11-19 | The constructor as written initialises `listener` to an empty object and leaves `listeners` undefined. |
| `Observable.AddEventListenerAsWritten` | resources/js/Observable.js:40-45 | As written, registration throws exactly when `listeners` is undefined. Otherwise it appends the callback to its type's list, leaves every other type's list alone and does not touch `listener`. |
| `Observable.NotifyAllAsWritten` | resources/js/Observable.js:26-33 | As written, notification throws exactly when `listeners` is undefined. Otherwise it calls each callback registered for the event's type once, in order, with the event. |
| `Observable.AsWrittenAgreesOnceInitialised` | resources/js/BoardView.js:39-43 | For every initialised `listeners` map, the as-written `addEventListener` and `notifyAll` give exactly the registry model's results on that map. In particular, one callback registered on the view's empty `listeners` is called exactly once for its type. |
| `Observable.NewRegistryDispatches` | resources/js/Observable.js:11-45 | With the registry initialised, one registration on a fresh registry gives one call for that type and none for any other. |
| `Board.Initial` | resources/js/Board.js:16 | The exported board starts with an empty card map, which satisfies the store invariant, and with no listeners. |
| `Board.IndexOf` | resources/js/Board.js:23 | `indexOf` finds the element exactly when it occurs. The position it returns holds the element, and no earlier position does. |
| `Board.GetListsPosition` | resources/js/Board.js:22-28 | A list name has a position exactly when it is a stage, and the stage at that position is the name. |
| `Board.CreateCardID` | resources/js/Board.js:18-20 | The new id is positive. On a valid store it is fresh and greater than every stored id. |
| `Board.CreateNewCard` | resources/js/Board.js:30-35 | A card is always returned, with id `size + 1`, text "New Task" and list "open" (`LIST_NAMES[0]`). It is stored under its id, every other stored card is kept unchanged, and the keys grow by exactly that id. |
| `Board.InsertNextKeepsValid` | resources/js/Board.js:30-35 | Storing a card under `size + 1` in a valid store adds a fresh key, grows the store by one and keeps it valid. |
| `Board.UpdateCardWithID` | resources/js/Board.js:41-48 | A card is returned exactly when the id is stored. Only that card changes, and only its text. An absent id changes nothing. Validity is preserved. |
| `Board.MoveCardInDirection` | resources/js/Board.js:50-59 | A card is returned exactly when its list is a stage and `pos + shift` is a stage position. The card then moves to `LIST_NAMES[pos + shift]`, keeping its id and text, and no other card changes. Otherwise nothing changes. Validity is preserved. |
| `Board.CreateCard` | resources/js/Board.js:67-72 | Exactly one "cardCreated" event is always published, carrying the new card: id `size + 1`, "New Task", "open". The card is the one stored, other cards are kept, the listener registry is unchanged, and the calls made are the registry's dispatch of that event. |
| `Board.CreateCardKeepsValid` | resources/js/Board.js:18-35 | On a valid store, the created id is greater than every stored id, the store grows by exactly one card and stays valid. |
| `Board.CreateCardAsWritten` | resources/js/Board.js:67-72 | On the board as written, `createCard` stores the card with the next id, "New Task" and "open" before notifying. It throws exactly when `listeners` is undefined; otherwise its calls are the dispatch of "cardCreated" with that card. Other cards are kept. |
| `Board.AsWrittenCreateCardStoresThenThrows` | resources/js/Board.js:61-72 | On the exported board as written (its constructor only calls the as-written observable constructor), `createCard` leaves the new card stored and then throws in `notifyAll`. |
| `Board.AsWrittenCreateCardAgrees` | resources/js/Board.js:67-72 | With `listeners` initialised, the as-written `createCard` stores the same cards and makes the same calls as `CreateCard` on that registry. |
| `Board.UpdateCard` | resources/js/Board.js:74-80 | One "cardUpdated" event is published exactly when the id is stored. Only that card's text is replaced, and the event carries the updated card. On an absent id the state is unchanged and no callback is called. |
| `Board.MoveCardToLeft` | resources/js/Board.js:82-87 | One "cardMoved" event is published exactly when the card's stage has a predecessor. The card then sits one stage to the left, everything else is unchanged, and the event carries it. A card in "open" stays and nothing is published. |
| `Board.MoveCardToRight` | resources/js/Board.js:89-94 | One "cardMoved" event is published exactly when the card's stage has a successor. The card then sits one stage to the right, everything else is unchanged, and the event carries it. A card in "closed" stays and nothing is published. |
| `BoardSession.Apply` | resources/js/Board.js:61-94 | A call throws exactly when it is a move naming an absent id. Board methods leave the registry alone, and a listener registration leaves the cards alone and publishes nothing. |
| `BoardSession.ApplyKeepsCards` | resources/js/Board.js:30-59 | No single call deletes a card or changes a stored card's id, and the store never shrinks. |
| `BoardSession.RunPreservesValid` | resources/js/Board.js:30-59 | After any sequence of calls on a valid store, the store is still valid: ids are exactly 1..n and every card's list is a stage. Every card stored before the run is still stored under the same key with the same id, and the store has not shrunk. |
| `BoardSession.CreateMany` | resources/js/Board.js:67-72 | `n` creations on a valid store publish `n` events and grow the store by `n`, keeping it valid. |
| `BoardSession.CreatesAssignConsecutiveIds` | resources/js/Board.js:18-35 | The events of `n` creations are "cardCreated" events whose cards carry the consecutive ids after the current count, with "New Task" and "open". |
| `BoardSession.RunCreates` | resources/js/Board.js:67-72 | Running `n` creation calls on a valid store never throws and gives the same outcome as `CreateMany`. |
| `BoardSession.IdsFromInitialAreOneToN` | resources/js/Board.js:16-35 | From the exported board, after `n` creations the stored ids are exactly 1..n, and the published cards' ids are 1, 2, …, n, strictly increasing. |
| `BoardSession.MoveLeftThenRightRestores` | resources/js/Board.js:50-59 | A successful move left followed by a move right succeeds and restores the board exactly. |
| `BoardSession.MoveRightThenLeftRestores` | resources/js/Board.js:50-59 | A successful move right followed by a move left succeeds and restores the board exactly. |
| `BoardSession.MoveAtBoundaryIsNoOp` | resources/js/Board.js:82-94 | Moving left from "open" or right from "closed" leaves the board unchanged and publishes nothing. |
| `BoardSession.UpdateLastWriteWins` | resources/js/Board.js:41-48 | Two text updates of the same id leave the board as the second update alone would. |
| `BoardSession.WalkthroughCreate` | resources/js/Board.js:67-72 | On the exported board, the first creation stores `Card(1, "New Task", "open")` and publishes "cardCreated" with it. |
| `BoardSession.WalkthroughMoves` | resources/js/Board.js:89-94 | Card 1 moves right from "open" to "processing" and from "processing" to "closed", each time with one "cardMoved". A third move right is ignored. |
| `BoardSession.WalkthroughUpdates` | resources/js/Board.js:74-80 | Updating card 1 to "Write report" publishes "cardUpdated" with the updated card. Updating the unknown id 99 changes nothing and publishes nothing. |

## Left out

- `resources/js/BoardView.js` is left out: DOM queries, template substitution, browser listener wiring and `parseInt` of attributes. This is presentation code.
  - Its constructor's own `listeners = {}` appears only in `Observable.AsWrittenAgreesOnceInitialised`.
- `resources/js/app.js` is left out. It is bootstrap glue, and it calls names (`createNewCard`, `updateCardText`, `moveCardRight`, `moveCardLeft`, `new Board()` on an instance) that the board does not expose.
- The empty `updateCard(card)` helper (resources/js/Board.js:37-39) has no behaviour and is left out.
- Callback bodies and re-entrancy are not modelled. Handlers are opaque ids, and a callback that registers listeners or calls the board during `notifyAll` is not modelled.
- Reference aliasing is not modelled. The source's event carries the stored card object itself, so a handler could mutate it. Here the payload is the card's value at publish time.
- Event type names that are properties of `Object.prototype` (such as "constructor" or "toString") are not modelled. The source's plain-object lookup would find the inherited member. The model treats every string as an ordinary key.
- The store is modelled once. In the source it is module-level and shared by every `Board` object, and only the exported instance is ever used.
- Ids are unbounded integers. The source's ids are JavaScript numbers, which are exact up to 2^53.
- `Board.MoveCardInDirection`: the TypeError for an absent id is a precondition, not an error value. The same holds for `Board.MoveCardToLeft` and `Board.MoveCardToRight`. Only `BoardSession.Run` turns it into the end of a run.
- An unsubscribe operation does not exist in the source and is not modelled.
- The full walk-through is not chained through `BoardSession.Run` as one call sequence. The three `Walkthrough` lemmas state each step on the board operations directly.

## Findings

| source | as written | input that shows it | evidently intended | confidence | as-written member | corrected member |
|---|---|---|---|---|---|---|
| resources/js/Observable.js:18 | The constructor initialises `this.listener = {}`. `notifyAll` (line 27) and `addEventListener` (line 41) read `this.listeners`, which stays undefined for the board. | `new Board()` then `addEventListener("cardCreated", h)` throws a TypeError. `createCard()` stores the card and then throws in `notifyAll` (`Board.AsWrittenCreateCardStoresThenThrows`). | The constructor initialises `this.listeners = {}`, the single registry both methods use. | high; not executed | `Observable.AsWrittenConstructorBreaksDispatch` | `Observable.NewRegistryDispatches` |
