# FlashCardCursor core, modelled in Dafny

A flashcard application keeps decks of cards per user in a relational store. Server actions create, edit and
delete decks and cards. A request guard keeps signed-out visitors off the dashboard. A confirmation dialog sits
in front of deck deletion. A client-side study session steps through a deck's cards, shuffled or not, one card
at a time.

This project models that core and proves what it promises:

- **Store** (`schema.dfy`, `rows.dfy`, `deck_queries.dfy`, `card_queries.dfy`).
  - The `decks` and `cards` tables are maps from primary key to row.
  - The `Database` class holds the two maps and the next value of each identity column.
  - Reads are pure functions over the maps. `SELECT ... WHERE ... ORDER BY createdAt` becomes `Rows.Select`.
  - Writes are methods that modify the database. Deleting a deck takes its cards with it through
    `ON DELETE CASCADE`.
- **Server actions** (`protocol.dfy`, `deck_actions.dfy`, `card_actions.dfy`).
  - Each action runs its steps in the source's order: authenticate, validate the zod schema (as issue lists), check
    ownership or the free-plan quota of 3 decks, then mutate.
  - The first step that would throw is a pure `...Rejection` function. The action method fails with exactly that
    error and changes nothing, or succeeds with an exactly stated new store.
- **Request guard** (`middleware.dfy`): a pure decision from the user id and the path to a redirect or a pass.
- **Study session** (`study_session.dfy`).
  - A pure `State` value, with one transition function per handler and per UI entry point (button or key).
  - The class `Controller` has the component's state variables as fields. Each method updates them step by step
    and is proved to follow its transition function.
  - The `setTimeout` commit of Next and Previous is the explicit method `FireTimer`. The `timer` field is the
    scheduled closure, with the index and card it captured.
- **Delete dialog** (`delete_deck_dialog.dfy`): a class over `open`, `confirmText` and `isDeleting`, plus a count
  of requests in flight.
- **End to end** (`end_to_end.dfy`): two users driving the actions against one fresh database.

Inputs that come from outside the code are parameters:

- the signed-in user id and the `unlimited_decks` feature (`Auth`);
- whether Clerk's route matcher calls a path public;
- the current time, as `now`;
- the answers of `Math.random`, as a swap sequence with `0 <= swaps[i] <= i`;
- whether a key press happened in a text field;
- whether a delete request succeeded.

Details where the code does less than its comments, labels or names suggest; the model follows the code:

- **Next and the viewed rule.** `handleNext` has no "back viewed" precondition. Only the Next button and
  ArrowRight check it (`ClickNext`, `KeyDown`).
- **When a card is completed.** The card left by Next is completed when the commit runs, not when Next is clicked
  (`Commit`).
- **Quota error.** The quota error carries no limit or count, only a message (`DeckLimitReached`).
- **Keys during a slide.** The keyboard ignores every key during a slide, Flip keys included.
- **Starting order.** A session always starts unshuffled.
- **Dashboard guard.** The guard is a prefix test, so it also matches paths such as `/dashboards`.
- **Empty descriptions.** `createDeckAction` stores an empty description as NULL (`description || null`).
  `updateDeckAction` stores it as the empty string, because it forwards the field unchanged.
- **Clicks on the card.** The card's `onClick` (src/components/study-session.tsx:285) calls `handleFlip`, which
  has no test for a slide. While a slide runs, the incoming card moves in from one side and the leaving card moves
  out to the other, so part of the card area still belongs to the leaving card and a click there flips it
  (`ClickCard`). A click on the incoming card does nothing and is simply no event.

`ORDER BY createdAt` leaves the order of rows with equal timestamps to the database. The model breaks such ties by
id, so every row order it proves is one the database may return.

## Model

| member | source | states |
|---|---|---|
| Protocol.TextIssues | src/actions/decks.ts:18 | no issue exactly when the length is within `[min, max]`; every issue names the checked field |
| Protocol.OptionalTextIssues | src/actions/decks.ts:24-25 | an absent optional field passes; a present one passes exactly within the bounds |
| Protocol.IdIssues | src/actions/decks.ts:23 | an id passes exactly when it is positive |
| Protocol.SignedIn | src/actions/decks.ts:47 | `if (!userId)` lets a request through exactly when the user id is present and non-empty; every action in src/actions/decks.ts and src/actions/cards.ts uses this test |
| Schema.RemoveCardsOfDeck | src/db/schema.ts:14 | the cascade keeps exactly the cards of other decks, unchanged |
| Schema.CascadeKeepsIntegrity | src/db/schema.ts:4-14 | deleting a deck with its cascade keeps keys, identity bounds and the foreign key, so no card outlives its deck |
| Schema.Database.constructor | src/db/schema.ts:3-19 | an empty store whose identity columns start at 1 satisfies every schema guarantee |
| Rows.OrderedKeys | src/db/queries/decks.ts:14 | lists every key of a table exactly once, in creation order with ties broken by id |
| Rows.Select | src/db/queries/cards.ts:9-15 | returns exactly the rows satisfying the filter, each once, in non-decreasing creation order |
| DeckQueries.GetDecksByUserId | src/db/queries/decks.ts:9-15 | exactly the decks the user owns, once each, in non-decreasing `createdAt` order |
| DeckQueries.GetDeckById | src/db/queries/decks.ts:17-25 | the row with that id, or none exactly when no such row exists |
| DeckQueries.GetDeckCount | src/db/queries/decks.ts:27-34 | the number of decks whose owner is the user |
| DeckQueries.CountAfterInsert | src/db/queries/decks.ts:40-51 | inserting a deck under a fresh id raises its owner's count by one and nobody else's |
| DeckQueries.CreateDeck | src/db/queries/decks.ts:40-51 | adds exactly one deck, under a fresh id, with the given fields and both timestamps `now`; nothing else changes |
| DeckQueries.UpdateDeck | src/db/queries/decks.ts:53-64 | supplied columns change, omitted ones keep their values, owner and creation time stay, `updatedAt` is `now`; a missing id changes nothing and returns none |
| DeckQueries.DeleteDeck | src/db/queries/decks.ts:66-68 | removes exactly that deck and, through the cascade, exactly its cards |
| CardQueries.GetCardsByDeckId | src/db/queries/cards.ts:9-15 | exactly the deck's cards, once each, with distinct ids, in non-decreasing `createdAt` order |
| CardQueries.GetCardById | src/db/queries/cards.ts:17-25 | the card with that id, or none exactly when it does not exist |
| CardQueries.GetCardWithDeck | src/db/queries/cards.ts:27-39 | the card and its deck exactly when both rows exist, otherwise none |
| CardQueries.GetCardCount | src/db/queries/cards.ts:41-49 | the number of cards whose deck exists and is owned by the user |
| CardQueries.GetCardCountByDeckId | src/db/queries/cards.ts:51-58 | the number of cards of that deck |
| CardQueries.RemovedDeckHasNoCards | src/db/queries/cards.ts:94-96 | after removing a deck's cards, that deck lists none and every other deck keeps its count |
| CardQueries.CreateCard | src/db/queries/cards.ts:64-75 | adds exactly one card under a fresh id when the deck exists; a dangling `deckId` is refused by the foreign key and adds no card, but uses up its identity value |
| CardQueries.UpdateCard | src/db/queries/cards.ts:77-88 | supplied sides change, omitted ones stay, the deck and creation time stay, `updatedAt` is `now` |
| CardQueries.DeleteCard | src/db/queries/cards.ts:90-92 | removes only that card |
| CardQueries.DeleteCardsByDeckId | src/db/queries/cards.ts:94-96 | removes every card of that deck and no other |
| DeckActions.CreateDeckIssues | src/actions/decks.ts:17-20 | valid exactly when the name has 1 to 100 characters and a given description at most 500 |
| DeckActions.UpdateDeckIssues | src/actions/decks.ts:22-26 | valid exactly when the id is positive and the supplied fields meet the create bounds |
| DeckActions.DeleteDeckIssues | src/actions/decks.ts:28-30 | valid exactly when the id is positive |
| DeckActions.StoredDescription | src/actions/decks.ts:70 | an absent or empty description is stored as NULL, any other as given |
| DeckActions.DeckOwnershipFails | src/actions/decks.ts:92-96 | the check rejects exactly when the deck is missing or owned by someone else |
| DeckActions.CreateDeckRejection | src/actions/decks.ts:44-64 | signed out gives Unauthorized before anything else; otherwise schema issues; the quota error exactly for a valid free-plan request at 3 or more decks; no rejection exactly when signed in, valid and (unlimited or under 3) |
| DeckActions.UpdateDeckRejection | src/actions/decks.ts:81-96 | Unauthorized first, then the schema, then Forbidden exactly when the deck is missing or not the caller's |
| DeckActions.DeleteDeckRejection | src/actions/decks.ts:113-128 | Unauthorized first, then the schema, then Forbidden exactly when the deck is missing or not the caller's |
| DeckActions.CreateKeepsQuota | src/actions/decks.ts:55-71 | a free-plan creation that is let through leaves its owner with at most 3 decks |
| DeckActions.ValidationBeforeQuota | src/actions/decks.ts:52-61 | an empty name is a validation error even for a user already at the limit |
| DeckActions.CreateDeckAction | src/actions/decks.ts:44-79 | fails with the first rejection and changes nothing, or adds exactly one deck owned by the caller with the stored description; a free-plan caller ends with at most 3 decks |
| DeckActions.UpdateDeckAction | src/actions/decks.ts:81-111 | fails with the first rejection and changes nothing, or changes only the supplied name and description plus `updatedAt`, keeping the caller as owner |
| DeckActions.DeleteDeckAction | src/actions/decks.ts:113-139 | fails with the first rejection and changes nothing, or removes the deck and exactly its cards |
| CardActions.CreateCardIssues | src/actions/cards.ts:19-23 | valid exactly when the deck id is positive and both sides have 1 to 1000 characters |
| CardActions.UpdateCardIssues | src/actions/cards.ts:25-29 | valid exactly when the id is positive and the supplied sides meet the create bounds |
| CardActions.DeleteCardIssues | src/actions/cards.ts:31-33 | valid exactly when the id is positive |
| CardActions.CardOwnershipFails | src/actions/cards.ts:90-94 | the join-based check rejects exactly when the card, or its deck, is missing or the deck is someone else's |
| CardActions.CreateCardRejection | src/actions/cards.ts:47-62 | Unauthorized first, then the schema, then Forbidden exactly when the target deck is missing or not the caller's |
| CardActions.UpdateCardRejection | src/actions/cards.ts:79-94 | Unauthorized first, then the schema, then Forbidden exactly when the caller does not own the card's deck |
| CardActions.DeleteCardRejection | src/actions/cards.ts:110-125 | Unauthorized first, then the schema, then Forbidden exactly when the caller does not own the card's deck |
| CardActions.ForeignCardsAreForbidden | src/actions/cards.ts:90-94 | a card in another user's deck is Forbidden to delete, and to every update of it that passes validation |
| CardActions.CreateCardAction | src/actions/cards.ts:47-77 | fails with the first rejection and changes nothing, or adds exactly one card to the caller's deck |
| CardActions.UpdateCardAction | src/actions/cards.ts:79-108 | fails with the first rejection and changes nothing, or changes only the supplied sides plus `updatedAt`, never the deck |
| CardActions.DeleteCardAction | src/actions/cards.ts:110-136 | fails with the first rejection and changes nothing, or removes exactly that card and no deck |
| EndToEnd.SpanishDeckScenario | src/actions/cards.ts:79-94 | a second user cannot edit the first user's card, which keeps its text; after the owner deletes the deck its card list is empty |
| Middleware.Route | src/middleware.ts:9-26 | a signed-in request for exactly "/" goes to "/dashboard"; a signed-out request for a path starting with "/dashboard" goes to "/"; every other request passes |
| Middleware.PublicRouteIrrelevant | src/middleware.ts:21-25 | the public-route branch answers the same as falling through |
| Middleware.NoRedirectLoop | src/middleware.ts:11-18 | the target of a redirect, requested with the same sign-in state, passes |
| Middleware.PrefixCoversSiblings | src/middleware.ts:16-18 | the prefix test redirects "/dashboards" and nested dashboard paths, and a signed-in "/dashboard" passes |
| StudySession.FisherYates | src/components/study-session.tsx:37-40 | the swap passes preserve length and multiset: the result is a permutation |
| StudySession.ShuffleArray | src/components/study-session.tsx:35-42 | the in-place swap loop over a copy yields the Fisher-Yates order of the input, a permutation of it; the input is a value and stays as it was |
| StudySession.CurrentCard | src/components/study-session.tsx:49 | the card shown is always one of the deck's cards |
| StudySession.DerivedValues | src/components/study-session.tsx:50-53 | first and last card coincide only in a one-card deck, a following card exists exactly off the last card, a preceding one exactly off the first, and completion is the progress count reaching the deck size |
| StudySession.Init | src/components/study-session.tsx:25-32 | the first render shows the given deck unshuffled, at its first card, front up, with nothing viewed, completed or pending |
| StudySession.ProgressBounded | src/components/study-session.tsx:50 | the completed count never exceeds the number of cards |
| StudySession.CompleteIffAllCompleted | src/components/study-session.tsx:130 | the session is complete exactly when every card of the deck is completed |
| StudySession.Flip | src/components/study-session.tsx:55-63 | inverts the side shown; turning to the back adds the current card to the viewed set, turning to the front leaves it; nothing else changes |
| StudySession.FlipTwice | src/components/study-session.tsx:55-63 | two flips show the original side again with the current card viewed |
| StudySession.ToggleShuffle | src/components/study-session.tsx:44-47 | switches between the given order and a fresh permutation of it, and resets index, flip and both sets; the deck and a pending commit are left alone |
| StudySession.UnshuffleRestoresOrder | src/components/study-session.tsx:65-66 | shuffling on and then off restores the original order |
| StudySession.Next | src/components/study-session.tsx:73-86 | a no-op on the last card or during a slide; otherwise shows the front, announces index + 1 and schedules a commit holding the current index and card, and changes nothing else |
| StudySession.Previous | src/components/study-session.tsx:100-113 | a no-op on the first card or during a slide; otherwise shows the front, announces index - 1 and schedules the commit, and changes nothing else |
| StudySession.Commit | src/components/study-session.tsx:88-97 | ends the slide at the index next to the captured one; forward also completes the captured card; the index stays in range, and the order, side shown and viewed set are kept |
| StudySession.NextThenCommit | src/components/study-session.tsx:73-98 | Next and its commit complete the card shown and show the following card of the same order, front up |
| StudySession.PreviousThenCommit | src/components/study-session.tsx:100-123 | Previous and its commit show the preceding card of the same order, front up, and never touch the completed set |
| StudySession.Finish | src/components/study-session.tsx:125-128 | completes the card shown and changes nothing else |
| StudySession.FinishCompletesSession | src/components/study-session.tsx:125-130 | finishing on the last card after completing all earlier ones completes the session |
| StudySession.StartOver | src/components/study-session.tsx:239-244 | back to the first card with nothing viewed or completed, with the same deck, order, shuffle flag and slide; nothing else changes |
| StudySession.ResetsAgree | src/components/study-session.tsx:65-71 | Shuffle resets exactly what Start Over resets, and additionally switches the order |
| StudySession.ClickCard | src/components/study-session.tsx:285 | a click that reaches the card flips it whenever the session is not complete, during a slide too, and leaves any slide as it is |
| StudySession.ClickFlip | src/components/study-session.tsx:415-420 | the Flip button flips exactly when the session is not complete and no slide runs |
| StudySession.ClickPrevious | src/components/study-session.tsx:405-410 | the Previous button acts exactly when not complete, not on the first card and no slide runs, and then it is `Previous` |
| StudySession.ClickNext | src/components/study-session.tsx:430-433 | the Next button acts exactly when not complete, not on the last card, the back has been viewed and no slide runs |
| StudySession.ClickFinish | src/components/study-session.tsx:425-426 | the Finish button completes the card exactly on the last card, outside a slide, before completion |
| StudySession.ClickShuffle | src/components/study-session.tsx:197-203 | the Shuffle button is never disabled: every click toggles the shuffle, even during a slide |
| StudySession.ClickStartOver | src/components/study-session.tsx:236-244 | Start Over acts only on the completion screen |
| StudySession.KeyDown | src/components/study-session.tsx:133-168 | keys are ignored when complete, during a slide or in a text field; ArrowRight runs Next only off the last card and after viewing; ArrowLeft runs Previous off the first card; Up, Down and Space flip; the default is prevented exactly when a key acts |
| StudySession.KeysRespectViewedGate | src/components/study-session.tsx:147 | before its back is viewed, neither ArrowRight nor the Next button leaves the card |
| StudySession.Step | src/components/study-session.tsx:133-433 | every click, key and commit keeps the session invariant: index in range, order a permutation, sets within the deck, slide flags consistent with the pending commit |
| StudySession.CompletedOnlyGrows | src/components/study-session.tsx:55-128 | apart from Shuffle and Start Over, no event shrinks the completed or viewed set |
| StudySession.CoherentCommitAdvances | src/components/study-session.tsx:88-97 | when the captured index is still current, the forward commit completes the card shown and moves one on |
| StudySession.StepKeepsCommitAimedUnlessShuffled | src/components/study-session.tsx:73-123 | as written, every event except a Shuffle click during a slide keeps each pending commit aimed at the current index and the card shown |
| StudySession.StepKeepsBackShownViewedUnlessCardClicked | src/components/study-session.tsx:55-123 | as written, every event except a click on the card keeps the back hidden during a slide and shown only on a viewed card |
| StudySession.ReachSlideFromFirst | src/components/study-session.tsx:73-98 | viewing the first of two cards and clicking Next starts a coherent slide to the second |
| StudySession.ShuffleDuringSlideOverridden | src/components/study-session.tsx:197-203 | as written, a Shuffle click during that slide resets progress, and the commit then shows card A again at index 1 with A completed |
| StudySession.ClickShuffleGated | src/components/study-session.tsx:197-203 | the corrected Shuffle button does nothing during a slide and otherwise toggles with no commit pending |
| StudySession.ReachSlideFromFirstOfThree | src/components/study-session.tsx:73-98 | viewing the first of three cards and clicking Next starts a coherent slide to the second |
| StudySession.CardClickDuringSlideShowsUnviewedBack | src/components/study-session.tsx:285 | as written, a click on the card during that slide turns it over, and after the commit card B shows its back while not viewed, so the Next button stays disabled |
| StudySession.FixedStep | src/components/study-session.tsx:197-203 | the session with the corrected Shuffle button (exactly `ClickShuffleGated`) and a card click that acts exactly as the Flip button; every other event as written |
| StudySession.FixedStepKeepsCoherent | src/components/study-session.tsx:88-97 | with both corrections, every event keeps each pending commit aimed at the card shown and shows a back only on a viewed card outside a slide |
| StudySession.GatedShuffleWaitsForSlide | src/components/study-session.tsx:197-203 | with the corrected button, the Shuffle click of the counterexample leaves the slide untouched |
| StudySession.GatedCardClickShowsFront | src/components/study-session.tsx:285 | with the corrected card, the click of the counterexample is let go and B arrives front up in a coherent state |
| StudySession.DeckCardsSuitSession | src/db/queries/cards.ts:9-15 | a non-empty deck's cards, as the study page fetches them, meet the controller's precondition |
| StudySession.Controller.constructor | src/components/study-session.tsx:24-32 | mounting starts in the initial state |
| StudySession.Controller.HandleFlip | src/components/study-session.tsx:55-63 | updates the fields as `Flip` says |
| StudySession.Controller.HandleShuffle | src/components/study-session.tsx:65-71 | updates the fields as `ToggleShuffle` says, shuffling with `ShuffleArray` |
| StudySession.Controller.HandleNext | src/components/study-session.tsx:73-86 | updates the fields and schedules the commit as `Next` says |
| StudySession.Controller.HandlePrevious | src/components/study-session.tsx:100-113 | updates the fields and schedules the commit as `Previous` says |
| StudySession.Controller.FireTimer | src/components/study-session.tsx:88-97 | runs the scheduled commit as `Commit` says |
| StudySession.Controller.HandleFinish | src/components/study-session.tsx:125-128 | updates the completed set as `Finish` says |
| StudySession.Controller.HandleStartOver | src/components/study-session.tsx:239-244 | resets as `StartOver` says |
| StudySession.Controller.OnCardClick | src/components/study-session.tsx:285 | acts as `ClickCard` says |
| StudySession.Controller.OnFlipClick | src/components/study-session.tsx:415-420 | acts as `ClickFlip` says |
| StudySession.Controller.OnPreviousClick | src/components/study-session.tsx:405-410 | acts as `ClickPrevious` says |
| StudySession.Controller.OnNextClick | src/components/study-session.tsx:430-433 | acts as `ClickNext` says |
| StudySession.Controller.OnFinishClick | src/components/study-session.tsx:425-426 | acts as `ClickFinish` says |
| StudySession.Controller.OnShuffleClick | src/components/study-session.tsx:197-203 | acts as `ClickShuffle` says |
| StudySession.Controller.OnShuffleClickGated | src/components/study-session.tsx:197-203 | acts as `ClickShuffleGated` says |
| StudySession.Controller.OnStartOverClick | src/components/study-session.tsx:236-244 | acts as `ClickStartOver` says |
| StudySession.Controller.OnKeyDown | src/components/study-session.tsx:133-168 | acts and reports the prevented default as `KeyDown` says |
| DeleteDeckDialog.Dialog.IsDeleteEnabled | src/components/delete-deck-dialog.tsx:34 | deletion is enabled exactly when the typed text has the deck name's length and matches it character for character |
| DeleteDeckDialog.Dialog.constructor | src/components/delete-deck-dialog.tsx:28-32 | a closed dialog with empty text, not deleting, no request out |
| DeleteDeckDialog.Dialog.HandleDelete | src/components/delete-deck-dialog.tsx:34-39 | sends a request and marks the dialog deleting exactly when the typed text equals the deck name; otherwise nothing changes |
| DeleteDeckDialog.Dialog.DeleteSettled | src/components/delete-deck-dialog.tsx:41-50 | on success the dialog closes, on failure it is no longer deleting; the typed text stays |
| DeleteDeckDialog.Dialog.HandleOpenChange | src/components/delete-deck-dialog.tsx:53-60 | ignored while deleting; otherwise opens or closes, and closing clears the typed text |
| DeleteDeckDialog.Dialog.OnConfirmInput | src/components/delete-deck-dialog.tsx:81-87 | typing changes the text only while open and not deleting |
| DeleteDeckDialog.Dialog.OnDeleteClick | src/components/delete-deck-dialog.tsx:92-98 | the Delete button sends exactly when open, the name matches and not deleting, so at most one request is ever out |
| DeleteDeckDialog.Dialog.OnCancel | src/components/delete-deck-dialog.tsx:91 | Cancel closes and clears the text unless deleting |

## Left out

- Rendering, CSS, the slide and flip animations, `slideDirection` and `requestAnimationFrame`: presentation only.
- Which part of the card area a click lands on during a slide depends on the animation's progress. A click that
  lands on the incoming card does nothing, so the model has no event for it; `StudySession.ClickCard` models a
  click that reaches the leaving card.
- The 350 ms delay of the commit. The commit is an event that can arrive at any point after it was scheduled.
- `Math.random`. Its answers are an input sequence, so the model says nothing about how uniform the shuffle is.
- The floating-point progress percentage. The model states the integer count over the number of cards instead.
- Clerk: `auth()`, `has()` and `createRouteMatcher` are inputs. A user id that is present but empty counts as
  signed out, as JavaScript truthiness does.
- The middleware's `config.matcher` patterns: they decide which requests reach the guard, not what it answers.
- Drizzle, Postgres, async/await and concurrent requests. Each action runs to completion against one in-memory
  state, so a race between an action's check and its write is not modelled.
- Database column types such as `varchar(255)`. The model does not reject a string above 255 characters.
- `revalidatePath`: cache invalidation with no effect on the modelled state.
- `router.push`, `router.refresh` and toasts: navigation and notifications.
- Zod's UTF-16 length counting and non-integer numbers. Lengths are sequence lengths and ids are integers.
- Zod's error messages. A validation error carries the list of failed checks.
- `generateCardsWithAIAction`: it is imported by the AI button, but `src/actions/cards.ts` does not define it, so
  there is no code for it.
- The pages, the create, edit and add dialogs, `delete-card-button.tsx`, `study-button.tsx` and the `src/index.ts`
  demo script: UI wrappers, or live I/O. The study button only refuses to navigate to an empty deck, with a toast.
  The controller's non-empty precondition is met by the study page itself
  (src/app/dashboard/decks/[deckId]/study/page.tsx:68-87), which shows a message instead of the session when the
  deck has no cards.
- The source has the shuffle do a destructuring swap. The model's loop swaps through a temporary, which is the same
  effect.
- The study component receives its `cards` prop once; a re-render with a different list is not modelled.

## Findings

| source | as written | input that shows it | evidently intended | confidence | as-written member | corrected member |
|---|---|---|---|---|---|---|
| src/components/study-session.tsx:197-203 | The Shuffle button has no `disabled`. A click during a Next slide resets the session, then the pending commit, which captured the old index and card, moves to that index + 1 and completes the old card. | Cards A, B: flip A, click Next, click Shuffle before the slide ends (random answers `[0, 0]`, order B, A), let the commit run. It ends at index 1 showing card A, with A completed. | Shuffle waits for the slide like every other control, so a reset is never overridden. | medium, not executed | StudySession.ShuffleDuringSlideOverridden | StudySession.FixedStepKeepsCoherent |
| src/components/study-session.tsx:285 | The card's `onClick` is `handleFlip`, with no test for a slide, while the Flip button and the flip keys are off during a slide. A click on the leaving card turns it over, and the commit keeps `isFlipped` when it moves to the next card. | Cards A, B, C: flip A, click Next, click the card before the slide ends, let the commit run. Card B is shown on its back, B is not viewed, and Next stays disabled until B is flipped twice. | The card ignores clicks during a slide, as the Flip button does, so each card arrives front up. | medium, not executed | StudySession.CardClickDuringSlideShowsUnviewedBack | StudySession.FixedStepKeepsCoherent |
