/**
 * The study-session controller: one user stepping through a fixed, non-empty list of cards, in their own order
 * or a shuffled one, flipping each to its back and moving on. Next and Previous are two-phase: the click starts
 * a slide and schedules a commit that runs once the animation is over.
 *
 * The handlers are modelled twice, as the two layers of the component:
 *   - pure transition functions on a `State` value, about which the properties are proved;
 *   - the class `Controller`, whose fields are the component's state variables and whose methods update them
 *     step by step, each proved to follow the transition function of the same name.
 */
module StudySession {
  import opened Outcomes
  import opened Schema
  import CardQueries

  // ---------------------------------------------------------------------------------------------------------
  // Card lists and the shuffle
  // ---------------------------------------------------------------------------------------------------------

  /** The ids of the cards of a list. */
  function CardIds(cs: seq<Card>): set<int> {
    set c | c in cs :: c.id
  }

  /** No two cards of the list share an id (they are primary keys). */
  predicate DistinctIds(cs: seq<Card>) {
    forall i, j :: 0 <= i < j < |cs| ==> cs[i].id != cs[j].id
  }

  /** A list of cards with distinct ids has exactly as many ids as cards. */
  lemma {:induction false} CardIdsSize(cs: seq<Card>)
    requires DistinctIds(cs)
    ensures |CardIds(cs)| == |cs|
  {
    if cs != [] {
      var tail := cs[1..];
      assert DistinctIds(tail) by {
        forall i, j | 0 <= i < j < |tail| ensures tail[i].id != tail[j].id {
          assert tail[i] == cs[i + 1] && tail[j] == cs[j + 1];
        }
      }
      CardIdsSize(tail);
      assert CardIds(cs) == CardIds(tail) + {cs[0].id} by {
        forall c | c in cs ensures c in tail || c == cs[0] {
          var k :| 0 <= k < |cs| && cs[k] == c;
          if k > 0 { assert tail[k - 1] == c; }
        }
      }
      assert cs[0].id !in CardIds(tail) by {
        forall c | c in tail ensures c.id != cs[0].id {
          var k :| 0 <= k < |tail| && tail[k] == c;
          assert cs[k + 1] == c;
        }
      }
    }
  }

  /** Every card of a permutation of `ys` has an id of `ys`. */
  lemma IdsOfPermutation(xs: seq<Card>, ys: seq<Card>)
    requires multiset(xs) == multiset(ys)
    ensures forall k :: 0 <= k < |xs| ==> xs[k].id in CardIds(ys)
  {
    forall k | 0 <= k < |xs| ensures xs[k].id in CardIds(ys) {
      assert xs[k] in multiset(xs);
      assert xs[k] in ys;
    }
  }

  /** Two lists that are permutations of each other hold the same ids. */
  lemma SameIdsWhenPermuted(xs: seq<Card>, ys: seq<Card>)
    requires multiset(xs) == multiset(ys)
    ensures CardIds(xs) == CardIds(ys)
  {
    forall c | c in xs ensures c in ys { assert c in multiset(xs); }
    forall c | c in ys ensures c in xs { assert c in multiset(ys); }
  }

  /**
   * The answers of `Math.random` the shuffle consumes: for every position `i` the loop visits, the partner
   * index `Math.floor(Math.random() * (i + 1))`, which lies in `[0, i]`. Position 0 is never visited.
   */
  predicate ValidSwaps(swaps: seq<int>, n: int) {
    |swaps| == n && forall i :: 0 <= i < n ==> 0 <= swaps[i] <= i
  }

  /** The destructuring swap of two positions. */
  function Swap<T>(s: seq<T>, i: int, j: int): (r: seq<T>)
    requires 0 <= i < |s| && 0 <= j < |s|
    ensures |r| == |s| && multiset(r) == multiset(s)
    ensures r[i] == s[j] && r[j] == s[i]
    ensures forall k :: 0 <= k < |s| && k != i && k != j ==> r[k] == s[k]
  {
    s[i := s[j]][j := s[i]]
  }

  /** The list after the loop's passes for positions `i` down to 1, each swapping with its partner. */
  function FisherYates<T>(s: seq<T>, swaps: seq<int>, i: int): (r: seq<T>)
    requires ValidSwaps(swaps, |s|) && i < |s|
    ensures |r| == |s| && multiset(r) == multiset(s)
    decreases i
  {
    if i <= 0 then s else FisherYates(Swap(s, i, swaps[i]), swaps, i - 1)
  }

  /** The order `shuffleArray` produces from `items` under the given random answers. */
  function Shuffled<T>(items: seq<T>, swaps: seq<int>): seq<T>
    requires ValidSwaps(swaps, |items|)
  {
    FisherYates(items, swaps, |items| - 1)
  }

  /**
   * `shuffleArray`: copies the list into a fresh array and swaps in place from the last position down to 1.
   * The result is a permutation of the input, which is a value and so is left as it was.
   */
  method ShuffleArray<T>(items: seq<T>, swaps: seq<int>) returns (r: seq<T>)
    requires ValidSwaps(swaps, |items|)
    ensures r == Shuffled(items, swaps)
    ensures |r| == |items| && multiset(r) == multiset(items)
  {
    var shuffled := new T[|items|](k requires 0 <= k < |items| => items[k]);
    assert shuffled[..] == items;
    var i := |items| - 1;
    while i > 0
      invariant -1 <= i < |items| && shuffled.Length == |items|
      invariant FisherYates(shuffled[..], swaps, i) == Shuffled(items, swaps)
    {
      var j := swaps[i];
      ghost var before := shuffled[..];
      var t := shuffled[i];
      shuffled[i] := shuffled[j];
      shuffled[j] := t;
      assert shuffled[..] == Swap(before, i, j);
      i := i - 1;
    }
    r := shuffled[..];
  }

  // ---------------------------------------------------------------------------------------------------------
  // The session state
  // ---------------------------------------------------------------------------------------------------------

  /**
   * A commit scheduled by `setTimeout`. The callback closes over the values of the render that scheduled it:
   * the index it left from and, going forward, the id of the card it left.
   */
  datatype Pending = Forward(from: int, cardId: int) | Backward(from: int)

  /**
   * The component's state variables, the card list it was given, and the scheduled commit if any.
   * `displayCards` is the memoised order: the given list, or the shuffle computed when shuffling was switched on.
   */
  datatype State = State(
    cards: seq<Card>,
    isShuffled: bool,
    displayCards: seq<Card>,
    currentIndex: int,
    isFlipped: bool,
    completedCards: set<int>,
    viewedCards: set<int>,
    isTransitioning: bool,
    nextCardIndex: Option<int>,
    timer: Option<Pending>)

  /** What holds in every state the session reaches. */
  predicate Inv(s: State) {
    var n := |s.cards|;
    && n > 0 && DistinctIds(s.cards)
    && |s.displayCards| == n && multiset(s.displayCards) == multiset(s.cards)
    && (!s.isShuffled ==> s.displayCards == s.cards)
    && (forall k :: 0 <= k < |s.displayCards| ==> s.displayCards[k].id in CardIds(s.cards))
    && 0 <= s.currentIndex < n
    && s.completedCards <= CardIds(s.cards) && s.viewedCards <= CardIds(s.cards)
    && match s.timer
       case None => !s.isTransitioning && s.nextCardIndex.None?
       case Some(Forward(from, id)) =>
         s.isTransitioning && s.nextCardIndex == Some(from + 1) && 0 <= from < n - 1 && id in CardIds(s.cards)
       case Some(Backward(from)) =>
         s.isTransitioning && s.nextCardIndex == Some(from - 1) && 0 < from < n
  }

  /** The first render: the given deck unshuffled, the first card, front up, nothing viewed or completed, nothing pending. */
  function Init(cards: seq<Card>): (s: State)
    requires |cards| > 0 && DistinctIds(cards)
    ensures Inv(s)
    ensures s.displayCards == cards && s.currentIndex == 0 && !s.isFlipped
    ensures s.completedCards == {} && s.viewedCards == {} && s.timer.None?
    ensures !s.isShuffled && s.cards == cards
  {
    IdsOfPermutation(cards, cards);
    State(cards, false, cards, 0, false, {}, {}, false, None, None)
  }

  // Derived values, recomputed on every render.

  /** `displayCards[currentIndex]`: always one of the deck's cards. */
  function CurrentCard(s: State): (r: Card)
    requires Inv(s)
    ensures r in s.displayCards && r.id in CardIds(s.cards)
  {
    s.displayCards[s.currentIndex]
  }

  predicate IsLastCard(s: State) {
    s.currentIndex == |s.displayCards| - 1
  }

  predicate IsFirstCard(s: State) {
    s.currentIndex == 0
  }

  predicate HasViewedCurrentCard(s: State)
    requires Inv(s)
  {
    CurrentCard(s).id in s.viewedCards
  }

  predicate IsSessionComplete(s: State) {
    |s.completedCards| == |s.displayCards|
  }

  /** The progress bar's numerator; the bar shows this over `|displayCards|`. */
  function CompletedCount(s: State): nat {
    |s.completedCards|
  }

  /**
   * What the derived values say about the session: the first and the last card coincide only in a one-card
   * deck, a card follows exactly when this is not the last, and the session is complete exactly when the
   * progress count reaches the deck size.
   */
  lemma DerivedValues(s: State)
    requires Inv(s)
    ensures IsFirstCard(s) && IsLastCard(s) <==> |s.cards| == 1
    ensures !IsLastCard(s) <==> s.currentIndex + 1 < |s.displayCards|
    ensures !IsFirstCard(s) <==> 0 <= s.currentIndex - 1
    ensures IsSessionComplete(s) <==> CompletedCount(s) == |s.cards|
  {
  }

  /** The progress count never exceeds the number of cards, so the bar never passes 100%. */
  lemma ProgressBounded(s: State)
    requires Inv(s)
    ensures CompletedCount(s) <= |s.displayCards|
  {
    CardIdsSize(s.cards);
    SubsetSize(s.completedCards, CardIds(s.cards));
  }

  lemma SubsetSize(a: set<int>, b: set<int>)
    requires a <= b
    ensures |a| <= |b|
    ensures |a| == |b| ==> a == b
  {
    assert b == a + (b - a);
  }

  /** The session is complete exactly when every card of the deck has been completed. */
  lemma CompleteIffAllCompleted(s: State)
    requires Inv(s)
    ensures IsSessionComplete(s) <==> CardIds(s.cards) <= s.completedCards
  {
    CardIdsSize(s.cards);
    SubsetSize(s.completedCards, CardIds(s.cards));
    if CardIds(s.cards) <= s.completedCards {
      assert s.completedCards == CardIds(s.cards);
    }
  }

  // ---------------------------------------------------------------------------------------------------------
  // The handlers
  // ---------------------------------------------------------------------------------------------------------

  /** `handleFlip`: turns the card over; turning it to the back marks it viewed. Nothing else changes. */
  function Flip(s: State): (r: State)
    requires Inv(s)
    ensures Inv(r)
    ensures r.isFlipped == !s.isFlipped
    ensures r.viewedCards == if r.isFlipped then s.viewedCards + {CurrentCard(s).id} else s.viewedCards
    ensures r == s.(isFlipped := r.isFlipped, viewedCards := r.viewedCards)
  {
    var flipped := !s.isFlipped;
    s.(isFlipped := flipped,
       viewedCards := if flipped then s.viewedCards + {CurrentCard(s).id} else s.viewedCards)
  }

  /** Flipping twice shows the same side again, and the card has been viewed. */
  lemma FlipTwice(s: State)
    requires Inv(s)
    ensures Flip(Flip(s)).isFlipped == s.isFlipped
    ensures Flip(Flip(s)) == s.(viewedCards := s.viewedCards + {CurrentCard(s).id})
  {
  }

  /**
   * `handleShuffle`: switches the order between the given list and a fresh shuffle of it, and resets the
   * position, the flip and both sets. A pending commit is left alone.
   */
  function ToggleShuffle(s: State, swaps: seq<int>): (r: State)
    requires Inv(s) && ValidSwaps(swaps, |s.cards|)
    ensures Inv(r)
    ensures r.isShuffled == !s.isShuffled
    ensures r.isShuffled ==> r.displayCards == Shuffled(s.cards, swaps)
    ensures !r.isShuffled ==> r.displayCards == s.cards
    ensures r.currentIndex == 0 && !r.isFlipped && r.completedCards == {} && r.viewedCards == {}
    ensures r.timer == s.timer && r.isTransitioning == s.isTransitioning && r.nextCardIndex == s.nextCardIndex
    ensures r.cards == s.cards
  {
    var shuffled := !s.isShuffled;
    IdsOfPermutation(Shuffled(s.cards, swaps), s.cards);
    s.(isShuffled := shuffled,
       displayCards := if shuffled then Shuffled(s.cards, swaps) else s.cards,
       currentIndex := 0, isFlipped := false, completedCards := {}, viewedCards := {})
  }

  /** Shuffling and then unshuffling restores the original order. */
  lemma UnshuffleRestoresOrder(s: State, on: seq<int>, off: seq<int>)
    requires Inv(s) && !s.isShuffled && ValidSwaps(on, |s.cards|) && ValidSwaps(off, |s.cards|)
    ensures ToggleShuffle(ToggleShuffle(s, on), off).displayCards == s.cards
    ensures ToggleShuffle(s, on).displayCards != s.cards ==> ToggleShuffle(s, on).isShuffled
  {
  }

  /**
   * `handleNext`'s first phase. On the last card or during a slide it does nothing; otherwise it shows the
   * front, announces the next index and schedules the commit, closing over the current index and card.
   */
  function Next(s: State): (r: State)
    requires Inv(s)
    ensures Inv(r)
    ensures IsLastCard(s) || s.isTransitioning ==> r == s
    ensures !IsLastCard(s) && !s.isTransitioning ==>
      r == s.(isFlipped := false, nextCardIndex := Some(s.currentIndex + 1), isTransitioning := true,
              timer := Some(Forward(s.currentIndex, CurrentCard(s).id)))
  {
    if IsLastCard(s) || s.isTransitioning then s
    else
      s.(isFlipped := false, nextCardIndex := Some(s.currentIndex + 1), isTransitioning := true,
         timer := Some(Forward(s.currentIndex, CurrentCard(s).id)))
  }

  /** `handlePrevious`'s first phase: the mirror image of `Next`, blocked on the first card. */
  function Previous(s: State): (r: State)
    requires Inv(s)
    ensures Inv(r)
    ensures IsFirstCard(s) || s.isTransitioning ==> r == s
    ensures !IsFirstCard(s) && !s.isTransitioning ==>
      r == s.(isFlipped := false, nextCardIndex := Some(s.currentIndex - 1), isTransitioning := true,
              timer := Some(Backward(s.currentIndex)))
  {
    if IsFirstCard(s) || s.isTransitioning then s
    else
      s.(isFlipped := false, nextCardIndex := Some(s.currentIndex - 1), isTransitioning := true,
         timer := Some(Backward(s.currentIndex)))
  }

  /**
   * The scheduled callback. Going forward it completes the card it closed over; either way it moves to the
   * index next to the one it closed over and ends the slide. It reads nothing of the state it finds except
   * the completed set, which it extends.
   */
  function Commit(s: State): (r: State)
    requires Inv(s) && s.timer.Some?
    ensures Inv(r)
    ensures !r.isTransitioning && r.nextCardIndex.None? && r.timer.None?
    ensures r.currentIndex == s.nextCardIndex.value
    ensures r.completedCards == if s.timer.value.Forward? then s.completedCards + {s.timer.value.cardId}
                                else s.completedCards
    ensures r.isFlipped == s.isFlipped && r.viewedCards == s.viewedCards && r.displayCards == s.displayCards
    ensures r.isShuffled == s.isShuffled && r.cards == s.cards
  {
    var base := s.(isTransitioning := false, nextCardIndex := None, timer := None);
    match s.timer.value
    case Forward(from, id) => base.(completedCards := s.completedCards + {id}, currentIndex := from + 1)
    case Backward(from) => base.(currentIndex := from - 1)
  }

  /** Next and its commit: the card that was shown is completed and the following card is shown, front up. */
  lemma NextThenCommit(s: State)
    requires Inv(s) && !IsLastCard(s) && !s.isTransitioning
    ensures Inv(Next(s)) && Next(s).timer.Some?
    ensures var r := Commit(Next(s));
      && r.currentIndex == s.currentIndex + 1 && !r.isFlipped && !r.isTransitioning && r.nextCardIndex.None?
      && r.completedCards == s.completedCards + {CurrentCard(s).id} && r.viewedCards == s.viewedCards
      && r.cards == s.cards && r.isShuffled == s.isShuffled && r.displayCards == s.displayCards
      && CurrentCard(r) == s.displayCards[s.currentIndex + 1]
  {
  }

  /** Previous and its commit: the preceding card is shown, front up, and the completed set is untouched. */
  lemma PreviousThenCommit(s: State)
    requires Inv(s) && !IsFirstCard(s) && !s.isTransitioning
    ensures Inv(Previous(s)) && Previous(s).timer.Some?
    ensures var r := Commit(Previous(s));
      && r.currentIndex == s.currentIndex - 1 && !r.isFlipped && !r.isTransitioning && r.nextCardIndex.None?
      && r.completedCards == s.completedCards && r.viewedCards == s.viewedCards
      && r.cards == s.cards && r.isShuffled == s.isShuffled && r.displayCards == s.displayCards
      && CurrentCard(r) == s.displayCards[s.currentIndex - 1]
  {
  }

  /** `handleFinish`: completes the card shown. */
  function Finish(s: State): (r: State)
    requires Inv(s)
    ensures Inv(r)
    ensures r == s.(completedCards := s.completedCards + {CurrentCard(s).id})
  {
    s.(completedCards := s.completedCards + {CurrentCard(s).id})
  }

  /** Finishing on the last card after completing every earlier one completes the session. */
  lemma FinishCompletesSession(s: State)
    requires Inv(s) && IsLastCard(s)
    requires forall k :: 0 <= k < |s.displayCards| - 1 ==> s.displayCards[k].id in s.completedCards
    ensures IsSessionComplete(Finish(s))
  {
    var r := Finish(s);
    SameIdsWhenPermuted(s.displayCards, s.cards);
    forall id | id in CardIds(s.cards) ensures id in r.completedCards {
      var c :| c in s.displayCards && c.id == id;
      var k :| 0 <= k < |s.displayCards| && s.displayCards[k] == c;
    }
    CompleteIffAllCompleted(r);
  }

  /** The Start Over button: back to the first card with nothing viewed or completed, in the same order. */
  function StartOver(s: State): (r: State)
    requires Inv(s)
    ensures Inv(r)
    ensures r.currentIndex == 0 && !r.isFlipped && r.completedCards == {} && r.viewedCards == {}
    ensures r.isShuffled == s.isShuffled && r.displayCards == s.displayCards && r.timer == s.timer
    ensures r == s.(currentIndex := 0, isFlipped := false, completedCards := {}, viewedCards := {})
  {
    s.(currentIndex := 0, isFlipped := false, completedCards := {}, viewedCards := {})
  }

  /** Shuffle and Start Over reset the same four variables; only Shuffle changes the order. */
  lemma ResetsAgree(s: State, swaps: seq<int>)
    requires Inv(s) && ValidSwaps(swaps, |s.cards|)
    ensures ToggleShuffle(s, swaps).(isShuffled := s.isShuffled, displayCards := s.displayCards) == StartOver(s)
  {
  }

  // ---------------------------------------------------------------------------------------------------------
  // The entry points: what a click or a key press reaches, given what is rendered and enabled
  // ---------------------------------------------------------------------------------------------------------

  /**
   * A click that reaches the card. The card is rendered only while the session is not complete, and its
   * handler has no test for a slide: the card leaving the screen still takes clicks while it slides away.
   */
  function ClickCard(s: State): (r: State)
    requires Inv(s)
    ensures Inv(r)
    ensures IsSessionComplete(s) ==> r == s
    ensures !IsSessionComplete(s) ==> r == Flip(s) && r.timer == s.timer && r.isTransitioning == s.isTransitioning
  {
    if IsSessionComplete(s) then s else Flip(s)
  }

  /** The Flip button, disabled during a slide. */
  function ClickFlip(s: State): (r: State)
    requires Inv(s)
    ensures Inv(r)
    ensures IsSessionComplete(s) || s.isTransitioning ==> r == s
    ensures !IsSessionComplete(s) && !s.isTransitioning ==> r == Flip(s)
  {
    if IsSessionComplete(s) || s.isTransitioning then s else Flip(s)
  }

  /** The Previous button, disabled on the first card and during a slide. */
  function ClickPrevious(s: State): (r: State)
    requires Inv(s)
    ensures Inv(r)
    ensures r != s <==> !IsSessionComplete(s) && !IsFirstCard(s) && !s.isTransitioning
    ensures r != s ==> r == Previous(s)
  {
    if IsSessionComplete(s) || IsFirstCard(s) || s.isTransitioning then s else Previous(s)
  }

  /**
   * The Next button: rendered only when the card is not the last, disabled until its back has been viewed and
   * during a slide. This is the only place the "view the back first" rule lives besides the keyboard.
   */
  function ClickNext(s: State): (r: State)
    requires Inv(s)
    ensures Inv(r)
    ensures r != s <==> !IsSessionComplete(s) && !IsLastCard(s) && HasViewedCurrentCard(s) && !s.isTransitioning
    ensures r != s ==> r == Next(s)
  {
    if IsSessionComplete(s) || IsLastCard(s) || !HasViewedCurrentCard(s) || s.isTransitioning then s else Next(s)
  }

  /** The Finish button: rendered only on the last card, disabled during a slide. */
  function ClickFinish(s: State): (r: State)
    requires Inv(s)
    ensures Inv(r)
    ensures IsSessionComplete(s) || !IsLastCard(s) || s.isTransitioning ==> r == s
    ensures !IsSessionComplete(s) && IsLastCard(s) && !s.isTransitioning ==> r == Finish(s)
  {
    if IsSessionComplete(s) || !IsLastCard(s) || s.isTransitioning then s else Finish(s)
  }

  /** The Shuffle button, in the header: always rendered and never disabled. */
  function ClickShuffle(s: State, swaps: seq<int>): (r: State)
    requires Inv(s) && ValidSwaps(swaps, |s.cards|)
    ensures Inv(r)
    ensures r == ToggleShuffle(s, swaps)
  {
    ToggleShuffle(s, swaps)
  }

  /** The Start Over button, rendered only on the completion screen. */
  function ClickStartOver(s: State): (r: State)
    requires Inv(s)
    ensures Inv(r)
    ensures !IsSessionComplete(s) ==> r == s
    ensures IsSessionComplete(s) ==> r == StartOver(s)
  {
    if IsSessionComplete(s) then StartOver(s) else s
  }

  /** `event.key` values the handler distinguishes. */
  datatype Key = ArrowRight | ArrowLeft | ArrowUp | ArrowDown | Space | OtherKey

  /**
   * `handleKeyDown`: the new state and whether the default action was prevented. Keys are ignored on the
   * completion screen, during a slide and while typing in a text field.
   */
  function KeyDown(s: State, key: Key, inTextField: bool): (r: (State, bool))
    requires Inv(s)
    ensures Inv(r.0)
    ensures IsSessionComplete(s) || s.isTransitioning || inTextField ==> r == (s, false)
    ensures !IsSessionComplete(s) && !s.isTransitioning && !inTextField ==>
      match key
      case ArrowRight => r == if !IsLastCard(s) && HasViewedCurrentCard(s) then (Next(s), true) else (s, false)
      case ArrowLeft => r == if !IsFirstCard(s) then (Previous(s), true) else (s, false)
      case ArrowUp => r == (Flip(s), true)
      case ArrowDown => r == (Flip(s), true)
      case Space => r == (Flip(s), true)
      case OtherKey => r == (s, false)
  {
    if IsSessionComplete(s) || s.isTransitioning then (s, false)
    else if inTextField then (s, false)
    else match key
      case ArrowRight => if !IsLastCard(s) && HasViewedCurrentCard(s) then (Next(s), true) else (s, false)
      case ArrowLeft => if !IsFirstCard(s) then (Previous(s), true) else (s, false)
      case ArrowUp | ArrowDown | Space => (Flip(s), true)
      case OtherKey => (s, false)
  }

  /** The keyboard never moves past an unviewed card: ArrowRight changes nothing until the back was seen. */
  lemma KeysRespectViewedGate(s: State, inTextField: bool)
    requires Inv(s) && !HasViewedCurrentCard(s)
    ensures KeyDown(s, ArrowRight, inTextField) == (s, false)
    ensures ClickNext(s) == s
  {
  }

  // ---------------------------------------------------------------------------------------------------------
  // Whole sessions
  // ---------------------------------------------------------------------------------------------------------

  /** What can happen next: a click, a key press, or the scheduled commit coming due. */
  datatype Event =
    | CardClicked
    | FlipClicked
    | NextClicked
    | PreviousClicked
    | FinishClicked
    | ShuffleClicked(swaps: seq<int>)
    | StartOverClicked
    | KeyPressed(key: Key, inTextField: bool)
    | TimerFired

  predicate EventFits(e: Event, n: int) {
    e.ShuffleClicked? ==> ValidSwaps(e.swaps, n)
  }

  /** One event of the session as the component is written. */
  function Step(s: State, e: Event): (r: State)
    requires Inv(s) && EventFits(e, |s.cards|)
    ensures Inv(r) && r.cards == s.cards
  {
    match e
    case CardClicked => ClickCard(s)
    case FlipClicked => ClickFlip(s)
    case NextClicked => ClickNext(s)
    case PreviousClicked => ClickPrevious(s)
    case FinishClicked => ClickFinish(s)
    case ShuffleClicked(swaps) => ClickShuffle(s, swaps)
    case StartOverClicked => ClickStartOver(s)
    case KeyPressed(key, inTextField) => KeyDown(s, key, inTextField).0
    case TimerFired => if s.timer.Some? then Commit(s) else s
  }

  /** The progress count never shrinks except through the two resets. */
  lemma CompletedOnlyGrows(s: State, e: Event)
    requires Inv(s) && EventFits(e, |s.cards|) && !e.ShuffleClicked? && !e.StartOverClicked?
    ensures s.completedCards <= Step(s, e).completedCards
    ensures s.viewedCards <= Step(s, e).viewedCards
  {
    var r := Step(s, e);
    match e
    case KeyPressed(key, inTextField) =>
      var k := KeyDown(s, key, inTextField).0;
      assert k == s || k == Next(s) || k == Previous(s) || k == Flip(s);
    case TimerFired =>
      if s.timer.Some? {
        assert r == Commit(s);
      }
    case NextClicked =>
      assert r == s || r == Next(s);
    case PreviousClicked =>
      assert r == s || r == Previous(s);
    case _ =>
  }

  /**
   * The state a pending commit assumes: the closure's index is the current index, the session is not over and,
   * going forward, its card is the card shown.
   */
  predicate CommitAimed(s: State)
    requires Inv(s)
  {
    && (s.timer.Some? ==> s.timer.value.from == s.currentIndex && !IsSessionComplete(s))
    && (s.timer.Some? && s.timer.value.Forward? ==> s.timer.value.cardId == CurrentCard(s).id)
  }

  /** A card shown on its back has been viewed, and no slide runs with the back up. */
  predicate BackShownViewed(s: State)
    requires Inv(s)
  {
    s.isFlipped ==> !s.isTransitioning && HasViewedCurrentCard(s)
  }

  /** Both: what the screen shows and what the pending commit will do agree with each other. */
  predicate Coherent(s: State)
    requires Inv(s)
  {
    CommitAimed(s) && BackShownViewed(s)
  }

  /** In a coherent state the forward commit completes the card shown and shows the following one. */
  lemma CoherentCommitAdvances(s: State)
    requires Inv(s) && CommitAimed(s) && s.timer.Some? && s.timer.value.Forward?
    ensures Commit(s).currentIndex == s.currentIndex + 1
    ensures Commit(s).completedCards == s.completedCards + {CurrentCard(s).id}
  {
  }

  /** As written, every event but a Shuffle click during a slide keeps the pending commit aimed at the card shown. */
  lemma {:induction false} StepKeepsCommitAimedUnlessShuffled(s: State, e: Event)
    requires Inv(s) && CommitAimed(s) && EventFits(e, |s.cards|)
    requires !(e.ShuffleClicked? && s.isTransitioning)
    ensures CommitAimed(Step(s, e))
  {
    var r := Step(s, e);
    match e
    case KeyPressed(key, inTextField) =>
      var k := KeyDown(s, key, inTextField).0;
      assert k == s || k == Next(s) || k == Previous(s) || k == Flip(s);
    case TimerFired =>
      if s.timer.Some? {
        assert r == Commit(s);
      }
    case _ =>
  }

  /**
   * As written, every event but a click on the card keeps the back hidden during a slide and shown only on a
   * viewed card.
   */
  lemma {:induction false} StepKeepsBackShownViewedUnlessCardClicked(s: State, e: Event)
    requires Inv(s) && BackShownViewed(s) && EventFits(e, |s.cards|)
    requires !e.CardClicked?
    ensures BackShownViewed(Step(s, e))
  {
    var r := Step(s, e);
    match e
    case KeyPressed(key, inTextField) =>
      var k := KeyDown(s, key, inTextField).0;
      assert k == s || k == Next(s) || k == Previous(s) || k == Flip(s);
    case TimerFired =>
      if s.timer.Some? {
        assert r == Commit(s);
        assert !r.isFlipped;
      }
    case NextClicked =>
      assert r == s || r == Next(s);
    case PreviousClicked =>
      assert r == s || r == Previous(s);
    case FlipClicked =>
      assert r == s || r == Flip(s);
    case FinishClicked =>
      assert r == s || r == Finish(s);
    case StartOverClicked =>
      assert r == s || r == StartOver(s);
    case _ =>
  }

  /** Two cards A and B, after viewing A and clicking Next: the slide to B is under way. */
  function SlideFromFirst(a: Card, b: Card): State {
    State([a, b], false, [a, b], 0, false, {}, {a.id}, true, Some(1), Some(Forward(0, a.id)))
  }

  /** Viewing the first of two cards and clicking Next starts the slide of `SlideFromFirst`, a coherent state. */
  lemma ReachSlideFromFirst(a: Card, b: Card)
    requires a.id != b.id
    ensures DistinctIds([a, b])
    ensures Step(Step(Init([a, b]), FlipClicked), NextClicked) == SlideFromFirst(a, b)
    ensures Inv(SlideFromFirst(a, b)) && Coherent(SlideFromFirst(a, b))
  {
    var s0 := Init([a, b]);
    var f := Step(s0, FlipClicked);
    assert f == s0.(isFlipped := true, viewedCards := {a.id});
    assert Step(f, NextClicked) == SlideFromFirst(a, b);
  }

  /**
   * As written, a Shuffle click during a forward slide is undone by the commit that follows: in the slide of
   * `SlideFromFirst`, a shuffle into B-then-A order resets progress, and then the timer fires and shows index 1 —
   * card A again — with A counted as completed.
   */
  lemma ShuffleDuringSlideOverridden(a: Card, b: Card)
    requires a.id != b.id
    ensures Inv(SlideFromFirst(a, b))
    ensures var s2 := Step(SlideFromFirst(a, b), ShuffleClicked([0, 0]));
            var s3 := Step(s2, TimerFired);
            && s2.currentIndex == 0 && s2.completedCards == {} && !CommitAimed(s2)
            && s3.displayCards == [b, a] && s3.currentIndex == 1 && CurrentCard(s3) == a
            && s3.completedCards == {a.id}
  {
    ReachSlideFromFirst(a, b);
    var s1 := SlideFromFirst(a, b);
    assert Shuffled([a, b], [0, 0]) == [b, a] by {
      assert Swap([a, b], 1, 0) == [b, a];
    }
    var s2 := Step(s1, ShuffleClicked([0, 0]));
    assert s2 == s1.(isShuffled := true, displayCards := [b, a], currentIndex := 0, completedCards := {}, viewedCards := {});
    var s3 := Step(s2, TimerFired);
    assert s3 == s2.(completedCards := {a.id}, currentIndex := 1, isTransitioning := false, nextCardIndex := None, timer := None);
  }

  /** Three cards A, B and C, after viewing A and clicking Next: the slide to B is under way. */
  function SlideFromFirstOfThree(a: Card, b: Card, c: Card): State {
    State([a, b, c], false, [a, b, c], 0, false, {}, {a.id}, true, Some(1), Some(Forward(0, a.id)))
  }

  /** Viewing the first of three cards and clicking Next starts the slide of `SlideFromFirstOfThree`. */
  lemma ReachSlideFromFirstOfThree(a: Card, b: Card, c: Card)
    requires a.id != b.id && a.id != c.id && b.id != c.id
    ensures DistinctIds([a, b, c])
    ensures Step(Step(Init([a, b, c]), FlipClicked), NextClicked) == SlideFromFirstOfThree(a, b, c)
    ensures Inv(SlideFromFirstOfThree(a, b, c)) && Coherent(SlideFromFirstOfThree(a, b, c))
  {
    var s0 := Init([a, b, c]);
    var f := Step(s0, FlipClicked);
    assert f == s0.(isFlipped := true, viewedCards := {a.id});
    assert Step(f, NextClicked) == SlideFromFirstOfThree(a, b, c);
  }

  /**
   * As written, a click on the card during a slide turns the leaving card over, and the commit keeps the back up:
   * B is then shown on its back without counting as viewed, so Next stays disabled on a card whose answer is
   * on screen.
   */
  lemma CardClickDuringSlideShowsUnviewedBack(a: Card, b: Card, c: Card)
    requires a.id != b.id && a.id != c.id && b.id != c.id
    ensures Inv(SlideFromFirstOfThree(a, b, c))
    ensures var s2 := Step(SlideFromFirstOfThree(a, b, c), CardClicked);
            var s3 := Step(s2, TimerFired);
            && s2.isFlipped && s2.isTransitioning && !BackShownViewed(s2)
            && CurrentCard(s3) == b && s3.isFlipped && !HasViewedCurrentCard(s3)
            && ClickNext(s3) == s3 && !BackShownViewed(s3)
  {
    ReachSlideFromFirstOfThree(a, b, c);
    var s1 := SlideFromFirstOfThree(a, b, c);
    var s2 := Step(s1, CardClicked);
    assert s2 == s1.(isFlipped := true);
    var s3 := Step(s2, TimerFired);
    assert s3 == s2.(completedCards := {a.id}, currentIndex := 1, isTransitioning := false, nextCardIndex := None, timer := None);
    assert CurrentCard(s3) == b;
  }

  /** The Shuffle button disabled during a slide, like the Flip, Previous, Next and Finish buttons. */
  function ClickShuffleGated(s: State, swaps: seq<int>): (r: State)
    requires Inv(s) && ValidSwaps(swaps, |s.cards|)
    ensures Inv(r)
    ensures s.isTransitioning ==> r == s
    ensures !s.isTransitioning ==> r == ToggleShuffle(s, swaps) && r.timer.None?
  {
    if s.isTransitioning then s else ToggleShuffle(s, swaps)
  }

  /** One event with the Shuffle button gated, and the card taking clicks only when the Flip button would. */
  function FixedStep(s: State, e: Event): (r: State)
    requires Inv(s) && EventFits(e, |s.cards|)
    ensures Inv(r)
    ensures e.ShuffleClicked? ==> r == ClickShuffleGated(s, e.swaps)
    ensures e.CardClicked? ==> r == ClickFlip(s)
    ensures !e.ShuffleClicked? && !e.CardClicked? ==> r == Step(s, e)
  {
    match e
    case ShuffleClicked(swaps) => ClickShuffleGated(s, swaps)
    case CardClicked => ClickFlip(s)
    case _ => Step(s, e)
  }

  /**
   * With both gates, every reachable state is coherent: every commit completes the card the user left, and a
   * card shown on its back has been viewed.
   */
  lemma {:induction false} FixedStepKeepsCoherent(s: State, e: Event)
    requires Inv(s) && Coherent(s) && EventFits(e, |s.cards|)
    ensures Coherent(FixedStep(s, e))
  {
    match e
    case ShuffleClicked(swaps) =>
      if !s.isTransitioning {
        assert FixedStep(s, e) == ToggleShuffle(s, swaps);
      }
    case CardClicked =>
      assert FixedStep(s, e) == Step(s, FlipClicked);
      StepKeepsCommitAimedUnlessShuffled(s, FlipClicked);
      StepKeepsBackShownViewedUnlessCardClicked(s, FlipClicked);
    case _ =>
      StepKeepsCommitAimedUnlessShuffled(s, e);
      StepKeepsBackShownViewedUnlessCardClicked(s, e);
  }

  /** With the gate, the Shuffle click of `ShuffleDuringSlideOverridden` waits for the slide to end. */
  lemma GatedShuffleWaitsForSlide(a: Card, b: Card)
    requires a.id != b.id
    ensures Inv(SlideFromFirst(a, b))
    ensures FixedStep(SlideFromFirst(a, b), ShuffleClicked([0, 0])) == SlideFromFirst(a, b)
  {
    ReachSlideFromFirst(a, b);
  }

  /** With the gate, the card click of `CardClickDuringSlideShowsUnviewedBack` is let go, and B arrives front up. */
  lemma GatedCardClickShowsFront(a: Card, b: Card, c: Card)
    requires a.id != b.id && a.id != c.id && b.id != c.id
    ensures Inv(SlideFromFirstOfThree(a, b, c))
    ensures var s2 := FixedStep(SlideFromFirstOfThree(a, b, c), CardClicked);
            var s3 := FixedStep(s2, TimerFired);
            && s2 == SlideFromFirstOfThree(a, b, c)
            && CurrentCard(s3) == b && !s3.isFlipped && Coherent(s3)
  {
    ReachSlideFromFirstOfThree(a, b, c);
    var s1 := SlideFromFirstOfThree(a, b, c);
    var s3 := FixedStep(s1, TimerFired);
    assert s3 == s1.(completedCards := {a.id}, currentIndex := 1, isTransitioning := false, nextCardIndex := None, timer := None);
    assert CurrentCard(s3) == b;
  }

  /** The study page's cards, fetched for one deck, meet the controller's precondition whenever there are any. */
  lemma DeckCardsSuitSession(cards: map<int, Card>, deckId: int)
    requires CardsKeyed(cards) && CardQueries.GetCardCountByDeckId(cards, deckId) > 0
    ensures var cs := CardQueries.GetCardsByDeckId(cards, deckId); |cs| > 0 && DistinctIds(cs)
  {
  }

  // ---------------------------------------------------------------------------------------------------------
  // The component
  // ---------------------------------------------------------------------------------------------------------

  /**
   * The mounted component: its props, its state variables and the scheduled commit. Each method is one
   * handler or one entry point and leaves `Model()` where the transition function of the same name says.
   */
  class Controller {
    const cards: seq<Card>
    var isShuffled: bool
    var displayCards: seq<Card>
    var currentIndex: int
    var isFlipped: bool
    var completedCards: set<int>
    var viewedCards: set<int>
    var isTransitioning: bool
    var nextCardIndex: Option<int>
    var timer: Option<Pending>

    function Model(): State
      reads this
    {
      State(cards, isShuffled, displayCards, currentIndex, isFlipped, completedCards, viewedCards,
            isTransitioning, nextCardIndex, timer)
    }

    ghost predicate Valid()
      reads this
    {
      Inv(Model())
    }

    /** Mounting with the deck's cards; the page renders the session only for a non-empty deck. */
    constructor (deckCards: seq<Card>)
      requires |deckCards| > 0 && DistinctIds(deckCards)
      ensures Valid() && Model() == Init(deckCards)
    {
      cards := deckCards;
      isShuffled := false;
      displayCards := deckCards;
      currentIndex := 0;
      isFlipped := false;
      completedCards := {};
      viewedCards := {};
      isTransitioning := false;
      nextCardIndex := None;
      timer := None;
    }

    method HandleFlip()
      requires Valid()
      modifies this
      ensures Valid() && Model() == Flip(old(Model()))
    {
      var newFlipState := !isFlipped;
      isFlipped := newFlipState;
      if newFlipState {
        viewedCards := viewedCards + {displayCards[currentIndex].id};
      }
    }

    method HandleShuffle(swaps: seq<int>)
      requires Valid() && ValidSwaps(swaps, |cards|)
      modifies this
      ensures Valid() && Model() == ToggleShuffle(old(Model()), swaps)
    {
      ghost var after := ToggleShuffle(Model(), swaps);
      isShuffled := !isShuffled;
      if isShuffled {
        var order := ShuffleArray(cards, swaps);
        displayCards := order;
      } else {
        displayCards := cards;
      }
      assert displayCards == after.displayCards;
      currentIndex := 0;
      isFlipped := false;
      completedCards := {};
      viewedCards := {};
      assert Model() == after;
    }

    method HandleNext()
      requires Valid()
      modifies this
      ensures Valid() && Model() == Next(old(Model()))
    {
      if currentIndex == |displayCards| - 1 || isTransitioning {
        return;
      }
      isFlipped := false;
      nextCardIndex := Some(currentIndex + 1);
      isTransitioning := true;
      timer := Some(Forward(currentIndex, displayCards[currentIndex].id));
    }

    method HandlePrevious()
      requires Valid()
      modifies this
      ensures Valid() && Model() == Previous(old(Model()))
    {
      if currentIndex == 0 || isTransitioning {
        return;
      }
      isFlipped := false;
      nextCardIndex := Some(currentIndex - 1);
      isTransitioning := true;
      timer := Some(Backward(currentIndex));
    }

    /** The scheduled callback, run when its delay is over. */
    method FireTimer()
      requires Valid() && timer.Some?
      modifies this
      ensures Valid() && Model() == Commit(old(Model()))
    {
      match timer.value {
        case Forward(from, cardId) =>
          completedCards := completedCards + {cardId};
          currentIndex := from + 1;
        case Backward(from) =>
          currentIndex := from - 1;
      }
      isTransitioning := false;
      nextCardIndex := None;
      timer := None;
    }

    method HandleFinish()
      requires Valid()
      modifies this
      ensures Valid() && Model() == Finish(old(Model()))
    {
      completedCards := completedCards + {displayCards[currentIndex].id};
    }

    method HandleStartOver()
      requires Valid()
      modifies this
      ensures Valid() && Model() == StartOver(old(Model()))
    {
      currentIndex := 0;
      isFlipped := false;
      completedCards := {};
      viewedCards := {};
    }

    method OnCardClick()
      requires Valid()
      modifies this
      ensures Valid() && Model() == ClickCard(old(Model()))
    {
      if !IsSessionComplete(Model()) {
        HandleFlip();
      }
    }

    method OnFlipClick()
      requires Valid()
      modifies this
      ensures Valid() && Model() == ClickFlip(old(Model()))
    {
      if !IsSessionComplete(Model()) && !isTransitioning {
        HandleFlip();
      }
    }

    method OnPreviousClick()
      requires Valid()
      modifies this
      ensures Valid() && Model() == ClickPrevious(old(Model()))
    {
      if !IsSessionComplete(Model()) && !IsFirstCard(Model()) && !isTransitioning {
        HandlePrevious();
      }
    }

    method OnNextClick()
      requires Valid()
      modifies this
      ensures Valid() && Model() == ClickNext(old(Model()))
    {
      var s := Model();
      if !IsSessionComplete(s) && !IsLastCard(s) && HasViewedCurrentCard(s) && !isTransitioning {
        HandleNext();
      }
    }

    method OnFinishClick()
      requires Valid()
      modifies this
      ensures Valid() && Model() == ClickFinish(old(Model()))
    {
      if !IsSessionComplete(Model()) && IsLastCard(Model()) && !isTransitioning {
        HandleFinish();
      }
    }

    method OnShuffleClick(swaps: seq<int>)
      requires Valid() && ValidSwaps(swaps, |cards|)
      modifies this
      ensures Valid() && Model() == ClickShuffle(old(Model()), swaps)
    {
      HandleShuffle(swaps);
    }

    /** The Shuffle button with the correction: disabled during a slide. */
    method OnShuffleClickGated(swaps: seq<int>)
      requires Valid() && ValidSwaps(swaps, |cards|)
      modifies this
      ensures Valid() && Model() == ClickShuffleGated(old(Model()), swaps)
    {
      if !isTransitioning {
        HandleShuffle(swaps);
      }
    }

    method OnStartOverClick()
      requires Valid()
      modifies this
      ensures Valid() && Model() == ClickStartOver(old(Model()))
    {
      if IsSessionComplete(Model()) {
        HandleStartOver();
      }
    }

    method OnKeyDown(key: Key, inTextField: bool) returns (prevented: bool)
      requires Valid()
      modifies this
      ensures Valid() && (Model(), prevented) == KeyDown(old(Model()), key, inTextField)
    {
      var s := Model();
      if IsSessionComplete(s) || isTransitioning {
        return false;
      }
      if inTextField {
        return false;
      }
      match key
      case ArrowRight =>
        if !IsLastCard(s) && HasViewedCurrentCard(s) {
          prevented := true;
          HandleNext();
        } else {
          prevented := false;
        }
      case ArrowLeft =>
        if !IsFirstCard(s) {
          prevented := true;
          HandlePrevious();
        } else {
          prevented := false;
        }
      case ArrowUp | ArrowDown | Space =>
        prevented := true;
        HandleFlip();
      case OtherKey =>
        prevented := false;
    }
  }
}
