/** Memory Matching: sixteen face-down cards, eight icons twice each; flip two, keep a pair. */
module MemoryMatching {

  /** Eight icons, each on two cards. */
  const CardCount: nat := 8

  /** A card: its id and the index of its icon. */
  datatype Card = Card(id: nat, icon: nat)

  datatype Status = Ready | Playing | Won

  /** The deck before shuffling: ids 0..15 in order, card 2i and 2i+1 carry icon i. */
  function Deck(): (d: seq<Card>)
    ensures |d| == 2 * CardCount
    ensures forall k :: 0 <= k < |d| ==> d[k] == Card(k, k / 2)
  {
    seq(2 * CardCount, (k: nat) => Card(k, k / 2))
  }

  predicate Distinct<T(==)>(s: seq<T>)
  {
    forall i, j :: 0 <= i < j < |s| ==> s[i] != s[j]
  }

  /** The cards with positions i and j exchanged. */
  function Exchanged(s: seq<Card>, i: nat, j: nat): (r: seq<Card>)
    requires i < |s| && j < |s|
    ensures |r| == |s| && r[i] == s[j] && r[j] == s[i]
    ensures forall k :: 0 <= k < |s| && k != i && k != j ==> r[k] == s[k]
    ensures multiset(r) == multiset(s)
  {
    s[i := s[j]][j := s[i]]
  }

  /** The Fisher-Yates passes at positions n, n-1, ..., 1: position i is exchanged with
      swaps[i]. */
  function Shuffled(s: seq<Card>, swaps: seq<nat>, n: nat): (r: seq<Card>)
    requires n < |s| && |swaps| == |s|
    requires forall i :: 0 < i < |swaps| ==> swaps[i] <= i
    ensures |r| == |s| && multiset(r) == multiset(s)
    decreases n
  {
    if n == 0 then s else Shuffled(Exchanged(s, n, swaps[n]), swaps, n - 1)
  }

  /** `generateBoard`: the push loop building the pairs, then the Fisher-Yates shuffle, where
      swaps[i] is the random index drawn when the loop is at position i. */
  method GenerateBoard(swaps: seq<nat>) returns (board: seq<Card>)
    requires |swaps| == 2 * CardCount
    requires forall i :: 0 < i < |swaps| ==> swaps[i] <= i
    ensures board == Shuffled(Deck(), swaps, 2 * CardCount - 1)
    ensures |board| == 2 * CardCount
    ensures multiset(board) == multiset(Deck())
  {
    var cards: seq<Card> := [];
    var i := 0;
    while i < CardCount
      invariant 0 <= i <= CardCount
      invariant cards == Deck()[..2 * i]
    {
      cards := cards + [Card(i * 2, i), Card(i * 2 + 1, i)];
      i := i + 1;
    }
    assert cards == Deck();
    var a := new Card[|cards|](k requires 0 <= k < |cards| => cards[k]);
    assert a[..] == cards;
    var n := a.Length - 1;
    while n > 0
      invariant 0 <= n < a.Length
      invariant Shuffled(a[..], swaps, n) == Shuffled(cards, swaps, a.Length - 1)
    {
      var j := swaps[n];
      Swap(a, n, j);
      n := n - 1;
    }
    board := a[..];
  }

  method Swap(a: array<Card>, i: nat, j: nat)
    requires i < a.Length && j < a.Length
    modifies a
    ensures a[..] == Exchanged(old(a[..]), i, j)
    ensures multiset(a[..]) == old(multiset(a[..]))
  {
    a[i], a[j] := a[j], a[i];
  }

  /** A sequence without repeats counts every element at most once, and conversely. */
  lemma {:induction false} DistinctCounts<T>(s: seq<T>)
    ensures Distinct(s) <==> forall x :: multiset(s)[x] <= 1
  {
    if s != [] {
      DistinctCounts(s[1..]);
      assert s == [s[0]] + s[1..];
      if Distinct(s) {
        assert s[0] !in s[1..];
        assert Distinct(s[1..]);
      } else {
        var i, j :| 0 <= i < j < |s| && s[i] == s[j];
        if i == 0 {
          assert s[j] in s[1..];
          assert multiset(s)[s[0]] == multiset(s[1..])[s[0]] + 1;
        } else {
          assert s[1..][i - 1] == s[1..][j - 1];
          assert !Distinct(s[1..]);
        }
      }
      if !Distinct(s[1..]) {
        var x :| multiset(s[1..])[x] > 1;
        assert multiset(s)[x] >= multiset(s[1..])[x];
      }
      if s[0] in s[1..] {
        assert multiset(s)[s[0]] == multiset(s[1..])[s[0]] + 1;
      }
    }
  }

  /** Any shuffle of the deck: sixteen cards, ids 0..15 each once, and each icon on exactly the
      two cards whose ids are 2i and 2i+1. */
  lemma ShuffledDeck(board: seq<Card>)
    requires multiset(board) == multiset(Deck())
    ensures |board| == 2 * CardCount
    ensures forall k :: 0 <= k < |board| ==> board[k].id < 2 * CardCount && board[k].icon == board[k].id / 2
    ensures forall i, j :: 0 <= i < j < |board| ==> board[i].id != board[j].id
    ensures forall id :: 0 <= id < 2 * CardCount ==> HasCard(board, id)
  {
    assert |board| == |multiset(board)| == |multiset(Deck())| == |Deck()|;
    forall k | 0 <= k < |board|
      ensures board[k].id < 2 * CardCount && board[k].icon == board[k].id / 2
    {
      assert board[k] in multiset(board);
      assert board[k] in Deck();
    }
    assert Distinct(Deck());
    DistinctCounts(Deck());
    DistinctCounts(board);
    forall id | 0 <= id < 2 * CardCount
      ensures HasCard(board, id)
    {
      assert Deck()[id] in multiset(Deck());
      assert Deck()[id] in board;
    }
  }

  /** Some card of the board has this id. */
  ghost predicate HasCard(board: seq<Card>, id: nat)
  {
    exists k :: 0 <= k < |board| && board[k].id == id
  }

  /** Each icon lies on exactly two cards of a shuffled deck. */
  lemma IconTwice(board: seq<Card>, v: nat)
    requires multiset(board) == multiset(Deck()) && v < CardCount
    ensures exists i, j :: 0 <= i < j < |board| && board[i].icon == v && board[j].icon == v
              && forall k :: 0 <= k < |board| && board[k].icon == v ==> k == i || k == j
  {
    ShuffledDeck(board);
    assert HasCard(board, 2 * v) && HasCard(board, 2 * v + 1);
    var i :| 0 <= i < |board| && board[i].id == 2 * v;
    var j :| 0 <= j < |board| && board[j].id == 2 * v + 1;
    forall k | 0 <= k < |board| && board[k].icon == v ensures k == i || k == j {
      assert board[k].id == 2 * v || board[k].id == 2 * v + 1;
    }
    if i < j {
      assert board[i].icon == v && board[j].icon == v;
    } else {
      assert board[j].icon == v && board[i].icon == v;
      assert j < i;
    }
  }

  /** Matched indices come in consecutive pairs showing the same icon. */
  ghost predicate PairedUp(board: seq<Card>, matched: seq<nat>)
    requires forall k :: 0 <= k < |matched| ==> matched[k] < |board|
  {
    && |matched| % 2 == 0
    && forall k :: 0 <= k < |matched| / 2 ==> board[matched[2 * k]].icon == board[matched[2 * k + 1]].icon
  }

  class Game {
    var board: seq<Card>
    var flippedCards: seq<nat>
    var matchedCards: seq<nat>
    var moves: nat
    var status: Status

    /** Every invariant except the one the pair effect restores. */
    ghost predicate Consistent()
      reads this
    {
      && multiset(board) == multiset(Deck())
      && |board| == 2 * CardCount
      && (forall k :: 0 <= k < |flippedCards| ==> flippedCards[k] < |board|)
      && (forall k :: 0 <= k < |matchedCards| ==> matchedCards[k] < |board|)
      && |flippedCards| <= 2 && Distinct(flippedCards) && Distinct(matchedCards)
      && (forall k :: 0 <= k < |flippedCards| ==> flippedCards[k] !in matchedCards)
      && PairedUp(board, matchedCards)
      && (status == Won <==> |matchedCards| == |board|)
      && (status == Ready ==> flippedCards == [] && matchedCards == [] && moves == 0)
    }

    ghost predicate Valid()
      reads this
    {
      && Consistent()
      // a matching pair never stays face up: it moves to the matched list at once
      && (|flippedCards| == 2 ==> board[flippedCards[0]].icon != board[flippedCards[1]].icon)
    }

    /** `resetGame`, also run when the component mounts. */
    constructor (swaps: seq<nat>)
      requires |swaps| == 2 * CardCount
      requires forall i :: 0 < i < |swaps| ==> swaps[i] <= i
      ensures Valid()
      ensures board == Shuffled(Deck(), swaps, 2 * CardCount - 1)
      ensures multiset(board) == multiset(Deck())
      ensures flippedCards == [] && matchedCards == [] && moves == 0 && status == Ready
    {
      var b := GenerateBoard(swaps);
      board := b;
      flippedCards := [];
      matchedCards := [];
      moves := 0;
      status := Ready;
    }

    /** `resetGame`: a newly shuffled board and every counter back to the start. */
    method ResetGame(swaps: seq<nat>)
      requires |swaps| == 2 * CardCount
      requires forall i :: 0 < i < |swaps| ==> swaps[i] <= i
      modifies this
      ensures Valid()
      ensures board == Shuffled(Deck(), swaps, 2 * CardCount - 1)
      ensures multiset(board) == multiset(Deck())
      ensures flippedCards == [] && matchedCards == [] && moves == 0 && status == Ready
    {
      var b := GenerateBoard(swaps);
      board := b;
      flippedCards := [];
      matchedCards := [];
      moves := 0;
      status := Ready;
    }

    /** The pair-evaluation effect: two face-up cards are compared; a match moves both to the
        matched list and may win the game, a mismatch stays face up until `FlipBack`; either
        way the move counter goes up by one. */
    method EvaluatePair()
      requires Consistent()
      modifies this
      ensures Valid()
      ensures board == old(board)
      ensures |old(flippedCards)| != 2 ==>
                flippedCards == old(flippedCards) && matchedCards == old(matchedCards)
                && moves == old(moves) && status == old(status)
      ensures |old(flippedCards)| == 2 ==> moves == old(moves) + 1
      ensures |old(flippedCards)| == 2 && board[old(flippedCards)[0]].icon == board[old(flippedCards)[1]].icon ==>
                matchedCards == old(matchedCards) + old(flippedCards) && flippedCards == []
                && status == (if |old(matchedCards)| + 2 == |board| then Won else old(status))
      ensures |old(flippedCards)| == 2 && board[old(flippedCards)[0]].icon != board[old(flippedCards)[1]].icon ==>
                matchedCards == old(matchedCards) && flippedCards == old(flippedCards) && status == old(status)
    {
      if |flippedCards| == 2 {
        var first, second := flippedCards[0], flippedCards[1];
        if board[first].icon == board[second].icon {
          ghost var m := matchedCards;
          var before := |matchedCards|;
          matchedCards := matchedCards + [first, second];
          flippedCards := [];
          assert matchedCards[|m|] == first && matchedCards[|m| + 1] == second;
          assert forall k :: 0 <= k < |m| / 2 ==> matchedCards[2 * k] == m[2 * k] && matchedCards[2 * k + 1] == m[2 * k + 1];
          MatchedBound(matchedCards, |board|);
          if before + 2 == |board| {
            status := Won;
          }
        }
        moves := moves + 1;
      }
    }

    /** `handleCardClick` followed by the pair effect. A click after winning, with two cards
        already face up, or on a face-up or matched card changes nothing; otherwise the first
        click starts the game and the card is turned face up. */
    method HandleCardClick(index: nat)
      requires Valid() && index < |board|
      modifies this
      ensures Valid()
      ensures board == old(board)
      ensures old(status) == Won || |old(flippedCards)| == 2 || index in old(flippedCards)
              || index in old(matchedCards) ==>
                flippedCards == old(flippedCards) && matchedCards == old(matchedCards)
                && moves == old(moves) && status == old(status)
      ensures !(old(status) == Won || |old(flippedCards)| == 2 || index in old(flippedCards)
                || index in old(matchedCards)) ==>
                (old(status) == Ready ==> status == Playing)
                && (|old(flippedCards)| == 0 ==>
                      flippedCards == [index] && matchedCards == old(matchedCards)
                      && moves == old(moves) && status == Playing)
                && (|old(flippedCards)| == 1 ==>
                      moves == old(moves) + 1
                      && (var pair := old(flippedCards) + [index];
                          if board[pair[0]].icon == board[pair[1]].icon then
                            matchedCards == old(matchedCards) + pair && flippedCards == []
                            && status == (if |old(matchedCards)| + 2 == |board| then Won else Playing)
                          else
                            matchedCards == old(matchedCards) && flippedCards == pair && status == Playing))
    {
      if status == Won || |flippedCards| == 2 || index in flippedCards || index in matchedCards {
        return;
      }
      if status == Ready {
        status := Playing;
      }
      flippedCards := flippedCards + [index];
      EvaluatePair();
    }

    /** The delayed flip-back of a mismatched pair, as an explicit action. */
    method FlipBack()
      requires Valid()
      modifies this
      ensures Valid()
      ensures flippedCards == []
      ensures board == old(board) && matchedCards == old(matchedCards)
      ensures moves == old(moves) && status == old(status)
    {
      flippedCards := [];
    }
  }

  /** Distinct indices below n number at most n. */
  lemma {:induction false} MatchedBound(s: seq<nat>, n: nat)
    requires Distinct(s) && forall k :: 0 <= k < |s| ==> s[k] < n
    ensures |s| <= n
  {
    if s != [] {
      assert s[0] < n;
      if i :| 0 <= i < |s| && s[i] == n - 1 {
        var t := s[..i] + s[i + 1..];
        assert forall k :: 0 <= k < |t| ==> t[k] == (if k < i then s[k] else s[k + 1]);
        assert |t| == |s| - 1;
        MatchedBound(t, n - 1);
      } else {
        MatchedBound(s, n - 1);
      }
    }
  }
}
