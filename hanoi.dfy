/** Tower of Hanoi: three stacks of disks, the top of a stack being its last element. */
module TowerOfHanoi {
  import opened Common

  datatype Status = Playing | Won

  /** 2^n, the length of the shortest solution for n disks is Pow2(n) - 1. */
  function Pow2(n: nat): (r: nat)
    ensures r >= 1
  {
    if n == 0 then 1 else 2 * Pow2(n - 1)
  }

  /** The disks 0 .. n-1, each exactly once. */
  function AllDisks(n: nat): multiset<nat>
  {
    if n == 0 then multiset{} else AllDisks(n - 1) + multiset{n - 1}
  }

  /** A tower is legal when its disks get strictly smaller from bottom to top. */
  ghost predicate StrictlyDecreasing(t: seq<nat>)
  {
    forall i, j :: 0 <= i < j < |t| ==> t[i] > t[j]
  }

  /** Three legal towers that together hold the disks `disks`, each as often as it occurs there. */
  ghost predicate LegalTowers(towers: seq<seq<nat>>, disks: multiset<nat>)
  {
    && |towers| == 3
    && StrictlyDecreasing(towers[0])
    && StrictlyDecreasing(towers[1])
    && StrictlyDecreasing(towers[2])
    && Total(towers) == disks
  }

  /** The state invariant: three legal towers that together hold every disk exactly once. */
  ghost predicate ValidTowers(towers: seq<seq<nat>>, n: nat)
  {
    LegalTowers(towers, AllDisks(n))
  }

  /** `canMoveDisk`: the source tower is non-empty and its top disk is smaller than the
      destination's top, if the destination has one. */
  predicate CanMoveDisk(towers: seq<seq<nat>>, from: nat, to: nat)
    requires |towers| == 3 && from < 3 && to < 3
  {
    var src, dst := towers[from], towers[to];
    if |src| == 0 then false
    else if |dst| == 0 then true
    else src[|src| - 1] < dst[|dst| - 1]
  }

  /** Pop the top of `from` and push it onto `to`. */
  function Moved(towers: seq<seq<nat>>, from: nat, to: nat): (r: seq<seq<nat>>)
    requires |towers| == 3 && from < 3 && to < 3 && from != to && |towers[from]| > 0
    ensures |r| == 3
    ensures r[from] == towers[from][..|towers[from]| - 1]
    ensures r[to] == towers[to] + [towers[from][|towers[from]| - 1]]
    ensures forall k :: 0 <= k < 3 && k != from && k != to ==> r[k] == towers[k]
  {
    var src := towers[from];
    towers[from := src[..|src| - 1]][to := towers[to] + [src[|src| - 1]]]
  }

  lemma AllDisksSize(n: nat)
    ensures |AllDisks(n)| == n
  {
  }

  lemma {:induction false} AllDisksBound(n: nat, d: nat)
    requires d in AllDisks(n)
    ensures d < n
  {
    if n > 0 && d != n - 1 {
      AllDisksBound(n - 1, d);
    }
  }

  /** The disks on all three towers together. */
  function Total(towers: seq<seq<nat>>): multiset<nat>
    requires |towers| == 3
  {
    multiset(towers[0]) + multiset(towers[1]) + multiset(towers[2])
  }

  lemma PushKeepsDecreasing(t: seq<nat>, d: nat)
    requires StrictlyDecreasing(t)
    requires |t| > 0 ==> d < t[|t| - 1]
    ensures StrictlyDecreasing(t + [d])
  {
    forall i, j | 0 <= i < j < |t| + 1 ensures (t + [d])[i] > (t + [d])[j] {
      if j == |t| && i < |t| - 1 {
        assert t[i] > t[|t| - 1];
      }
    }
  }

  lemma TotalAfterMove(towers: seq<seq<nat>>, from: nat, to: nat)
    requires |towers| == 3 && from < 3 && to < 3 && from != to && |towers[from]| > 0
    ensures Total(Moved(towers, from, to)) == Total(towers)
  {
    var src := towers[from];
    var r := Moved(towers, from, to);
    assert src == r[from] + [src[|src| - 1]];
    assert multiset(src) == multiset(r[from]) + multiset{src[|src| - 1]};
    assert multiset(r[to]) == multiset(towers[to]) + multiset{src[|src| - 1]};
  }

  lemma PopKeepsDecreasing(t: seq<nat>)
    requires StrictlyDecreasing(t) && |t| > 0
    ensures StrictlyDecreasing(t[..|t| - 1])
  {
  }

  /** A legal move keeps every tower strictly decreasing and keeps the disk multiset. */
  lemma MovePreservesValid(towers: seq<seq<nat>>, n: nat, from: nat, to: nat)
    requires ValidTowers(towers, n) && from < 3 && to < 3
    requires CanMoveDisk(towers, from, to)
    ensures from != to
    ensures ValidTowers(Moved(towers, from, to), n)
  {
    var r := Moved(towers, from, to);
    TotalAfterMove(towers, from, to);
    TowerAfterMove(towers, n, from, to, 0);
    TowerAfterMove(towers, n, from, to, 1);
    TowerAfterMove(towers, n, from, to, 2);
  }

  lemma TowerAfterMove(towers: seq<seq<nat>>, n: nat, from: nat, to: nat, k: nat)
    requires ValidTowers(towers, n) && from < 3 && to < 3 && k < 3
    requires CanMoveDisk(towers, from, to)
    ensures from != to
    ensures StrictlyDecreasing(Moved(towers, from, to)[k])
  {
    var t := towers[k];
    assert StrictlyDecreasing(t) by {
      if k == 0 {} else if k == 1 {} else {}
    }
    var r := Moved(towers, from, to);
    if k == from {
      PopKeepsDecreasing(t);
    } else if k == to {
      var src := towers[from];
      PushKeepsDecreasing(t, src[|src| - 1]);
    }
  }

  /** Every disk on a legal set of towers is below n. */
  lemma DisksBelow(towers: seq<seq<nat>>, n: nat, k: nat)
    requires ValidTowers(towers, n) && k < 3
    ensures forall i :: 0 <= i < |towers[k]| ==> towers[k][i] < n
  {
    forall i | 0 <= i < |towers[k]| ensures towers[k][i] < n {
      assert towers[k][i] in multiset(towers[k]);
      assert towers[k][i] in Total(towers);
      AllDisksBound(n, towers[k][i]);
    }
  }

  /** A legal set of towers whose tower k holds all n disks holds them in order on k alone. */
  lemma FullTower(towers: seq<seq<nat>>, n: nat, k: nat)
    requires ValidTowers(towers, n) && k < 3 && |towers[k]| == n
    ensures towers[k] == Descending(n)
    ensures forall j :: 0 <= j < 3 && j != k ==> towers[j] == []
  {
    TotalSize(towers);
    AllDisksSize(n);
    assert |towers[0]| + |towers[1]| + |towers[2]| == n;
    forall j | 0 <= j < 3 && j != k ensures towers[j] == [] {
      assert |towers[j]| == 0;
    }
    DisksBelow(towers, n, k);
    DecreasingBelow(towers[k], n);
  }

  lemma TotalSize(towers: seq<seq<nat>>)
    requires |towers| == 3
    ensures |Total(towers)| == |towers[0]| + |towers[1]| + |towers[2]|
  {
    assert |multiset(towers[0])| == |towers[0]|;
    assert |multiset(towers[1])| == |towers[1]|;
    assert |multiset(towers[2])| == |towers[2]|;
  }

  /** The tower [n-1, ..., 1, 0], bottom first. */
  function Descending(n: nat): (r: seq<nat>)
    ensures |r| == n
    ensures forall i :: 0 <= i < n ==> r[i] == n - 1 - i
  {
    if n == 0 then [] else [n - 1] + Descending(n - 1)
  }

  lemma {:induction false} DescendingDisks(n: nat)
    ensures multiset(Descending(n)) == AllDisks(n)
    ensures StrictlyDecreasing(Descending(n))
  {
    if n > 0 {
      DescendingDisks(n - 1);
      assert Descending(n) == [n - 1] + Descending(n - 1);
    }
  }

  /** n strictly decreasing values below n are exactly n-1, ..., 0. */
  lemma DecreasingBelow(t: seq<nat>, n: nat)
    requires |t| == n && StrictlyDecreasing(t)
    requires forall i :: 0 <= i < n ==> t[i] < n
    ensures t == Descending(n)
  {
    forall i | 0 <= i < n ensures t[i] == n - 1 - i {
      StepsBelow(t, i);
      StepsAbove(t, i);
    }
  }

  lemma {:induction false} StepsBelow(t: seq<nat>, i: nat)
    requires StrictlyDecreasing(t) && i < |t|
    ensures t[i] >= |t| - 1 - i
    decreases |t| - i
  {
    if i + 1 < |t| {
      StepsBelow(t, i + 1);
    }
  }

  lemma {:induction false} StepsAbove(t: seq<nat>, i: nat)
    requires StrictlyDecreasing(t) && i < |t|
    requires forall j :: 0 <= j < |t| ==> t[j] < |t|
    ensures t[i] <= |t| - 1 - i
  {
    if i > 0 {
      StepsAbove(t, i - 1);
    }
  }

  /** The push loop of `initializeGame`: disks n-1 down to 0 onto an empty tower. */
  method FillFirstTower(diskCount: nat) returns (t: seq<nat>)
    ensures t == Descending(diskCount)
  {
    t := [];
    var i: int := diskCount - 1;
    while i >= 0
      invariant -1 <= i < diskCount
      invariant |t| == diskCount - 1 - i
      invariant forall k :: 0 <= k < |t| ==> t[k] == diskCount - 1 - k
    {
      t := t + [i];
      i := i - 1;
    }
  }

  /** The component's invariant over its state variables. */
  ghost predicate GameState(towers: seq<seq<nat>>, numDisks: nat, selected: Option<nat>, status: Status,
                            minMoves: nat)
  {
    && ValidTowers(towers, numDisks)
    && minMoves == Pow2(numDisks) - 1
    && (selected.Some? ==> selected.value < 3)
    && (status == Won ==> |towers[2]| == numDisks)
  }

  /** A legal move keeps the invariant, with the status `moveDisk` sets. */
  lemma MoveKeepsState(towers: seq<seq<nat>>, n: nat, selected: Option<nat>, minMoves: nat,
                       from: nat, to: nat)
    requires GameState(towers, n, selected, Playing, minMoves) && from < 3 && to < 3
    requires CanMoveDisk(towers, from, to)
    ensures from != to
    ensures var r := Moved(towers, from, to);
      (|r[2]| == n ==> GameState(r, n, selected, Won, minMoves)) &&
      (|r[2]| != n ==> GameState(r, n, selected, Playing, minMoves))
  {
    MovePreservesValid(towers, n, from, to);
  }

  /** The state `initializeGame` sets up. */
  lemma StartState(n: nat)
    ensures GameState([Descending(n), [], []], n, None, Playing, Pow2(n) - 1)
  {
    DescendingDisks(n);
    assert Total([Descending(n), [], []]) == multiset(Descending(n));
  }

  class Game {
    var numDisks: nat
    var towers: seq<seq<nat>>
    var selectedTower: Option<nat>
    var moves: nat
    var status: Status
    var minMoves: nat

    ghost predicate Valid()
      reads this
    {
      GameState(towers, numDisks, selectedTower, status, minMoves)
    }

    /** `initializeGame(diskCount)`, run when the component mounts. */
    constructor (diskCount: nat)
      ensures Valid()
      ensures numDisks == diskCount && towers == [Descending(diskCount), [], []]
      ensures moves == 0 && selectedTower == None && status == Playing
      ensures minMoves == Pow2(diskCount) - 1
    {
      var first := FillFirstTower(diskCount);
      StartState(diskCount);
      numDisks := diskCount;
      towers := [first, [], []];
      selectedTower := None;
      moves := 0;
      status := Playing;
      minMoves := Pow2(diskCount) - 1;
    }

    /** `initializeGame(diskCount)`, run by reset and by choosing another disk count. */
    method InitializeGame(diskCount: nat)
      modifies this
      ensures Valid()
      ensures numDisks == diskCount && towers == [Descending(diskCount), [], []]
      ensures moves == 0 && selectedTower == None && status == Playing
      ensures minMoves == Pow2(diskCount) - 1
    {
      var first := FillFirstTower(diskCount);
      StartState(diskCount);
      numDisks := diskCount;
      towers := [first, [], []];
      selectedTower := None;
      moves := 0;
      status := Playing;
      minMoves := Pow2(diskCount) - 1;
    }

    /** `moveDisk`: an illegal move changes nothing; a legal one moves the top disk, counts
        the move and declares the game won once tower 2 holds every disk. Its only caller,
        the click handler, never calls it after the game is won. */
    method MoveDisk(from: nat, to: nat)
      requires Valid() && from < 3 && to < 3 && status == Playing
      modifies this
      ensures Valid()
      ensures numDisks == old(numDisks) && minMoves == old(minMoves)
      ensures selectedTower == old(selectedTower)
      ensures !old(CanMoveDisk(towers, from, to)) ==>
                towers == old(towers) && moves == old(moves) && status == old(status)
      ensures old(CanMoveDisk(towers, from, to)) ==>
                from != to
                && towers == Moved(old(towers), from, to)
                && moves == old(moves) + 1
                && status == (if |towers[2]| == numDisks then Won else Playing)
    {
      if !CanMoveDisk(towers, from, to) {
        return;
      }
      MoveKeepsState(towers, numDisks, selectedTower, minMoves, from, to);
      var newTowers := Moved(towers, from, to);
      towers := newTowers;
      moves := moves + 1;
      if |newTowers[2]| == numDisks {
        status := Won;
      }
    }

    /** `handleTowerClick`: select a non-empty tower, deselect it, or try the move and clear
        the selection. Nothing happens once the game is won. */
    method HandleTowerClick(towerIndex: nat)
      requires Valid() && towerIndex < 3
      modifies this
      ensures Valid()
      ensures numDisks == old(numDisks) && minMoves == old(minMoves)
      ensures old(status) == Won ==>
                towers == old(towers) && moves == old(moves) && status == Won
                && selectedTower == old(selectedTower)
      ensures old(status) == Playing && old(selectedTower) == None ==>
                towers == old(towers) && moves == old(moves) && status == Playing
                && selectedTower == (if |towers[towerIndex]| > 0 then Some(towerIndex) else None)
      ensures old(status) == Playing && old(selectedTower) == Some(towerIndex) ==>
                towers == old(towers) && moves == old(moves) && status == Playing
                && selectedTower == None
      ensures old(status) == Playing && old(selectedTower).Some? && old(selectedTower) != Some(towerIndex) ==>
                selectedTower == None
                && (var from := old(selectedTower).value;
                    if old(CanMoveDisk(towers, from, towerIndex)) then
                      towers == Moved(old(towers), from, towerIndex) && moves == old(moves) + 1
                      && status == (if |towers[2]| == numDisks then Won else Playing)
                    else
                      towers == old(towers) && moves == old(moves) && status == Playing)
    {
      if status == Won {
        return;
      }
      if selectedTower == None {
        if |towers[towerIndex]| > 0 {
          selectedTower := Some(towerIndex);
        }
      } else if selectedTower == Some(towerIndex) {
        selectedTower := None;
      } else {
        var from := selectedTower.value;
        if CanMoveDisk(towers, from, towerIndex) {
          MoveDisk(from, towerIndex);
        }
        selectedTower := None;
      }
    }

    /** Once won, the towers are in their final position: every disk on tower 2, in order. */
    lemma WonIsSolved()
      requires Valid() && status == Won
      ensures towers == [[], [], Descending(numDisks)]
    {
      FullTower(towers, numDisks, 2);
    }
  }
}
