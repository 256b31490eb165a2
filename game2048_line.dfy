/** 2048's line operations: slide the tiles of one row or column together, merge equal
    neighbours once, slide again. */
module Line2048 {

  const GridSize: nat := 4

  /** The tile value a merge must produce to win. */
  const WinningTile: nat := 2048

  /** `slideArray`'s filter: the non-zero values in their original order. */
  function NonZeros(s: seq<nat>): (r: seq<nat>)
    ensures |r| <= |s|
    ensures forall k :: 0 <= k < |r| ==> r[k] != 0
  {
    if s == [] then []
    else if s[0] == 0 then NonZeros(s[1..])
    else [s[0]] + NonZeros(s[1..])
  }

  function Zeros(n: nat): (r: seq<nat>)
    ensures |r| == n && forall k :: 0 <= k < n ==> r[k] == 0
  {
    seq(n, _ => 0)
  }

  /** `slideArray`: the non-zero values first, in order, then zeros up to the grid size. */
  function SlideArray(arr: seq<nat>): (r: seq<nat>)
    requires |arr| == GridSize
    ensures |r| == GridSize
  {
    NonZeros(arr) + Zeros(GridSize - |NonZeros(arr)|)
  }

  /** No zero comes before a non-zero. */
  predicate Packed(s: seq<nat>)
  {
    forall i, j :: 0 <= i < j < |s| && s[i] == 0 ==> s[j] == 0
  }

  function Sum(s: seq<nat>): nat
  {
    if s == [] then 0 else s[0] + Sum(s[1..])
  }

  lemma {:induction false} NonZerosAppendZeros(s: seq<nat>, n: nat)
    ensures NonZeros(s + Zeros(n)) == NonZeros(s)
  {
    if s == [] {
      ZerosHaveNoNonZeros(n);
      assert s + Zeros(n) == Zeros(n);
    } else {
      assert (s + Zeros(n))[1..] == s[1..] + Zeros(n);
      NonZerosAppendZeros(s[1..], n);
    }
  }

  lemma {:induction false} ZerosHaveNoNonZeros(n: nat)
    ensures NonZeros(Zeros(n)) == []
  {
    if n > 0 {
      assert Zeros(n)[1..] == Zeros(n - 1);
      ZerosHaveNoNonZeros(n - 1);
    }
  }

  lemma {:induction false} NonZerosOfNonZeros(s: seq<nat>)
    ensures NonZeros(NonZeros(s)) == NonZeros(s)
  {
    if s != [] {
      NonZerosOfNonZeros(s[1..]);
      if s[0] != 0 {
        assert ([s[0]] + NonZeros(s[1..]))[1..] == NonZeros(s[1..]);
      }
    }
  }

  lemma {:induction false} SumAppend(a: seq<nat>, b: seq<nat>)
    ensures Sum(a + b) == Sum(a) + Sum(b)
  {
    if a == [] {
      assert a + b == b;
    } else {
      assert (a + b)[0] == a[0];
      assert (a + b)[1..] == a[1..] + b;
      SumAppend(a[1..], b);
    }
  }

  lemma SumPair(x: nat, y: nat)
    ensures Sum([x, y]) == x + y
  {
    assert [x, y][1..] == [y];
    assert [y][1..] == [];
    assert Sum([y]) == y + Sum([]);
    assert Sum([x, y]) == x + Sum([y]);
  }

  lemma {:induction false} SumZeros(n: nat)
    ensures Sum(Zeros(n)) == 0
  {
    if n > 0 {
      assert Zeros(n)[1..] == Zeros(n - 1);
      SumZeros(n - 1);
    }
  }

  lemma {:induction false} SumNonZeros(s: seq<nat>)
    ensures Sum(NonZeros(s)) == Sum(s)
  {
    if s != [] {
      SumNonZeros(s[1..]);
      if s[0] != 0 {
        assert ([s[0]] + NonZeros(s[1..]))[1..] == NonZeros(s[1..]);
      }
    }
  }

  /** Sliding keeps the non-zero values in order, packs them first, keeps the tile sum and
      is idempotent. */
  lemma SlideArrayFacts(arr: seq<nat>)
    requires |arr| == GridSize
    ensures NonZeros(SlideArray(arr)) == NonZeros(arr)
    ensures Packed(SlideArray(arr))
    ensures Sum(SlideArray(arr)) == Sum(arr)
    ensures SlideArray(SlideArray(arr)) == SlideArray(arr)
  {
    var nz := NonZeros(arr);
    var z := Zeros(GridSize - |nz|);
    NonZerosAppendZeros(nz, GridSize - |nz|);
    NonZerosOfNonZeros(arr);
    SumAppend(nz, z);
    SumZeros(GridSize - |nz|);
    SumNonZeros(arr);
  }

  /** One pass of `combineArray` from index i on. */
  datatype Combined = Combined(line: seq<nat>, score: nat, reached2048: bool)

  /** The combine loop from position i: an equal non-zero pair at (i, i+1) becomes (2v, 0);
      the score collects the doubled values; the flag records a merge that made 2048. */
  function CombineFrom(s: seq<nat>, i: nat): (r: Combined)
    requires |s| == GridSize
    ensures |r.line| == GridSize
    ensures Sum(r.line) == Sum(s)
    decreases |s| - i
  {
    if i + 1 >= |s| then Combined(s, 0, false)
    else if s[i] != 0 && s[i] == s[i + 1] then
      var t := s[i := 2 * s[i]][i + 1 := 0];
      SumMerge(s, i);
      var rest := CombineFrom(t, i + 1);
      Combined(rest.line, 2 * s[i] + rest.score, 2 * s[i] == WinningTile || rest.reached2048)
    else CombineFrom(s, i + 1)
  }

  /** Replacing the pair (v, v) at i by (2v, 0) keeps the sum. */
  lemma {:induction false} SumMerge(s: seq<nat>, i: nat)
    requires i + 1 < |s| && s[i] == s[i + 1]
    ensures Sum(s[i := 2 * s[i]][i + 1 := 0]) == Sum(s)
  {
    var t := s[i := 2 * s[i]][i + 1 := 0];
    assert s == s[..i] + [s[i], s[i + 1]] + s[i + 2..];
    assert t == s[..i] + [2 * s[i], 0] + s[i + 2..];
    SumAppend(s[..i] + [s[i], s[i + 1]], s[i + 2..]);
    SumAppend(s[..i], [s[i], s[i + 1]]);
    SumAppend(s[..i] + [2 * s[i], 0], s[i + 2..]);
    SumAppend(s[..i], [2 * s[i], 0]);
    SumPair(s[i], s[i + 1]);
    SumPair(2 * s[i], 0);
  }

  /** `combineArray`, in place on the array. */
  method CombineArray(arr: array<nat>) returns (newScore: nat, reached2048: bool)
    requires arr.Length == GridSize
    modifies arr
    ensures arr[..] == CombineFrom(old(arr[..]), 0).line
    ensures newScore == CombineFrom(old(arr[..]), 0).score
    ensures reached2048 == CombineFrom(old(arr[..]), 0).reached2048
  {
    newScore, reached2048 := 0, false;
    var i := 0;
    while i < GridSize - 1
      invariant 0 <= i <= GridSize - 1
      invariant CombineFrom(old(arr[..]), 0).line == CombineFrom(arr[..], i).line
      invariant CombineFrom(old(arr[..]), 0).score == newScore + CombineFrom(arr[..], i).score
      invariant CombineFrom(old(arr[..]), 0).reached2048 == (reached2048 || CombineFrom(arr[..], i).reached2048)
    {
      if arr[i] != 0 && arr[i] == arr[i + 1] {
        arr[i] := arr[i] * 2;
        arr[i + 1] := 0;
        newScore := newScore + arr[i];
        if arr[i] == WinningTile {
          reached2048 := true;
        }
      }
      i := i + 1;
    }
  }

  /** One line through slide, combine, slide. */
  function ProcessLine(arr: seq<nat>): (r: Combined)
    requires |arr| == GridSize
    ensures |r.line| == GridSize
  {
    var c := CombineFrom(SlideArray(arr), 0);
    Combined(SlideArray(c.line), c.score, c.reached2048)
  }

  /** A processed line keeps the tile sum and has every non-zero before every zero. */
  lemma ProcessLineFacts(arr: seq<nat>)
    requires |arr| == GridSize
    ensures Sum(ProcessLine(arr).line) == Sum(arr)
    ensures Packed(ProcessLine(arr).line)
  {
    var c := CombineFrom(SlideArray(arr), 0);
    SlideArrayFacts(arr);
    SlideArrayFacts(c.line);
  }

  /** [2,2,0,0] becomes [4,0,0,0] and scores 4. */
  lemma ExamplePair()
    ensures ProcessLine([2, 2, 0, 0]) == Combined([4, 0, 0, 0], 4, false)
  {
    assert NonZeros([0]) == [] by { assert [0][1..] == []; }
    assert NonZeros([0, 0]) == [] by { assert [0, 0][1..] == [0]; }
    assert NonZeros([2, 0, 0]) == [2] by { assert [2, 0, 0][1..] == [0, 0]; }
    assert NonZeros([2, 2, 0, 0]) == [2, 2] by { assert [2, 2, 0, 0][1..] == [2, 0, 0]; }
    assert SlideArray([2, 2, 0, 0]) == [2, 2, 0, 0];
    assert CombineFrom([4, 0, 0, 0], 1) == Combined([4, 0, 0, 0], 0, false);
    assert [2, 2, 0, 0][0 := 4][1 := 0] == [4, 0, 0, 0];
    assert CombineFrom([2, 2, 0, 0], 0) == Combined([4, 0, 0, 0], 4, false);
    assert NonZeros([0, 0, 0]) == [] by { assert [0, 0, 0][1..] == [0, 0]; }
    assert NonZeros([4, 0, 0, 0]) == [4] by { assert [4, 0, 0, 0][1..] == [0, 0, 0]; }
  }

  /** [2,2,2,2] becomes [4,4,0,0] and scores 8: pairs merge, never three tiles. */
  lemma ExampleFour()
    ensures ProcessLine([2, 2, 2, 2]) == Combined([4, 4, 0, 0], 8, false)
  {
    assert NonZeros([2]) == [2] by { assert [2][1..] == []; }
    assert NonZeros([2, 2]) == [2, 2] by { assert [2, 2][1..] == [2]; }
    assert NonZeros([2, 2, 2]) == [2, 2, 2] by { assert [2, 2, 2][1..] == [2, 2]; }
    assert NonZeros([2, 2, 2, 2]) == [2, 2, 2, 2] by { assert [2, 2, 2, 2][1..] == [2, 2, 2]; }
    assert SlideArray([2, 2, 2, 2]) == [2, 2, 2, 2];
    assert CombineFrom([4, 0, 4, 0], 3) == Combined([4, 0, 4, 0], 0, false);
    assert [4, 0, 2, 2][2 := 4][3 := 0] == [4, 0, 4, 0];
    assert CombineFrom([4, 0, 2, 2], 2) == Combined([4, 0, 4, 0], 4, false);
    assert CombineFrom([4, 0, 2, 2], 1) == Combined([4, 0, 4, 0], 4, false);
    assert [2, 2, 2, 2][0 := 4][1 := 0] == [4, 0, 2, 2];
    assert CombineFrom([2, 2, 2, 2], 0) == Combined([4, 0, 4, 0], 8, false);
    assert NonZeros([0]) == [] by { assert [0][1..] == []; }
    assert NonZeros([4, 0]) == [4] by { assert [4, 0][1..] == [0]; }
    assert NonZeros([0, 4, 0]) == [4] by { assert [0, 4, 0][1..] == [4, 0]; }
    assert NonZeros([4, 0, 4, 0]) == [4, 4] by { assert [4, 0, 4, 0][1..] == [0, 4, 0]; }
  }

  /** Reference definition of one move on a line's non-zero tiles: walk left to right, merge
      the first two tiles when they are equal and continue after them, otherwise keep the
      first tile and continue after it. */
  function MergePairs(t: seq<nat>): (r: Combined)
    ensures |r.line| <= |t|
  {
    if |t| < 2 then Combined(t, 0, false)
    else if t[0] == t[1] then
      var rest := MergePairs(t[2..]);
      Combined([2 * t[0]] + rest.line, 2 * t[0] + rest.score, 2 * t[0] == WinningTile || rest.reached2048)
    else
      var rest := MergePairs(t[1..]);
      Combined([t[0]] + rest.line, rest.score, rest.reached2048)
  }

  predicate ZeroFree(t: seq<nat>)
  {
    forall k :: 0 <= k < |t| ==> t[k] != 0
  }

  lemma {:induction false} NonZerosAppend(a: seq<nat>, b: seq<nat>)
    ensures NonZeros(a + b) == NonZeros(a) + NonZeros(b)
  {
    if a == [] {
      assert a + b == b;
    } else {
      assert (a + b)[0] == a[0];
      assert (a + b)[1..] == a[1..] + b;
      NonZerosAppend(a[1..], b);
    }
  }

  lemma {:induction false} NonZerosOfZeroFree(t: seq<nat>)
    requires ZeroFree(t)
    ensures NonZeros(t) == t
  {
    if t != [] {
      NonZerosOfZeroFree(t[1..]);
    }
  }

  /** The combine loop from position i never touches the cells before i. */
  lemma {:induction false} CombineFromFrame(s: seq<nat>, i: nat)
    requires |s| == GridSize && i <= GridSize
    ensures CombineFrom(s, i).line[..i] == s[..i]
    decreases GridSize - i
  {
    if i >= GridSize - 1 {
    } else if s[i] != 0 && s[i] == s[i + 1] {
      var t := s[i := 2 * s[i]][i + 1 := 0];
      CombineFromFrame(t, i + 1);
      assert CombineFrom(t, i + 1).line[..i] == CombineFrom(t, i + 1).line[..i + 1][..i];
    } else {
      CombineFromFrame(s, i + 1);
      assert CombineFrom(s, i + 1).line[..i] == CombineFrom(s, i + 1).line[..i + 1][..i];
    }
  }

  /** The combine loop from position i, on a line whose part from i is zero-free tiles T
      followed by zeros, turns the part from i into MergePairs(T), padded with zeros. */
  lemma {:induction false} CombineFromIsMergePairs(s: seq<nat>, i: nat, t: seq<nat>, m: nat)
    requires |s| == GridSize && i <= GridSize
    requires ZeroFree(t) && s[i..] == t + Zeros(m)
    ensures NonZeros(CombineFrom(s, i).line[i..]) == MergePairs(t).line
    ensures CombineFrom(s, i).score == MergePairs(t).score
    ensures CombineFrom(s, i).reached2048 == MergePairs(t).reached2048
    decreases GridSize - i, 2
  {
    if i >= GridSize - 1 {
      assert |t| <= 1;
      NonZerosAppendZeros(t, m);
      NonZerosOfZeroFree(t);
    } else if |t| <= 1 || t[0] != t[1] {
      KeepStep(s, i, t, m);
    } else {
      MergeStep(s, i, t, m);
    }
  }

  /** The step where the tile at i does not merge with the next one. */
  lemma {:induction false} KeepStep(s: seq<nat>, i: nat, t: seq<nat>, m: nat)
    requires |s| == GridSize && i < GridSize - 1
    requires ZeroFree(t) && s[i..] == t + Zeros(m)
    requires |t| <= 1 || t[0] != t[1]
    ensures NonZeros(CombineFrom(s, i).line[i..]) == MergePairs(t).line
    ensures CombineFrom(s, i).score == MergePairs(t).score
    ensures CombineFrom(s, i).reached2048 == MergePairs(t).reached2048
    decreases GridSize - i, 1
  {
    KeepShape(s, i, t, m);
    if |t| == 0 {
      assert s[i + 1..] == [] + Zeros(m - 1);
      CombineFromIsMergePairs(s, i + 1, [], m - 1);
    } else {
      CombineFromIsMergePairs(s, i + 1, t[1..], m);
      if |t| == 1 {
        assert [t[0]] + t[1..] == t;
      }
    }
    CombineFromFrame(s, i + 1);
    HeadStep(CombineFrom(s, i + 1).line, s, i);
  }

  /** Where the kept tile sits, and that the loop moves past it. */
  lemma KeepShape(s: seq<nat>, i: nat, t: seq<nat>, m: nat)
    requires |s| == GridSize && i < GridSize - 1
    requires ZeroFree(t) && s[i..] == t + Zeros(m)
    requires |t| <= 1 || t[0] != t[1]
    ensures s[i] == (if |t| == 0 then 0 else t[0])
    ensures |t| == 0 ==> m > 0 && s[i + 1..] == Zeros(m - 1)
    ensures |t| > 0 ==> s[i + 1..] == t[1..] + Zeros(m)
    ensures CombineFrom(s, i) == CombineFrom(s, i + 1)
  {
    assert s[i] == s[i..][0];
    assert s[i + 1..] == s[i..][1..];
    assert s[i + 1] == s[i + 1..][0];
  }

  /** The step where the tile at i merges with the next one. */
  lemma {:induction false} MergeStep(s: seq<nat>, i: nat, t: seq<nat>, m: nat)
    requires |s| == GridSize && i < GridSize - 1
    requires ZeroFree(t) && s[i..] == t + Zeros(m)
    requires |t| >= 2 && t[0] == t[1]
    ensures NonZeros(CombineFrom(s, i).line[i..]) == MergePairs(t).line
    ensures CombineFrom(s, i).score == MergePairs(t).score
    ensures CombineFrom(s, i).reached2048 == MergePairs(t).reached2048
    decreases GridSize - i, 1
  {
    MergeShape(s, i, t, m);
    MergeUnfold(s, i);
    var s' := s[i := 2 * s[i]][i + 1 := 0];
    CombineFromIsMergePairs(s', i + 2, t[2..], m);
    MergedHead(s', i);
  }

  /** A merge at i is followed by the loop from i + 2: the emptied cell at i + 1 cannot merge. */
  lemma MergeUnfold(s: seq<nat>, i: nat)
    requires |s| == GridSize && i < GridSize - 1 && s[i] != 0 && s[i] == s[i + 1]
    ensures var rest := CombineFrom(s[i := 2 * s[i]][i + 1 := 0], i + 2);
      CombineFrom(s, i) == Combined(rest.line, 2 * s[i] + rest.score, 2 * s[i] == WinningTile || rest.reached2048)
  {
    var s' := s[i := 2 * s[i]][i + 1 := 0];
    assert CombineFrom(s', i + 1) == CombineFrom(s', i + 2) by {
      assert s'[i + 1] == 0;
    }
  }

  /** Where the merging pair sits in a line whose part from i is T followed by zeros. */
  lemma MergeShape(s: seq<nat>, i: nat, t: seq<nat>, m: nat)
    requires |s| == GridSize && i < GridSize - 1
    requires s[i..] == t + Zeros(m) && |t| >= 2
    ensures s[i] == t[0] && s[i + 1] == t[1]
    ensures s[i := 2 * s[i]][i + 1 := 0][i + 2..] == t[2..] + Zeros(m)
  {
    assert s[i] == s[i..][0] && s[i + 1] == s[i..][1];
    assert s[i := 2 * s[i]][i + 1 := 0][i + 2..] == s[i + 2..] == s[i..][2..];
  }

  /** After a merge at i, the merged tile heads the non-zero values from i on, and the emptied
      cell at i + 1 adds nothing. */
  lemma MergedHead(s: seq<nat>, i: nat)
    requires |s| == GridSize && i < GridSize - 1 && s[i] != 0 && s[i + 1] == 0
    ensures var line := CombineFrom(s, i + 2).line;
      NonZeros(line[i..]) == [s[i]] + NonZeros(line[i + 2..])
  {
    var line := CombineFrom(s, i + 2).line;
    CombineFromFrame(s, i + 2);
    HeadStep(line, s, i + 1);
    HeadStep(line, s, i);
  }

  /** A line that agrees with s before j + 1 starts its part from j with s[j]. */
  lemma {:induction false} HeadStep(line: seq<nat>, s: seq<nat>, j: nat)
    requires j < |line| == |s| && line[..j + 1] == s[..j + 1]
    ensures NonZeros(line[j..]) == (if s[j] == 0 then [] else [s[j]]) + NonZeros(line[j + 1..])
  {
    assert line[j] == line[..j + 1][j];
    assert line[j..][0] == s[j];
    assert line[j..][1..] == line[j + 1..];
  }

  /** Processing a line is MergePairs on its non-zero tiles, padded with zeros: each equal
      adjacent pair merges once, left to right, a merged tile never merges again in the same
      move, and the score is the sum of the merged values. */
  lemma ProcessLineIsMergePairs(arr: seq<nat>)
    requires |arr| == GridSize
    ensures var m := MergePairs(NonZeros(arr));
            ProcessLine(arr) == Combined(m.line + Zeros(GridSize - |m.line|), m.score, m.reached2048)
  {
    var t := NonZeros(arr);
    var c := CombineFrom(SlideArray(arr), 0);
    assert SlideArray(arr)[0..] == t + Zeros(GridSize - |t|);
    CombineFromIsMergePairs(SlideArray(arr), 0, t, GridSize - |t|);
    assert c.line[0..] == c.line;
  }

  /** 1, 2, 4, 8, ... */
  predicate IsPowerOfTwo(n: nat)
    decreases n
  {
    n == 1 || (n >= 2 && n % 2 == 0 && IsPowerOfTwo(n / 2))
  }

  /** A cell holds nothing (0) or a tile 2, 4, 8, ... */
  predicate IsTile(v: nat)
  {
    v == 0 || (v >= 2 && IsPowerOfTwo(v))
  }

  predicate AllTiles(s: seq<nat>)
  {
    forall k :: 0 <= k < |s| ==> IsTile(s[k])
  }

  lemma {:induction false} NonZerosTiles(a: seq<nat>)
    requires AllTiles(a)
    ensures AllTiles(NonZeros(a))
  {
    if a != [] {
      NonZerosTiles(a[1..]);
    }
  }

  lemma {:induction false} MergePairsTiles(t: seq<nat>)
    requires AllTiles(t)
    ensures AllTiles(MergePairs(t).line)
    decreases |t|
  {
    if |t| < 2 {
    } else if t[0] == t[1] {
      MergePairsTiles(t[2..]);
      var v := 2 * t[0];
      assert IsTile(t[0]);
      assert v / 2 == t[0];
      assert IsTile(v);
      var r := MergePairs(t);
      assert r.line == [v] + MergePairs(t[2..]).line;
      assert forall k :: 1 <= k < |r.line| ==> r.line[k] == MergePairs(t[2..]).line[k - 1];
    } else {
      MergePairsTiles(t[1..]);
      var r := MergePairs(t);
      assert r.line == [t[0]] + MergePairs(t[1..]).line;
      assert forall k :: 1 <= k < |r.line| ==> r.line[k] == MergePairs(t[1..]).line[k - 1];
    }
  }

  /** A move turns a line of tiles into a line of tiles: two equal powers of two make the next one. */
  lemma ProcessLineTiles(arr: seq<nat>)
    requires |arr| == GridSize && AllTiles(arr)
    ensures AllTiles(ProcessLine(arr).line)
  {
    ProcessLineIsMergePairs(arr);
    NonZerosTiles(arr);
    MergePairsTiles(NonZeros(arr));
  }

  /** No two neighbouring cells of the line hold the same value. */
  predicate NoAdjacentEqual(t: seq<nat>)
  {
    forall k :: 0 <= k < |t| - 1 ==> t[k] != t[k + 1]
  }

  lemma {:induction false} MergePairsIdentity(t: seq<nat>)
    requires NoAdjacentEqual(t)
    ensures MergePairs(t) == Combined(t, 0, false)
    decreases |t|
  {
    if |t| >= 2 {
      assert t[0] != t[1];
      MergePairsIdentity(t[1..]);
      assert [t[0]] + t[1..] == t;
    }
  }

  /** On zero-free tiles, MergePairs scores nothing exactly when it leaves the tiles as they
      are; reaching 2048 takes a merge; and the result is zero-free again. */
  lemma {:induction false} MergePairsNoMerge(t: seq<nat>)
    requires ZeroFree(t)
    ensures MergePairs(t).score == 0 <==> MergePairs(t).line == t
    ensures MergePairs(t).reached2048 ==> MergePairs(t).score > 0
    ensures ZeroFree(MergePairs(t).line)
    decreases |t|
  {
    var r := MergePairs(t);
    if |t| < 2 {
    } else if t[0] == t[1] {
      MergePairsNoMerge(t[2..]);
      assert r.line == [2 * t[0]] + MergePairs(t[2..]).line;
      assert |r.line| < |t|;
      assert forall k :: 1 <= k < |r.line| ==> r.line[k] == MergePairs(t[2..]).line[k - 1];
    } else {
      MergePairsNoMerge(t[1..]);
      var rest := MergePairs(t[1..]);
      assert r.line == [t[0]] + rest.line;
      assert r.line == t ==> rest.line == r.line[1..] == t[1..];
      assert rest.line == t[1..] ==> r.line == [t[0]] + t[1..] == t;
      assert forall k :: 1 <= k < |r.line| ==> r.line[k] == rest.line[k - 1];
    }
  }

  /** A full line without equal neighbours is left exactly as it is, and scores nothing. */
  lemma ProcessLineIdentity(arr: seq<nat>)
    requires |arr| == GridSize && ZeroFree(arr) && NoAdjacentEqual(arr)
    ensures ProcessLine(arr) == Combined(arr, 0, false)
  {
    ProcessLineIsMergePairs(arr);
    NonZerosOfZeroFree(arr);
    MergePairsIdentity(arr);
    assert arr + Zeros(0) == arr;
  }

  /** A line stays put exactly when it is already packed and no pair merges; in
      particular a move that scores, or that makes 2048, changes the line. */
  lemma ProcessLineUnchanged(arr: seq<nat>)
    requires |arr| == GridSize
    ensures ProcessLine(arr).line == arr <==> SlideArray(arr) == arr && ProcessLine(arr).score == 0
    ensures ProcessLine(arr).reached2048 ==> ProcessLine(arr).score > 0
  {
    var t := NonZeros(arr);
    var m := MergePairs(t);
    ProcessLineIsMergePairs(arr);
    NonZerosOfNonZeros(arr);
    MergePairsNoMerge(t);
    NonZerosAppendZeros(m.line, GridSize - |m.line|);
    NonZerosOfZeroFree(m.line);
    if ProcessLine(arr).line == arr {
      assert NonZeros(arr) == m.line;
    }
  }
}
