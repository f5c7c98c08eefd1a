/** `splitL0Children`: more ranges are wanted than there are books, so every
    book gets at least one range and each further range goes to the book whose
    chunks are currently largest; each book's chapters are then cut into that
    many nearly equal consecutive pieces. */
module Split {
  import opened Book
  import opened Ranges
  import opened Titles

  /** `Math.ceil(a / c)` for whole numbers. */
  function Ceil(a: nat, c: nat): nat
    requires c >= 1
  {
    (a + c - 1) / c
  }

  /** `Math.round(n * i / k)` in exact arithmetic (halves round up). */
  function Round(n: nat, i: nat, k: nat): nat
    requires k >= 1
  {
    (2 * n * i + k) / (2 * k)
  }

  /** The heap priority of a book: the smallest priority is the largest chunk. */
  const PRIORITY_BASE: int := 0x7fffffff

  function Priority(len: nat, chunks: nat): int
    requires chunks >= 1
  {
    PRIORITY_BASE - Ceil(len, chunks)
  }

  function Sum(s: seq<nat>): nat {
    if |s| == 0 then 0 else Sum(s[..|s| - 1]) + s[|s| - 1]
  }

  // ---------------------------------------------------------------------------
  // Arithmetic

  /** Cancelling a positive factor keeps a strict inequality. */
  lemma MulCancel(x: int, y: int, d: int)
    requires d > 0 && x * d < y * d
    ensures x < y
  {
  }

  /** Integer division is determined by quotient and remainder. */
  lemma DivUnique(a: int, d: int, q: int, r: int)
    requires d > 0 && 0 <= r < d && a == q * d + r
    ensures a / d == q
  {
    var q', r' := a / d, a % d;
    assert (q - q') * d == r' - r by {
      assert a == q' * d + r';
      assert (q - q') * d == q * d - q' * d;
    }
    MulCancel(q - q', 1, d);
    assert (q' - q) * d == r - r';
    MulCancel(q' - q, 1, d);
  }

  lemma DivMonotone(a: int, b: int, d: int)
    requires d > 0 && a <= b
    ensures a / d <= b / d
  {
    var qa, ra := a / d, a % d;
    var qb, rb := b / d, b % d;
    assert (qa - qb) * d == (a - ra) - (b - rb) by {
      assert a == qa * d + ra && b == qb * d + rb;
      assert (qa - qb) * d == qa * d - qb * d;
    }
    MulCancel(qa - qb, 1, d);
  }

  /** `Ceil(a, c)` is the least `m` with `m * c >= a`. */
  lemma CeilIsLeast(a: nat, c: nat, m: nat)
    requires c >= 1
    ensures Ceil(a, c) * c >= a
    ensures m * c >= a ==> Ceil(a, c) <= m
  {
    var q, r := (a + c - 1) / c, (a + c - 1) % c;
    assert a + c - 1 == q * c + r;
    if m * c >= a {
      assert (q - m) * c == q * c - m * c;
      MulCancel(q - m, 1, c);
    }
  }

  /** More chunks never make a chunk larger. */
  lemma CeilAntitone(a: nat, c: nat, c': nat)
    requires 1 <= c <= c'
    ensures Ceil(a, c') <= Ceil(a, c)
  {
    CeilIsLeast(a, c, 0);
    var k := Ceil(a, c);
    assert k * c' >= k * c by {
      assert k * c' - k * c == k * (c' - c);
    }
    CeilIsLeast(a, c', k);
  }

  lemma RoundFirst(n: nat, k: nat)
    requires k >= 1
    ensures Round(n, 0, k) == 0
  {
    DivUnique(k, 2 * k, 0, k);
  }

  lemma RoundLast(n: nat, k: nat)
    requires k >= 1
    ensures Round(n, k, k) == n
  {
    DivUnique(2 * n * k + k, 2 * k, n, k);
  }

  lemma RoundMonotone(n: nat, i: nat, k: nat)
    requires k >= 1
    ensures Round(n, i, k) <= Round(n, i + 1, k)
  {
    assert 2 * n * (i + 1) == 2 * n * i + 2 * n;
    DivMonotone(2 * n * i + k, 2 * n * (i + 1) + k, 2 * k);
  }

  lemma {:induction false} SumUpdate(s: seq<nat>, i: nat, v: nat)
    requires i < |s|
    ensures Sum(s[i := v]) == Sum(s) - s[i] + v
  {
    if i < |s| - 1 {
      assert s[i := v][..|s| - 1] == s[..|s| - 1][i := v];
      SumUpdate(s[..|s| - 1], i, v);
    } else {
      assert s[i := v][..|s| - 1] == s[..|s| - 1];
    }
  }

  lemma {:induction false} SumCons(x: nat, s: seq<nat>)
    ensures Sum([x] + s) == x + Sum(s)
    decreases |s|
  {
    if |s| > 0 {
      assert ([x] + s)[..|s|] == [x] + s[..|s| - 1];
      SumCons(x, s[..|s| - 1]);
    }
  }

  lemma {:induction false} SumOfOnes(n: nat)
    ensures Sum(seq(n, _ => 1)) == n
  {
    if n > 0 {
      assert seq(n, _ => 1)[..n - 1] == seq(n - 1, _ => 1);
      SumOfOnes(n - 1);
    }
  }

  /** A vector that is nowhere smaller and somewhere larger has a larger sum. */
  lemma {:induction false} SumGrows(s: seq<nat>, t: seq<nat>, i: nat)
    requires |s| == |t| && i < |s|
    requires forall j :: 0 <= j < |s| ==> s[j] <= t[j]
    requires s[i] < t[i]
    ensures Sum(s) < Sum(t)
  {
    var n := |s| - 1;
    SumNoSmaller(s[..n], t[..n]);
    if i < n {
      SumGrows(s[..n], t[..n], i);
    }
  }

  lemma {:induction false} SumNoSmaller(s: seq<nat>, t: seq<nat>)
    requires |s| == |t|
    requires forall j :: 0 <= j < |s| ==> s[j] <= t[j]
    ensures Sum(s) <= Sum(t)
  {
    if |s| > 0 {
      SumNoSmaller(s[..|s| - 1], t[..|t| - 1]);
    }
  }

  // ---------------------------------------------------------------------------
  // How many ranges each book gets

  /** Every book has at least one chunk. */
  predicate AtLeastOne(counts: seq<nat>) {
    forall i :: 0 <= i < |counts| ==> counts[i] >= 1
  }

  /** The greedy invariant: whenever book `j` holds more than one chunk, its
      chunk size before its last increment was at least every book's chunk
      size now. */
  predicate Balanced(lens: seq<nat>, counts: seq<nat>)
    requires |lens| == |counts| && AtLeastOne(counts)
  {
    forall i, j :: 0 <= i < |lens| && 0 <= j < |lens| && counts[j] > 1
      ==> Ceil(lens[i], counts[i]) <= Ceil(lens[j], counts[j] - 1)
  }

  /** The largest chunk size any book has under `counts`. */
  function MaxChunk(lens: seq<nat>, counts: seq<nat>): (m: nat)
    requires |lens| == |counts| && AtLeastOne(counts)
    ensures forall i :: 0 <= i < |lens| ==> Ceil(lens[i], counts[i]) <= m
    ensures |lens| > 0 ==> exists i :: 0 <= i < |lens| && Ceil(lens[i], counts[i]) == m
  {
    if |lens| == 0 then 0
    else
      var n := |lens| - 1;
      var rest := MaxChunk(lens[..n], counts[..n]);
      assert forall i :: 0 <= i < n ==> lens[..n][i] == lens[i] && counts[..n][i] == counts[i];
      if Ceil(lens[n], counts[n]) > rest then Ceil(lens[n], counts[n]) else rest
  }

  /** The heap pop: the book with the largest chunk size (the smallest
      priority), the first such on a tie. */
  method Largest(lens: seq<nat>, counts: seq<nat>) returns (index: nat)
    requires |lens| == |counts| && |lens| >= 1 && AtLeastOne(counts)
    ensures index < |lens|
    ensures forall i :: 0 <= i < |lens| ==> Priority(lens[index], counts[index]) <= Priority(lens[i], counts[i])
  {
    index := 0;
    var i := 1;
    while i < |lens|
      invariant index < i <= |lens|
      invariant forall k :: 0 <= k < i ==> Ceil(lens[k], counts[k]) <= Ceil(lens[index], counts[index])
    {
      if Ceil(lens[i], counts[i]) > Ceil(lens[index], counts[index]) {
        index := i;
      }
      i := i + 1;
    }
  }

  /** The `while (numElements < desiredElements)` loop: each book starts at one
      chunk and each round gives one more to the book with the largest chunks. */
  method ChunkCounts(lens: seq<nat>, desired: nat) returns (counts: seq<nat>)
    requires 1 <= |lens| <= desired
    ensures |counts| == |lens| && AtLeastOne(counts)
    ensures Sum(counts) == desired
    ensures Balanced(lens, counts)
  {
    counts := seq(|lens|, _ => 1);
    var numElements := |lens|;
    SumOfOnes(|lens|);
    while numElements < desired
      invariant |counts| == |lens| && AtLeastOne(counts)
      invariant Sum(counts) == numElements <= desired
      invariant Balanced(lens, counts)
    {
      var index := Largest(lens, counts);
      var counts' := counts[index := counts[index] + 1];
      forall i, j | 0 <= i < |lens| && 0 <= j < |lens| && counts'[j] > 1
        ensures Ceil(lens[i], counts'[i]) <= Ceil(lens[j], counts'[j] - 1)
      {
        CeilAntitone(lens[i], counts[i], counts'[i]);
      }
      SumUpdate(counts, index, counts[index] + 1);
      counts := counts';
      numElements := numElements + 1;
    }
  }

  /** The greedy counts are optimal: no way of handing out the same number of
      chunks, at least one per book, gives a smaller largest chunk. */
  lemma GreedyIsOptimal(lens: seq<nat>, counts: seq<nat>, other: seq<nat>)
    requires |counts| == |lens| && AtLeastOne(counts) && Balanced(lens, counts)
    requires |other| == |lens| && AtLeastOne(other) && Sum(other) == Sum(counts)
    ensures MaxChunk(lens, counts) <= MaxChunk(lens, other)
  {
    if |lens| > 0 {
      var m := MaxChunk(lens, counts);
      var top :| 0 <= top < |lens| && Ceil(lens[top], counts[top]) == m;
      if other[top] <= counts[top] {
        CeilAntitone(lens[top], other[top], counts[top]);
      } else {
        if forall j :: 0 <= j < |lens| ==> counts[j] <= other[j] {
          SumGrows(counts, other, top);
        }
        var j :| 0 <= j < |lens| && other[j] < counts[j];
        CeilAntitone(lens[j], other[j], counts[j] - 1);
      }
    }
  }

  // ---------------------------------------------------------------------------
  // The ranges of each book

  /** Piece `i` of book `l0` cut into `k`: chapters `round(n*i/k)` up to
      `round(n*(i+1)/k) - 1`. */
  function Piece(book: BookRoot, l0: nat, k: nat, i: nat): ChunkRange
    requires l0 < |book.children| && k >= 1
  {
    var n := Chapters(book, l0);
    var start := Round(n, i, k);
    var end := Round(n, i + 1, k) - 1;
    ChunkRange(l0, start, l0, end, DescribeRange(book, l0, start, l0, end))
  }

  /** The ranges of book `l0`: `Array.from({length: chunks}, ...)`. */
  function Pieces(book: BookRoot, l0: nat, k: nat): (rs: seq<ChunkRange>)
    requires l0 < |book.children| && k >= 1
    ensures |rs| == k
  {
    seq(k, i requires 0 <= i => Piece(book, l0, k, i))
  }

  /** `children.flatMap(...)` from book `l0` on. */
  function PiecesFrom(book: BookRoot, counts: seq<nat>, l0: nat): (rs: seq<ChunkRange>)
    requires |counts| == |book.children| && AtLeastOne(counts) && l0 <= |counts|
    ensures |rs| == Sum(counts) - Sum(counts[..l0])
    decreases |counts| - l0
  {
    if l0 == |counts| then (assert counts[..l0] == counts; [])
    else
      assert counts[..l0 + 1][..l0] == counts[..l0];
      Pieces(book, l0, counts[l0]) + PiecesFrom(book, counts, l0 + 1)
  }

  /** Where piece `i` starts and ends in the whole text. */
  lemma PieceBounds(book: BookRoot, l0: nat, k: nat, i: nat)
    requires l0 < |book.children| && 1 <= k
    ensures var p := Piece(book, l0, k, i);
      && InBook(book, p)
      && Lo(book, p) == ChaptersBefore(book, l0) + Round(Chapters(book, l0), i, k)
      && Hi(book, p) == ChaptersBefore(book, l0) + Round(Chapters(book, l0), i + 1, k)
      && Lo(book, p) <= Hi(book, p)
  {
    RoundMonotone(Chapters(book, l0), i, k);
  }

  /** Piece `i` of book `l0` runs from chapter `round(n*i/k)` of the book to
      just before chapter `round(n*(i+1)/k)`; the cuts run from the book's first
      chapter to one past its last. */
  lemma PieceCuts(book: BookRoot, l0: nat, k: nat) returns (cuts: seq<int>)
    requires l0 < |book.children| && 1 <= k
    ensures |cuts| == k + 1 && cuts[0] == ChaptersBefore(book, l0) && cuts[k] == ChaptersBefore(book, l0 + 1)
    ensures forall j :: 0 <= j < k ==> RunsBetween(book, Pieces(book, l0, k)[j], cuts[j], cuts[j + 1])
  {
    var n, b := Chapters(book, l0), ChaptersBefore(book, l0);
    cuts := seq(k + 1, j requires 0 <= j => b + Round(n, j, k));
    forall j | 0 <= j < k ensures RunsBetween(book, Pieces(book, l0, k)[j], cuts[j], cuts[j + 1]) {
      PieceBounds(book, l0, k, j);
    }
    RoundFirst(n, k);
    RoundLast(n, k);
  }

  /** All the pieces of book `l0` chain across exactly its chapters. */
  lemma BookPiecesChain(book: BookRoot, l0: nat, k: nat)
    requires l0 < |book.children| && 1 <= k
    ensures Chain(book, Pieces(book, l0, k), ChaptersBefore(book, l0), ChaptersBefore(book, l0 + 1))
  {
    var ps := Pieces(book, l0, k);
    var cuts := PieceCuts(book, l0, k);
    CutsChain(book, ps, cuts, k);
    assert ps[..k] == ps;
  }

  lemma {:induction false} PiecesFromChain(book: BookRoot, counts: seq<nat>, l0: nat)
    requires |counts| == |book.children| && AtLeastOne(counts) && l0 <= |counts|
    ensures Chain(book, PiecesFrom(book, counts, l0), ChaptersBefore(book, l0), TotalChapters(book))
    decreases |counts| - l0
  {
    if l0 < |counts| {
      var k := counts[l0];
      var here := Pieces(book, l0, k);
      var rest := PiecesFrom(book, counts, l0 + 1);
      assert PiecesFrom(book, counts, l0) == here + rest;
      BookPiecesChain(book, l0, k);
      PiecesFromChain(book, counts, l0 + 1);
      ChainAppend(book, here, rest, ChaptersBefore(book, l0), ChaptersBefore(book, l0 + 1), TotalChapters(book));
    } else {
      assert PiecesFrom(book, counts, l0) == [];
    }
  }

  /** `splitL0Children(desiredElements, book)`. */
  method SplitL0Children(desired: nat, book: BookRoot) returns (ranges: seq<ChunkRange>)
    requires 1 <= |book.children| <= desired
    ensures |ranges| == desired
    ensures Tiles(book, ranges)
    ensures forall j :: 0 <= j < |ranges| ==> ranges[j].startL0 == ranges[j].endL0
    ensures Titled(book, ranges)
  {
    var lens := seq(|book.children|, i requires 0 <= i < |book.children| => book.children[i].len);
    var counts := ChunkCounts(lens, desired);
    ranges := PiecesFrom(book, counts, 0);
    PiecesFromChain(book, counts, 0);
    SameBookFrom(book, counts, 0);
    PiecesFromTitled(book, counts, 0);
  }

  /** Every piece is titled by `describeRange` of its ends. */
  lemma {:induction false} PiecesFromTitled(book: BookRoot, counts: seq<nat>, l0: nat)
    requires |counts| == |book.children| && AtLeastOne(counts) && l0 <= |counts|
    ensures Titled(book, PiecesFrom(book, counts, l0))
    decreases |counts| - l0
  {
    if l0 < |counts| {
      PiecesFromTitled(book, counts, l0 + 1);
      var here, rest := Pieces(book, l0, counts[l0]), PiecesFrom(book, counts, l0 + 1);
      assert PiecesFrom(book, counts, l0) == here + rest;
      forall j | 0 <= j < |here| ensures InBook(book, here[j]) {
        PieceBounds(book, l0, counts[l0], j);
      }
      assert Titled(book, here);
      forall j | 0 <= j < |here| + |rest|
        ensures (here + rest)[j] == if j < |here| then here[j] else rest[j - |here|]
      {
      }
    }
  }

  lemma {:induction false} SameBookFrom(book: BookRoot, counts: seq<nat>, l0: nat)
    requires |counts| == |book.children| && AtLeastOne(counts) && l0 <= |counts|
    ensures forall j :: 0 <= j < |PiecesFrom(book, counts, l0)| ==>
      PiecesFrom(book, counts, l0)[j].startL0 == PiecesFrom(book, counts, l0)[j].endL0
    decreases |counts| - l0
  {
    if l0 < |counts| {
      SameBookFrom(book, counts, l0 + 1);
    }
  }
}
