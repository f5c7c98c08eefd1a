/** The ranges `l0BoundaryChunks` returns, and what it means for a list of
    them to cut the book into consecutive pieces. */
module Ranges {
  import opened Book
  import opened Titles

  /** `{start: [startL0, startL1], end: [endL0, endL1], title}`. `endL1` is
      `-1` for the end of a book with no chapters. */
  datatype ChunkRange = ChunkRange(startL0: nat, startL1: nat, endL0: nat, endL1: int, title: string)

  /** Both ends name a book of `book`. */
  predicate InBook(book: BookRoot, r: ChunkRange) {
    r.startL0 < |book.children| && r.endL0 < |book.children| && r.endL1 >= -1
  }

  /** The position of the range's first chapter in the whole text. */
  function Lo(book: BookRoot, r: ChunkRange): nat
    requires InBook(book, r)
  {
    ChaptersBefore(book, r.startL0) + r.startL1
  }

  /** One past the position of the range's last chapter. */
  function Hi(book: BookRoot, r: ChunkRange): int
    requires InBook(book, r)
  {
    ChaptersBefore(book, r.endL0) + r.endL1 + 1
  }

  /** The ranges follow one another without gap or overlap, from position
      `lo` to position `hi`; a range may be empty but never runs backwards. */
  predicate Chain(book: BookRoot, ranges: seq<ChunkRange>, lo: int, hi: int)
    decreases |ranges|
  {
    if |ranges| == 0 then lo == hi
    else InBook(book, ranges[0]) && Lo(book, ranges[0]) == lo && lo <= Hi(book, ranges[0])
         && Chain(book, ranges[1..], Hi(book, ranges[0]), hi)
  }

  /** The ranges cut the whole book into consecutive pieces. */
  predicate Tiles(book: BookRoot, ranges: seq<ChunkRange>) {
    Chain(book, ranges, 0, TotalChapters(book))
  }

  /** Every range is titled by `describeRange` of its two ends. */
  predicate Titled(book: BookRoot, ranges: seq<ChunkRange>) {
    forall j :: 0 <= j < |ranges| ==>
      InBook(book, ranges[j])
      && ranges[j].title == DescribeRange(book, ranges[j].startL0, ranges[j].startL1, ranges[j].endL0, ranges[j].endL1)
  }

  /** Range `r` holds chapter `c` of book `l0`. */
  predicate Holds(book: BookRoot, r: ChunkRange, l0: nat, c: nat)
    requires l0 < |book.children|
  {
    InBook(book, r) && Lo(book, r) <= ChaptersBefore(book, l0) + c < Hi(book, r)
  }

  /** A single range is a chain from its first position to one past its last. */
  lemma ChainOfOne(book: BookRoot, r: ChunkRange)
    requires InBook(book, r) && Lo(book, r) <= Hi(book, r)
    ensures Chain(book, [r], Lo(book, r), Hi(book, r))
  {
    assert [r][1..] == [];
  }

  /** Two chains that meet make one. */
  lemma {:induction false} ChainAppend(book: BookRoot, a: seq<ChunkRange>, b: seq<ChunkRange>, lo: int, mid: int, hi: int)
    requires Chain(book, a, lo, mid) && Chain(book, b, mid, hi)
    ensures Chain(book, a + b, lo, hi)
    decreases |a|
  {
    if |a| > 0 {
      ChainAppend(book, a[1..], b, Hi(book, a[0]), mid, hi);
      assert (a + b)[0] == a[0] && (a + b)[1..] == a[1..] + b;
    } else {
      assert a + b == b;
    }
  }

  /** A chain over the first `i` ranges extends by range `i` when that one
      starts where the chain ends. */
  lemma ChainExtend(book: BookRoot, ranges: seq<ChunkRange>, i: nat, lo: int, mid: int)
    requires i < |ranges| && Chain(book, ranges[..i], lo, mid)
    requires InBook(book, ranges[i]) && Lo(book, ranges[i]) == mid <= Hi(book, ranges[i])
    ensures Chain(book, ranges[..i + 1], lo, Hi(book, ranges[i]))
  {
    ChainOfOne(book, ranges[i]);
    ChainAppend(book, ranges[..i], [ranges[i]], lo, mid, Hi(book, ranges[i]));
    assert ranges[..i] + [ranges[i]] == ranges[..i + 1];
  }

  /** Range `r` runs from position `a` to just before position `b`. */
  predicate RunsBetween(book: BookRoot, r: ChunkRange, a: int, b: int) {
    InBook(book, r) && Lo(book, r) == a <= b == Hi(book, r)
  }

  /** Ranges that each run from one cut to the next chain from the first cut
      to the last. */
  lemma {:induction false} CutsChain(book: BookRoot, ranges: seq<ChunkRange>, cuts: seq<int>, i: nat)
    requires |cuts| == |ranges| + 1 && i <= |ranges|
    requires forall j :: 0 <= j < |ranges| ==> RunsBetween(book, ranges[j], cuts[j], cuts[j + 1])
    ensures Chain(book, ranges[..i], cuts[0], cuts[i])
  {
    if i == 0 {
      assert ranges[..0] == [];
    } else {
      CutsChain(book, ranges, cuts, i - 1);
      assert RunsBetween(book, ranges[i - 1], cuts[i - 1], cuts[i]);
      ChainExtend(book, ranges, i - 1, cuts[0], cuts[i - 1]);
    }
  }

  /** Every range of a chain lies between its ends. */
  lemma {:induction false} ChainBounds(book: BookRoot, ranges: seq<ChunkRange>, lo: int, hi: int, j: nat)
    requires Chain(book, ranges, lo, hi) && j < |ranges|
    ensures InBook(book, ranges[j]) && lo <= Lo(book, ranges[j]) <= Hi(book, ranges[j]) <= hi
    decreases |ranges|
  {
    ChainEnds(book, ranges[1..], Hi(book, ranges[0]), hi);
    if j > 0 {
      ChainBounds(book, ranges[1..], Hi(book, ranges[0]), hi, j - 1);
    }
  }

  /** A chain never runs backwards. */
  lemma {:induction false} ChainEnds(book: BookRoot, ranges: seq<ChunkRange>, lo: int, hi: int)
    requires Chain(book, ranges, lo, hi)
    ensures lo <= hi
    decreases |ranges|
  {
    if |ranges| > 0 {
      ChainEnds(book, ranges[1..], Hi(book, ranges[0]), hi);
    }
  }

  /** Each position between the ends of a chain lies in exactly one of its ranges. */
  lemma {:induction false} ChainCoversOnce(book: BookRoot, ranges: seq<ChunkRange>, lo: int, hi: int, x: int)
    returns (j: nat)
    requires Chain(book, ranges, lo, hi) && lo <= x < hi
    ensures j < |ranges| && InBook(book, ranges[j]) && Lo(book, ranges[j]) <= x < Hi(book, ranges[j])
    ensures forall k :: 0 <= k < |ranges| && InBook(book, ranges[k]) && Lo(book, ranges[k]) <= x < Hi(book, ranges[k]) ==> k == j
    decreases |ranges|
  {
    if x < Hi(book, ranges[0]) {
      j := 0;
      forall k | 0 < k < |ranges|
        ensures InBook(book, ranges[k]) && Hi(book, ranges[0]) <= Lo(book, ranges[k])
      {
        ChainBounds(book, ranges[1..], Hi(book, ranges[0]), hi, k - 1);
        assert ranges[1..][k - 1] == ranges[k];
      }
    } else {
      var j' := ChainCoversOnce(book, ranges[1..], Hi(book, ranges[0]), hi, x);
      j := j' + 1;
      forall k | 0 <= k < |ranges| && InBook(book, ranges[k]) && Lo(book, ranges[k]) <= x < Hi(book, ranges[k])
        ensures k == j
      {
        if k > 0 {
          assert ranges[1..][k - 1] == ranges[k];
        }
      }
    }
  }

  /** When the ranges tile the book, each chapter of each book is held by
      exactly one range. */
  lemma TilesHoldEachChapterOnce(book: BookRoot, ranges: seq<ChunkRange>, l0: nat, c: nat)
    requires Tiles(book, ranges)
    requires l0 < |book.children| && c < Chapters(book, l0)
    ensures exists j :: 0 <= j < |ranges| && Holds(book, ranges[j], l0, c)
    ensures forall j, k :: (0 <= j < |ranges| && 0 <= k < |ranges| && Holds(book, ranges[j], l0, c)
                            && Holds(book, ranges[k], l0, c)) ==> j == k
  {
    ChapterPositionBound(book, l0, c);
    var j := ChainCoversOnce(book, ranges, 0, TotalChapters(book), ChaptersBefore(book, l0) + c);
    assert Holds(book, ranges[j], l0, c);
  }
}
