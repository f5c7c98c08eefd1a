/** `l0BoundaryChunks`: cut a book into a given number of ranges of chapters
    so that, where there are at least as many ranges as books, no range
    crosses from one book into the next, and where there are fewer, every
    range is made of whole books. */
module Chunks {
  import opened Book
  import opened Ranges
  import Split
  import Merge

  /** The exact case: range `i` is the whole of book `i`, from chapter 0 to
      its last chapter, titled with the book's name. */
  function ExactRanges(book: BookRoot): (ranges: seq<ChunkRange>)
    ensures |ranges| == |book.children| && Titled(book, ranges)
    ensures forall i :: 0 <= i < |ranges| ==> ranges[i].title == book.children[i].name
  {
    seq(|book.children|, i requires 0 <= i < |book.children| =>
      ChunkRange(i, 0, i, Chapters(book, i) - 1, book.children[i].name))
  }

  /** One range per book cuts the text into its books, in order. */
  lemma ExactTiles(book: BookRoot)
    ensures Tiles(book, ExactRanges(book))
  {
    var ranges := ExactRanges(book);
    var n := |book.children|;
    var cuts := seq(n + 1, i requires 0 <= i <= n => ChaptersBefore(book, i));
    forall j | 0 <= j < n ensures RunsBetween(book, ranges[j], cuts[j], cuts[j + 1]) {
      assert ChaptersBefore(book, j + 1) == ChaptersBefore(book, j) + Chapters(book, j);
    }
    CutsChain(book, ranges, cuts, n);
    assert ranges[..n] == ranges;
  }

  /** `l0BoundaryChunks(numElements, book)`: split books when more ranges
      than books are asked for, merge neighbouring books when fewer, and give
      one range per book otherwise. The result always has `numElements`
      ranges that cut the text into consecutive pieces. */
  method L0BoundaryChunks(numElements: nat, book: BookRoot) returns (ranges: seq<ChunkRange>)
    requires numElements == |book.children| || (numElements >= 1 && |book.children| >= 1)
    ensures |ranges| == numElements
    ensures Tiles(book, ranges)
    ensures |book.children| <= numElements ==>
      forall j :: 0 <= j < |ranges| ==> ranges[j].startL0 == ranges[j].endL0
    ensures |book.children| >= numElements ==>
      forall j :: 0 <= j < |ranges| ==>
        && ranges[j].startL1 == 0 && ranges[j].endL0 < |book.children|
        && ranges[j].endL1 == Chapters(book, ranges[j].endL0) - 1
    ensures Titled(book, ranges)
  {
    if |book.children| < numElements {
      ranges := Split.SplitL0Children(numElements, book);
    } else if |book.children| > numElements {
      var lengths;
      ranges, lengths := Merge.MergeL0Children(numElements, book);
    } else {
      ranges := ExactRanges(book);
      ExactTiles(book);
    }
  }
}
