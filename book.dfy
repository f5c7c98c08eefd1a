/** The book tree the front end receives (`BookRoot`, `BookDataNode`,
    `BookDataLeaf`) and a search hit (`SearchResult`), with the chapter
    arithmetic that places each chapter of each book at one position of the
    whole text. */
module Book {
  /** `BookDataLeaf`: a chapter. */
  datatype BookDataLeaf = BookDataLeaf(len: nat)

  /** `BookDataNode` at level L0: a book with its chapters. */
  datatype BookDataNode = BookDataNode(name: string, children: seq<BookDataLeaf>, len: nat)

  /** `BookRoot`. */
  datatype BookRoot = BookRoot(children: seq<BookDataNode>, maxDepth: nat)

  /** `SearchResult`, without its floating-point score. */
  datatype SearchResult = SearchResult(bookId: string, text: string, l0: nat, l1: nat, l2: nat,
                                       highlight: seq<(nat, nat)>)

  /** The number of chapters of book `l0`. */
  function Chapters(book: BookRoot, l0: nat): nat
    requires l0 < |book.children|
  {
    |book.children[l0].children|
  }

  /** The number of chapters in the books before `l0`: the position, in the
      whole text, of chapter 0 of book `l0`. */
  function ChaptersBefore(book: BookRoot, l0: nat): (r: nat)
    requires l0 <= |book.children|
    ensures l0 == 0 ==> r == 0
  {
    if l0 == 0 then 0 else ChaptersBefore(book, l0 - 1) + Chapters(book, l0 - 1)
  }

  /** All the chapters of the book. */
  function TotalChapters(book: BookRoot): nat {
    ChaptersBefore(book, |book.children|)
  }

  /** Chapter positions grow with the book index. */
  lemma {:induction false} ChaptersBeforeMonotone(book: BookRoot, a: nat, b: nat)
    requires a <= b <= |book.children|
    ensures ChaptersBefore(book, a) <= ChaptersBefore(book, b)
    decreases b - a
  {
    if a < b {
      ChaptersBeforeMonotone(book, a, b - 1);
    }
  }

  /** Every chapter of every book has a position below the total. */
  lemma ChapterPositionBound(book: BookRoot, l0: nat, c: nat)
    requires l0 < |book.children| && c < Chapters(book, l0)
    ensures ChaptersBefore(book, l0) + c < TotalChapters(book)
  {
    ChaptersBeforeMonotone(book, l0 + 1, |book.children|);
  }
}
