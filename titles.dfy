/** `describeRange`: the human title of a range of chapters. */
module Titles {
  import opened Book
  import opened Decimal

  /** The range runs from chapter 1 to the last chapter of its end book. */
  predicate ReachesBothEnds(book: BookRoot, startL1: nat, endL0: nat, endL1: int)
    requires endL0 < |book.children|
  {
    startL1 == 0 && endL1 + 1 == Chapters(book, endL0)
  }

  /** `describeRange(book, [startL0, startL1], [endL0, endL1])`. Chapters are
      shown 1-based; a range inside one book names the book once. */
  function DescribeRange(book: BookRoot, startL0: nat, startL1: nat, endL0: nat, endL1: int): (title: string)
    requires startL0 < |book.children| && endL0 < |book.children| && endL1 >= -1
    ensures book.children[startL0].name <= title
    ensures startL0 == endL0 && ReachesBothEnds(book, startL1, endL0, endL1) ==> title == book.children[startL0].name
    ensures startL0 != endL0 && ReachesBothEnds(book, startL1, endL0, endL1)
            ==> title == book.children[startL0].name + " - " + book.children[endL0].name
    ensures !ReachesBothEnds(book, startL1, endL0, endL1) && startL1 == endL1
            ==> title == book.children[startL0].name + " " + NatToString(startL1 + 1)
                + (if startL0 == endL0 then "" else " - " + book.children[endL0].name + " " + NatToString(startL1 + 1))
  {
    var startBook := book.children[startL0];
    var endBook := book.children[endL0];
    var startChapter := startL1 + 1;
    var endChapter := endL1 + 1;
    if startL0 == endL0 then
      if startChapter == 1 && endChapter == |startBook.children| then startBook.name
      else if startChapter == endChapter then startBook.name + " " + NatToString(startChapter)
      else startBook.name + " " + NatToString(startChapter) + "-" + NatToString(endChapter)
    else if startChapter == 1 && endChapter == |endBook.children| then startBook.name + " - " + endBook.name
    else startBook.name + " " + NatToString(startChapter) + " - " + endBook.name + " " + NatToString(endChapter)
  }

  /** Inside one book, a title that is not the bare name carries the chapter
      numbers in decimal after the name, joined by `-`, and they read back as the 1-based
      chapters of the range. */
  lemma {:induction false} TitleChaptersReadBack(book: BookRoot, l0: nat, startL1: nat, endL1: int)
    requires l0 < |book.children| && endL1 >= -1
    requires !ReachesBothEnds(book, startL1, l0, endL1)
    ensures var title := DescribeRange(book, l0, startL1, l0, endL1);
      var name := book.children[l0].name;
      var first := NatToString(startL1 + 1);
      && |name| + 1 + |first| <= |title|
      && title[..|name| + 1] == name + " "
      && title[|name| + 1..|name| + 1 + |first|] == first
      && DigitsValue(title[|name| + 1..|name| + 1 + |first|]) == startL1 + 1
      && (startL1 != endL1 ==> |name| + 2 + |first| <= |title| && title[|name| + 1 + |first|] == '-')
      && (startL1 != endL1 ==> title[|name| + 2 + |first|..] == NatToString(endL1 + 1))
      && (startL1 != endL1 ==> DigitsValue(title[|name| + 2 + |first|..]) == endL1 + 1)
  {
    var name := book.children[l0].name;
    var first := NatToString(startL1 + 1);
    DigitsOfNatToString(startL1 + 1);
    if startL1 == endL1 {
      ConcatSlices(name + " ", first, "");
    } else {
      var last := NatToString(endL1 + 1);
      DigitsOfNatToString(endL1 + 1);
      ConcatSlices(name + " ", first, "-" + last);
      ConcatSlices(name + " " + first + "-", last, "");
      RangeTitle(name, first, last);
    }
  }

  /** Across two books, a title that is not the two bare names carries the
      first book's name and 1-based first chapter, then ` - `, then the
      second book's name and 1-based last chapter, and both numbers read back. */
  lemma TitleAcrossBooksReadBack(book: BookRoot, startL0: nat, startL1: nat, endL0: nat, endL1: int)
    requires startL0 < |book.children| && endL0 < |book.children| && startL0 != endL0 && endL1 >= -1
    requires !ReachesBothEnds(book, startL1, endL0, endL1)
    ensures var title := DescribeRange(book, startL0, startL1, endL0, endL1);
      var a, b := book.children[startL0].name, book.children[endL0].name;
      var first := NatToString(startL1 + 1);
      var k := |a| + 1 + |first|;
      && k + 4 + |b| <= |title|
      && title[..|a| + 1] == a + " "
      && title[|a| + 1..k] == first
      && DigitsValue(title[|a| + 1..k]) == startL1 + 1
      && title[k..k + 4 + |b|] == " - " + b + " "
      && title[k + 4 + |b|..] == NatToString(endL1 + 1)
      && DigitsValue(title[k + 4 + |b|..]) == endL1 + 1
  {
    var a, b := book.children[startL0].name, book.children[endL0].name;
    var first, last := NatToString(startL1 + 1), NatToString(endL1 + 1);
    var mid := " - " + b + " ";
    DigitsOfNatToString(startL1 + 1);
    DigitsOfNatToString(endL1 + 1);
    var title := a + " " + first + " - " + b + " " + last;
    assert title == DescribeRange(book, startL0, startL1, endL0, endL1);
    assert title == (a + " ") + first + (mid + last);
    assert title == (a + " " + first) + mid + last;
    ConcatSlices(a + " ", first, mid + last);
    ConcatSlices(a + " " + first, mid, last);
  }

  /** The two ways of grouping the title of a chapter range. */
  lemma RangeTitle(name: string, first: string, last: string)
    ensures name + " " + first + "-" + last == (name + " ") + first + ("-" + last)
    ensures name + " " + first + "-" + last == (name + " " + first + "-") + last + ""
  {
  }

  /** Slicing a concatenation of three strings gives back each of them. */
  lemma ConcatSlices(a: string, b: string, c: string)
    ensures (a + b + c)[..|a|] == a
    ensures (a + b + c)[|a|..|a| + |b|] == b
    ensures (a + b + c)[|a| + |b|..] == c
  {
  }
}
