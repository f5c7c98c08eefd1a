/** The two-level statistics tree built while indexing: one node per book (L0),
    one leaf per chapter (L1), each leaf holding the running length of its text.
    The tree grows lazily, names are set by the first non-empty one supplied,
    and lengths accumulate. */
module Stats {
  import opened Wrappers
  import Utf8

  /** `LeafStats`: a chapter. */
  datatype LeafStats = LeafStats(name: string, len: nat)

  /** `NodeStats<LeafStats>`: a book and its chapters. */
  datatype NodeStats = NodeStats(name: string, children: seq<LeafStats>)

  /** The values `Default::default` produces. */
  const DefaultLeaf := LeafStats("", 0)
  const DefaultNode := NodeStats("", [])

  /** `add_level` on a children vector: `resize_with(index + 1, Default::default)`
      when `index` is not yet a position, so that `index` becomes one. */
  function Padded<T>(children: seq<T>, index: nat, default: T): (r: seq<T>)
    ensures |r| == if index < |children| then |children| else index + 1
    ensures index < |r| && children <= r
    ensures forall j :: |children| <= j < |r| ==> r[j] == default
  {
    if index < |children| then children else children + seq(index + 1 - |children|, _ => default)
  }

  /** The name rule: a stored name stays once it is non-empty; an empty one is
      replaced by the supplied name, if any. */
  function NameAfter(current: string, supplied: Option<string>): string {
    if |current| == 0 && supplied.Some? then supplied.value else current
  }

  /** The book vector after `add(l0, l0_name, l1, l1_name, _, value)`. */
  function Added(children: seq<NodeStats>, l0: nat, l0Name: Option<string>, l1: nat, l1Name: Option<string>,
                 value: string): seq<NodeStats>
  {
    var books := Padded(children, l0, DefaultNode);
    var book := books[l0];
    var chapters := Padded(book.children, l1, DefaultLeaf);
    var chapter := chapters[l1];
    var chapter' := LeafStats(NameAfter(chapter.name, l1Name), chapter.len + Utf8.ByteLength(value) + 1);
    books[l0 := NodeStats(NameAfter(book.name, l0Name), chapters[l1 := chapter'])]
  }

  /** The book at `i`, or the default node where the tree does not reach. */
  function BookAt(children: seq<NodeStats>, i: nat): NodeStats {
    if i < |children| then children[i] else DefaultNode
  }

  /** The chapter at `(i, j)`, or the default leaf where the tree does not reach. */
  function ChapterAt(children: seq<NodeStats>, i: nat, j: nat): LeafStats {
    var book := BookAt(children, i);
    if j < |book.children| then book.children[j] else DefaultLeaf
  }

  /** `L0L1Stats`: the root of the tree, updated in place by `add`. */
  class L0L1Stats {
    var name: string
    var children: seq<NodeStats>

    /** `L0L1Stats::new`. */
    constructor (name: string)
      ensures this.name == name && children == []
    {
      this.name := name;
      children := [];
    }

    /** `add_level` on the root; gives back the book at `index`. */
    method AddLevel(index: nat) returns (book: NodeStats)
      modifies this
      ensures name == old(name)
      ensures children == Padded(old(children), index, DefaultNode)
      ensures index < |children| && book == children[index]
    {
      if index >= |children| {
        children := children + seq(index + 1 - |children|, _ => DefaultNode);
      }
      book := children[index];
    }

    /** `Stats::add`: the `l2` argument is taken and ignored. */
    method Add(l0: nat, l0Name: Option<string>, l1: nat, l1Name: Option<string>, l2: Option<nat>, value: string)
      modifies this
      ensures name == old(name)
      ensures children == Added(old(children), l0, l0Name, l1, l1Name, value)
    {
      var book := AddLevel(l0);
      if |book.name| == 0 {
        if l0Name.Some? {
          book := book.(name := l0Name.value);
        }
      }
      var chapters := book.children;
      if l1 >= |chapters| {
        chapters := chapters + seq(l1 + 1 - |chapters|, _ => DefaultLeaf);
      }
      var chapter := chapters[l1];
      if |chapter.name| == 0 {
        if l1Name.Some? {
          chapter := chapter.(name := l1Name.value);
        }
      }
      chapter := chapter.(len := chapter.len + Utf8.ByteLength(value) + 1);
      children := children[l0 := NodeStats(book.name, chapters[l1 := chapter])];
    }
  }

  // ---------------------------------------------------------------------------
  // What `add` does to the tree

  /** The tree grows to reach `(l0, l1)` and never shrinks; books and chapters it
      adds are defaults; every other book and chapter keeps its value. */
  lemma AddedShape(children: seq<NodeStats>, l0: nat, l0Name: Option<string>, l1: nat, l1Name: Option<string>, value: string)
    ensures var r := Added(children, l0, l0Name, l1, l1Name, value);
      && |r| == (if l0 < |children| then |children| else l0 + 1)
      && l1 < |r[l0].children|
      && |r[l0].children| == (if l1 < |BookAt(children, l0).children| then |BookAt(children, l0).children| else l1 + 1)
      && (forall i :: 0 <= i < |r| && i != l0 ==> r[i] == BookAt(children, i))
      && (forall j :: 0 <= j < |r[l0].children| && j != l1 ==> r[l0].children[j] == ChapterAt(children, l0, j))
  {
  }

  /** Names are set by the first non-empty name supplied and never overwritten. */
  lemma AddedNames(children: seq<NodeStats>, l0: nat, l0Name: Option<string>, l1: nat, l1Name: Option<string>, value: string)
    ensures var r := Added(children, l0, l0Name, l1, l1Name, value);
      && r[l0].name == NameAfter(BookAt(children, l0).name, l0Name)
      && r[l0].children[l1].name == NameAfter(ChapterAt(children, l0, l1).name, l1Name)
      && (BookAt(children, l0).name != [] ==> r[l0].name == BookAt(children, l0).name)
      && (ChapterAt(children, l0, l1).name != [] ==> r[l0].children[l1].name == ChapterAt(children, l0, l1).name)
  {
  }

  /** The chapter at `(l0, l1)` gains the byte length of `value` plus one; every
      other chapter's length is unchanged. Lengths therefore add up the same
      whatever order the passages arrive in. */
  lemma {:induction false} AddedLength(children: seq<NodeStats>, l0: nat, l0Name: Option<string>, l1: nat,
                                       l1Name: Option<string>, value: string, i: nat, j: nat)
    ensures ChapterAt(Added(children, l0, l0Name, l1, l1Name, value), i, j).len
         == ChapterAt(children, i, j).len + (if (i, j) == (l0, l1) then Utf8.ByteLength(value) + 1 else 0)
  {
    var r := Added(children, l0, l0Name, l1, l1Name, value);
    AddedShape(children, l0, l0Name, l1, l1Name, value);
    if i == l0 {
      if j != l1 && j >= |r[l0].children| {
        assert ChapterAt(children, i, j) == DefaultLeaf;
      }
    } else if i >= |r| {
      assert BookAt(children, i) == DefaultNode;
    }
  }

  /** Two additions commute as far as lengths go. */
  lemma AddedLengthsCommute(children: seq<NodeStats>, a0: nat, a1: nat, va: string, b0: nat, b1: nat, vb: string,
                            i: nat, j: nat)
    ensures ChapterAt(Added(Added(children, a0, None, a1, None, va), b0, None, b1, None, vb), i, j).len
         == ChapterAt(Added(Added(children, b0, None, b1, None, vb), a0, None, a1, None, va), i, j).len
  {
    AddedLength(children, a0, None, a1, None, va, i, j);
    AddedLength(Added(children, a0, None, a1, None, va), b0, None, b1, None, vb, i, j);
    AddedLength(children, b0, None, b1, None, vb, i, j);
    AddedLength(Added(children, b0, None, b1, None, vb), a0, None, a1, None, va, i, j);
  }

  /** Adding "abc" at book 2, chapter 0 of a fresh tree yields three books, the
      first two empty-named defaults, and a chapter of length 4. */
  lemma PaddingExample()
    ensures var r := Added([], 2, Some("Exodus"), 0, None, "abc");
      && |r| == 3 && r[0] == DefaultNode && r[1] == DefaultNode
      && r[2] == NodeStats("Exodus", [LeafStats("", 4)])
  {
    Utf8.AsciiByteLength("abc");
  }
}
