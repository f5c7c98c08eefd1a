/** `mergeL0Children`: fewer ranges are wanted than there are books, so the
    smallest chunk of books is repeatedly merged into its smaller neighbour.

    Chunks are objects shared between the `chunks` array and `chunkMap`; here
    they live in `store`, indexed by their `originalIndex`, and both the array
    and the map hold those indices. Two versions of the loop are modelled: the
    one as written, whose `chunkMap` redirects only the merged chunk's own
    original index, and a corrected one that redirects every book the merged
    chunk spans. */
module Merge {
  import opened Wrappers
  import opened Book
  import opened Ranges
  import opened Titles
  import Split

  /** `{totalLength, l0: [first, last]}`. */
  datatype Chunk = Chunk(totalLength: nat, first: nat, last: nat)

  /** The book lengths, `book.children.map(c => c.len)`. */
  function Lens(book: BookRoot): (lens: seq<nat>)
    ensures |lens| == |book.children|
  {
    seq(|book.children|, i requires 0 <= i < |book.children| => book.children[i].len)
  }

  /** The lengths of books `a` up to `b - 1`. */
  function SumRange(lens: seq<nat>, a: nat, b: nat): nat
    requires a <= b <= |lens|
    decreases b
  {
    if a == b then 0 else SumRange(lens, a, b - 1) + lens[b - 1]
  }

  lemma {:induction false} SumRangeSplit(lens: seq<nat>, a: nat, b: nat, c: nat)
    requires a <= b <= c <= |lens|
    ensures SumRange(lens, a, c) == SumRange(lens, a, b) + SumRange(lens, b, c)
    decreases c
  {
    if b < c {
      SumRangeSplit(lens, a, b, c - 1);
    }
  }

  // ---------------------------------------------------------------------------
  // The stable sorts `sort(sorter('totalLength'))` and `sort(sorter(c => c.l0[0]))`

  datatype SortKey = ByLength | ByFirst

  function Key(store: seq<Chunk>, key: SortKey, o: nat): int {
    if o < |store| then (match key case ByLength => store[o].totalLength case ByFirst => store[o].first) else 0
  }

  /** Inserts `o` after every element whose key is not larger than its own. */
  function InsertBy(store: seq<Chunk>, key: SortKey, o: nat, sorted: seq<nat>): (r: seq<nat>)
    ensures |r| == |sorted| + 1
  {
    if |sorted| == 0 then [o]
    else if Key(store, key, o) < Key(store, key, sorted[0]) then [o] + sorted
    else [sorted[0]] + InsertBy(store, key, o, sorted[1..])
  }

  /** Stable ascending insertion sort. */
  function SortBy(store: seq<Chunk>, key: SortKey, xs: seq<nat>): (r: seq<nat>)
    ensures |r| == |xs|
  {
    if |xs| == 0 then []
    else InsertBy(store, key, xs[|xs| - 1], SortBy(store, key, xs[..|xs| - 1]))
  }

  lemma {:induction false} InsertByPermutes(store: seq<Chunk>, key: SortKey, o: nat, sorted: seq<nat>)
    ensures multiset(InsertBy(store, key, o, sorted)) == multiset(sorted) + multiset{o}
    decreases |sorted|
  {
    if |sorted| > 0 && Key(store, key, o) >= Key(store, key, sorted[0]) {
      InsertByPermutes(store, key, o, sorted[1..]);
      assert sorted == [sorted[0]] + sorted[1..];
    }
  }

  /** Sorting rearranges the chunks and nothing else. */
  lemma {:induction false} SortByPermutes(store: seq<Chunk>, key: SortKey, xs: seq<nat>)
    ensures multiset(SortBy(store, key, xs)) == multiset(xs)
    decreases |xs|
  {
    if |xs| > 0 {
      SortByPermutes(store, key, xs[..|xs| - 1]);
      InsertByPermutes(store, key, xs[|xs| - 1], SortBy(store, key, xs[..|xs| - 1]));
      assert xs == xs[..|xs| - 1] + [xs[|xs| - 1]];
    }
  }

  predicate SortedBy(store: seq<Chunk>, key: SortKey, xs: seq<nat>) {
    forall i, j :: 0 <= i < j < |xs| ==> Key(store, key, xs[i]) <= Key(store, key, xs[j])
  }

  predicate Distinct(xs: seq<nat>) {
    forall i, j :: 0 <= i < j < |xs| ==> xs[i] != xs[j]
  }

  lemma {:induction false} InsertBySorted(store: seq<Chunk>, key: SortKey, o: nat, sorted: seq<nat>)
    requires SortedBy(store, key, sorted)
    ensures SortedBy(store, key, InsertBy(store, key, o, sorted))
    decreases |sorted|
  {
    if |sorted| > 0 && Key(store, key, o) >= Key(store, key, sorted[0]) {
      InsertBySorted(store, key, o, sorted[1..]);
      InsertByPermutes(store, key, o, sorted[1..]);
      var r := InsertBy(store, key, o, sorted[1..]);
      forall k | 0 <= k < |r| ensures Key(store, key, sorted[0]) <= Key(store, key, r[k]) {
        assert r[k] in multiset(sorted[1..]) + multiset{o};
      }
    }
  }

  lemma {:induction false} SortBySorted(store: seq<Chunk>, key: SortKey, xs: seq<nat>)
    ensures SortedBy(store, key, SortBy(store, key, xs))
    decreases |xs|
  {
    if |xs| > 0 {
      SortBySorted(store, key, xs[..|xs| - 1]);
      InsertBySorted(store, key, xs[|xs| - 1], SortBy(store, key, xs[..|xs| - 1]));
    }
  }

  lemma {:induction false} InsertByDistinct(store: seq<Chunk>, key: SortKey, o: nat, sorted: seq<nat>)
    requires Distinct(sorted) && o !in sorted
    ensures Distinct(InsertBy(store, key, o, sorted))
    decreases |sorted|
  {
    if |sorted| > 0 && Key(store, key, o) >= Key(store, key, sorted[0]) {
      InsertByDistinct(store, key, o, sorted[1..]);
      InsertByPermutes(store, key, o, sorted[1..]);
      assert sorted[0] !in multiset(sorted[1..]) + multiset{o};
    }
  }

  /** Sorting neither adds, drops nor repeats a chunk. */
  lemma {:induction false} SortByDistinct(store: seq<Chunk>, key: SortKey, xs: seq<nat>)
    requires Distinct(xs)
    ensures Distinct(SortBy(store, key, xs))
    decreases |xs|
  {
    if |xs| > 0 {
      var init := xs[..|xs| - 1];
      SortByDistinct(store, key, init);
      SortByPermutes(store, key, init);
      assert xs[|xs| - 1] !in multiset(init);
      InsertByDistinct(store, key, xs[|xs| - 1], SortBy(store, key, init));
    }
  }

  // ---------------------------------------------------------------------------
  // One merge

  /** Every chunk of the store spans books of the text (one per chunk). */
  predicate SpansWithin(store: seq<Chunk>) {
    forall o :: 0 <= o < |store| ==> store[o].first < |store| && store[o].last < |store|
  }

  /** Sorting keeps every index below `n`. */
  lemma SortByBelow(store: seq<Chunk>, key: SortKey, xs: seq<nat>, n: nat)
    requires forall j :: 0 <= j < |xs| ==> xs[j] < n
    ensures forall j :: 0 <= j < |SortBy(store, key, xs)| ==> SortBy(store, key, xs)[j] < n
  {
    var r := SortBy(store, key, xs);
    SortByPermutes(store, key, xs);
    forall j | 0 <= j < |r| ensures r[j] < n {
      assert r[j] in multiset(xs);
    }
  }

  /** `new Map(chunks.map(c => [c.l0[0], c]))` before any merge: book `i` maps to chunk `i`. */
  function IdentityMap(n: nat): (m: map<int, nat>)
    ensures forall k :: k in m <==> 0 <= k < n
    ensures forall k :: k in m ==> m[k] == k
  {
    if n == 0 then map[] else IdentityMap(n - 1)[n - 1 := n - 1]
  }

  /** `prevSize < nextSize`, where a missing neighbour has size `Infinity`. */
  predicate SmallerSize(a: Option<nat>, b: Option<nat>) {
    match a
    case None => false
    case Some(x) => b.None? || x < b.value
  }

  /** `chunkMap.get(key)`. */
  function Lookup(chunkMap: map<int, nat>, key: int): Option<nat> {
    if key in chunkMap then Some(chunkMap[key]) else None
  }

  function SizeOf(store: seq<Chunk>, o: Option<nat>): Option<nat>
    requires o.Some? ==> o.value < |store|
  {
    if o.Some? then Some(store[o.value].totalLength) else None
  }

  /** The chunk `chunk` is absorbed into `prev` when that one is strictly
      smaller, else into `next`; the result is the new store and the chunk
      merged into, or `None` where `mergeInto` would be `undefined`. */
  function Absorb(store: seq<Chunk>, chunk: nat, prev: Option<nat>, next: Option<nat>): (r: Option<(seq<Chunk>, nat)>)
    requires chunk < |store|
    requires prev.Some? ==> prev.value < |store|
    requires next.Some? ==> next.value < |store|
    ensures r.Some? ==> |r.value.0| == |store| && r.value.1 < |store|
    ensures r.Some? && SpansWithin(store) ==> SpansWithin(r.value.0)
    ensures r.None? <==> prev.None? && next.None?
    ensures r.Some? && SmallerSize(SizeOf(store, prev), SizeOf(store, next)) ==> prev.Some? && r.value.1 == prev.value
    ensures r.Some? && !SmallerSize(SizeOf(store, prev), SizeOf(store, next)) ==> next.Some? && r.value.1 == next.value
    ensures r.Some? ==> r.value.0[r.value.1].totalLength == store[r.value.1].totalLength + store[chunk].totalLength
    ensures r.Some? ==> forall j :: 0 <= j < |store| && j != r.value.1 ==> r.value.0[j] == store[j]
  {
    var c := store[chunk];
    if SmallerSize(SizeOf(store, prev), SizeOf(store, next)) then
      var p := store[prev.value];
      Some((store[prev.value := Chunk(p.totalLength + c.totalLength, p.first, c.last)], prev.value))
    else if next.None? then None
    else
      var q := store[next.value];
      Some((store[next.value := Chunk(q.totalLength + c.totalLength, c.first, q.last)], next.value))
  }

  /** One range per chunk: from chapter 0 of its first book to the last
      chapter of its last book. */
  function RangeOf(book: BookRoot, c: Chunk): ChunkRange
    requires c.first < |book.children| && c.last < |book.children|
  {
    var endL1 := Chapters(book, c.last) - 1;
    ChunkRange(c.first, 0, c.last, endL1, DescribeRange(book, c.first, 0, c.last, endL1))
  }

  // ---------------------------------------------------------------------------
  // The loop as written

  datatype MergeState = MergeState(store: seq<Chunk>, chunks: seq<nat>, chunkMap: map<int, nat>)

  /** Every index in the state names a chunk of the store, and every chunk
      spans books of the text. */
  predicate Indexed(s: MergeState, n: nat) {
    && |s.store| == n
    && (forall j :: 0 <= j < |s.chunks| ==> s.chunks[j] < n)
    && (forall k :: k in s.chunkMap ==> s.chunkMap[k] < n)
    && SpansWithin(s.store)
  }

  /** The chunks and map before the loop. */
  function Initial(lens: seq<nat>): (s: MergeState)
    ensures Indexed(s, |lens|)
  {
    var store := seq(|lens|, i requires 0 <= i < |lens| => Chunk(lens[i], i, i));
    var chunks := SortBy(store, ByLength, seq(|lens|, i => i));
    SortByBelow(store, ByLength, seq(|lens|, i => i), |lens|);
    MergeState(store, chunks, IdentityMap(|lens|))
  }

  /** How `chunkMap` learns where a removed chunk went: as written, only the
      chunk's original index is sent to it (`chunkMap.set(chunk.originalIndex,
      mergeInto)`); corrected, every book the chunk spans is. */
  datatype Remap = OriginalIndex | WholeSpan

  /** `if (chunks[0].totalLength > chunks[1].totalLength) chunks.sort(...)`:
      the chunks are re-sorted by length when the first is no longer the
      smallest. */
  function Reordered(store: seq<Chunk>, chunks: seq<nat>): (r: seq<nat>)
    requires |chunks| >= 2 && chunks[0] < |store| && chunks[1] < |store|
    ensures |r| == |chunks|
  {
    if store[chunks[0]].totalLength > store[chunks[1]].totalLength then SortBy(store, ByLength, chunks) else chunks
  }

  /** The re-sort keeps the chunks; it leaves them as they are while the first
      is no longer than the second, and otherwise puts them in length order. */
  lemma ReorderedSorts(store: seq<Chunk>, chunks: seq<nat>)
    requires |chunks| >= 2 && chunks[0] < |store| && chunks[1] < |store|
    ensures multiset(Reordered(store, chunks)) == multiset(chunks)
    ensures store[chunks[0]].totalLength <= store[chunks[1]].totalLength ==> Reordered(store, chunks) == chunks
    ensures store[chunks[0]].totalLength > store[chunks[1]].totalLength ==> SortedBy(store, ByLength, Reordered(store, chunks))
  {
    SortByPermutes(store, ByLength, chunks);
    SortBySorted(store, ByLength, chunks);
  }

  /** Before the loop: book `i` is the chunk `i` of its own length, the chunks
      are in length order, and `chunkMap` sends every book to its own chunk. */
  lemma InitialState(lens: seq<nat>)
    ensures var s := Initial(lens);
      && |s.store| == |lens|
      && (forall i :: 0 <= i < |lens| ==> s.store[i] == Chunk(lens[i], i, i))
      && SortedBy(s.store, ByLength, s.chunks)
      && (forall x :: x in s.chunkMap <==> 0 <= x < |lens|)
      && (forall x :: x in s.chunkMap ==> s.chunkMap[x] == x)
  {
    SortBySorted(Initial(lens).store, ByLength, seq(|lens|, i => i));
  }

  /** One iteration of the merge loop: re-sort by length when the first chunk
      is no longer the smallest, take it off and absorb it into a neighbour.
      `None` is the `TypeError` of a chunk with no neighbour. */
  function Step(s: MergeState, n: nat, remap: Remap): (r: Option<MergeState>)
    requires Indexed(s, n) && |s.chunks| >= 2
    ensures r.Some? ==> Indexed(r.value, n) && |r.value.chunks| == |s.chunks| - 1
  {
    var store := s.store;
    var chunks := Reordered(store, s.chunks);
    SortByBelow(store, ByLength, s.chunks, n);
    var chunk := chunks[0];
    var prev := Lookup(s.chunkMap, store[chunk].first - 1);
    var next := Lookup(s.chunkMap, store[chunk].last + 1);
    match Absorb(store, chunk, prev, next)
    case None => None
    case Some((store', into)) =>
      var chunkMap := match remap
        case OriginalIndex => s.chunkMap[chunk := into]
        case WholeSpan => Redirect(s.chunkMap, store[chunk], into);
      Some(MergeState(store', chunks[1..], chunkMap))
  }

  /** `while (numElements > desiredElements)`: `numElements` is always the
      number of chunks left. `None` is the `TypeError` of a missing neighbour. */
  function LoopAsWritten(s: MergeState, n: nat, desired: nat): (r: Option<MergeState>)
    requires Indexed(s, n) && desired >= 1
    ensures r.Some? ==> Indexed(r.value, n)
    decreases |s.chunks|
  {
    if |s.chunks| <= desired then Some(s)
    else match Step(s, n, OriginalIndex)
      case None => None
      case Some(s') => LoopAsWritten(s', n, desired)
  }

  /** The ranges of the chunks left, sorted by their first book. */
  function FinalRanges(book: BookRoot, s: MergeState): (ranges: seq<ChunkRange>)
    requires Indexed(s, |book.children|)
    ensures |ranges| == |s.chunks|
  {
    var order := SortBy(s.store, ByFirst, s.chunks);
    SortByBelow(s.store, ByFirst, s.chunks, |book.children|);
    RangesOf(book, LiveSpans(s.store, order))
  }

  /** The lengths of the chunks left, in the same order. */
  function FinalLengths(s: MergeState): (lengths: seq<nat>)
    requires forall j :: 0 <= j < |s.chunks| ==> s.chunks[j] < |s.store|
    ensures |lengths| == |s.chunks|
  {
    var order := SortBy(s.store, ByFirst, s.chunks);
    SortByBelow(s.store, ByFirst, s.chunks, |s.store|);
    Totals(LiveSpans(s.store, order))
  }

  /** `mergeL0Children(desiredElements, book)` as written. */
  function MergeAsWritten(desired: nat, book: BookRoot): Option<seq<ChunkRange>>
    requires desired >= 1
  {
    match LoopAsWritten(Initial(Lens(book)), |book.children|, desired)
    case None => None
    case Some(s) => Some(FinalRanges(book, s))
  }

  // ---------------------------------------------------------------------------
  // The loop corrected: `chunkMap` redirects every book of the removed chunk

  predicate Within(c: Chunk, x: int) {
    c.first <= x <= c.last
  }

  predicate Disjoint(c: Chunk, d: Chunk) {
    c.last < d.first || d.last < c.first
  }

  /** The live chunks: distinct, each a non-empty run of books. */
  ghost predicate Live(store: seq<Chunk>, chunks: seq<nat>) {
    && Distinct(chunks)
    && (forall j :: 0 <= j < |chunks| ==> chunks[j] < |store|)
    && (forall o :: o in chunks ==> o < |store| && store[o].first <= store[o].last)
  }

  /** No two live chunks share a book. */
  ghost predicate Separate(store: seq<Chunk>, chunks: seq<nat>)
    requires Live(store, chunks)
  {
    forall o, q :: o in chunks && q in chunks && o != q ==> Disjoint(store[o], store[q])
  }

  /** Each live chunk weighs the lengths of its books. */
  ghost predicate Weighted(lens: seq<nat>, store: seq<Chunk>, chunks: seq<nat>)
    requires Live(store, chunks) && |store| == |lens| && SpansWithin(store)
  {
    forall o :: o in chunks ==> store[o].totalLength == SumRange(lens, store[o].first, store[o].last + 1)
  }

  /** `chunkMap` sends each book to the live chunk holding it. */
  ghost predicate Mapped(store: seq<Chunk>, chunks: seq<nat>, chunkMap: map<int, nat>)
    requires Live(store, chunks)
  {
    && (forall x :: x in chunkMap <==> 0 <= x < |store|)
    && (forall x :: 0 <= x < |store| ==> chunkMap[x] in chunks && Within(store[chunkMap[x]], x))
  }

  /** What holds before and after every iteration of the corrected loop. */
  ghost predicate MergeInvariant(lens: seq<nat>, store: seq<Chunk>, chunks: seq<nat>, chunkMap: map<int, nat>) {
    && |store| == |lens|
    && SpansWithin(store)
    && Live(store, chunks)
    && Separate(store, chunks)
    && Weighted(lens, store, chunks)
    && Mapped(store, chunks, chunkMap)
  }

  /** `chunkMap` after the corrected merge of `c` into `into`. */
  function Redirect(chunkMap: map<int, nat>, c: Chunk, into: nat): (m: map<int, nat>)
    ensures forall x :: x in m <==> x in chunkMap
    ensures forall x :: x in m ==> m[x] == if c.first <= x <= c.last then into else chunkMap[x]
  {
    map x | x in chunkMap :: if c.first <= x <= c.last then into else chunkMap[x]
  }

  lemma InitialInvariant(lens: seq<nat>)
    ensures MergeInvariant(lens, Initial(lens).store, Initial(lens).chunks, Initial(lens).chunkMap)
  {
    var s := Initial(lens);
    InitialLive(lens);
    forall o | o in s.chunks ensures s.store[o].totalLength == SumRange(lens, o, o + 1) {
    }
  }

  /** Before the loop every book is its own live chunk, found by `chunkMap`. */
  lemma InitialLive(lens: seq<nat>)
    ensures Live(Initial(lens).store, Initial(lens).chunks)
    ensures Mapped(Initial(lens).store, Initial(lens).chunks, Initial(lens).chunkMap)
  {
    var s := Initial(lens);
    InitialChunks(lens);
    assert Live(s.store, s.chunks);
    forall x | 0 <= x < |lens| ensures s.chunkMap[x] in s.chunks {
      assert x in multiset(s.chunks);
    }
  }

  /** The initial chunk list holds each book's index once. */
  lemma InitialChunks(lens: seq<nat>)
    ensures Distinct(Initial(lens).chunks)
    ensures forall x :: x in multiset(Initial(lens).chunks) <==> 0 <= x < |lens|
  {
    var store := Initial(lens).store;
    var ids := seq(|lens|, i => i);
    SortByPermutes(store, ByLength, ids);
    SortByDistinct(store, ByLength, ids);
    forall x ensures x in multiset(ids) <==> 0 <= x < |lens| {
      if 0 <= x < |lens| {
        assert ids[x] == x;
      }
    }
  }

  /** Sorting the chunks keeps the invariant. */
  lemma SortKeepsInvariant(lens: seq<nat>, store: seq<Chunk>, chunks: seq<nat>, chunkMap: map<int, nat>, key: SortKey)
    requires MergeInvariant(lens, store, chunks, chunkMap)
    ensures MergeInvariant(lens, store, SortBy(store, key, chunks), chunkMap)
  {
    SortByPermutes(store, key, chunks);
    SortByDistinct(store, key, chunks);
    SortByBelow(store, key, chunks, |store|);
    var sorted := SortBy(store, key, chunks);
    forall o ensures o in sorted <==> o in chunks {
      assert o in sorted <==> o in multiset(sorted);
      assert o in chunks <==> o in multiset(chunks);
    }
  }

  /** Removing the first of distinct chunks leaves exactly the others. */
  lemma TailMembers(chunks: seq<nat>)
    requires Distinct(chunks) && |chunks| >= 1
    ensures forall o :: o in chunks[1..] <==> o in chunks && o != chunks[0]
  {
    forall o ensures o in chunks[1..] <==> o in chunks && o != chunks[0] {
      if o in chunks && o != chunks[0] {
        var j :| 0 <= j < |chunks| && chunks[j] == o;
        assert chunks[1..][j - 1] == o;
      }
    }
  }

  /** Live chunk `into` holds the book next to the first live chunk and grows
      over it to `grown`, keeping the first chunk's length too. */
  ghost predicate Absorbs(store: seq<Chunk>, chunks: seq<nat>, into: nat, grown: Chunk)
    requires Live(store, chunks) && |chunks| >= 1 && into < |store|
  {
    var c, d := store[chunks[0]], store[into];
    || (d.last + 1 == c.first && grown == Chunk(d.totalLength + c.totalLength, d.first, c.last))
    || (c.last + 1 == d.first && grown == Chunk(d.totalLength + c.totalLength, c.first, d.last))
  }

  lemma AbsorbLive(lens: seq<nat>, store: seq<Chunk>, chunks: seq<nat>, chunkMap: map<int, nat>, into: nat, grown: Chunk)
    requires MergeInvariant(lens, store, chunks, chunkMap) && |chunks| >= 2
    requires into in chunks && into != chunks[0] && Absorbs(store, chunks, into, grown)
    ensures SpansWithin(store[into := grown]) && Live(store[into := grown], chunks[1..])
  {
    assert chunks[0] in chunks;
    TailMembers(chunks);
  }

  lemma AbsorbSeparate(lens: seq<nat>, store: seq<Chunk>, chunks: seq<nat>, chunkMap: map<int, nat>, into: nat, grown: Chunk)
    requires MergeInvariant(lens, store, chunks, chunkMap) && |chunks| >= 2
    requires into in chunks && into != chunks[0] && Absorbs(store, chunks, into, grown)
    requires Live(store[into := grown], chunks[1..])
    ensures Separate(store[into := grown], chunks[1..])
  {
    assert chunks[0] in chunks;
    var c := store[chunks[0]];
    var store', tail := store[into := grown], chunks[1..];
    TailMembers(chunks);
    forall o, q | o in tail && q in tail && o != q ensures Disjoint(store'[o], store'[q]) {
      assert Disjoint(store[o], store[q]);
      if o == into {
        assert Disjoint(store[q], c);
      } else if q == into {
        assert Disjoint(store[o], c);
      }
    }
  }

  lemma AbsorbWeighted(lens: seq<nat>, store: seq<Chunk>, chunks: seq<nat>, chunkMap: map<int, nat>, into: nat, grown: Chunk)
    requires MergeInvariant(lens, store, chunks, chunkMap) && |chunks| >= 2
    requires into in chunks && into != chunks[0] && Absorbs(store, chunks, into, grown)
    requires SpansWithin(store[into := grown]) && Live(store[into := grown], chunks[1..])
    ensures Weighted(lens, store[into := grown], chunks[1..])
  {
    assert chunks[0] in chunks;
    var c, d := store[chunks[0]], store[into];
    if d.last + 1 == c.first {
      SumRangeSplit(lens, d.first, c.first, c.last + 1);
    } else {
      SumRangeSplit(lens, c.first, d.first, d.last + 1);
    }
    TailMembers(chunks);
  }

  lemma AbsorbMapped(lens: seq<nat>, store: seq<Chunk>, chunks: seq<nat>, chunkMap: map<int, nat>, into: nat, grown: Chunk)
    requires MergeInvariant(lens, store, chunks, chunkMap) && |chunks| >= 2
    requires into in chunks && into != chunks[0] && Absorbs(store, chunks, into, grown)
    requires Live(store[into := grown], chunks[1..])
    ensures Mapped(store[into := grown], chunks[1..], Redirect(chunkMap, store[chunks[0]], into))
  {
    assert chunks[0] in chunks;
    var c := store[chunks[0]];
    var store', tail, m' := store[into := grown], chunks[1..], Redirect(chunkMap, c, into);
    TailMembers(chunks);
    forall x | 0 <= x < |store'| ensures m'[x] in tail && Within(store'[m'[x]], x) {
      if !Within(c, x) {
        assert chunkMap[x] != chunks[0];
      }
    }
  }

  /** The invariant after the first live chunk is absorbed by its neighbour `into`. */
  lemma AbsorbKeepsInvariant(lens: seq<nat>, store: seq<Chunk>, chunks: seq<nat>, chunkMap: map<int, nat>,
                             into: nat, grown: Chunk)
    requires MergeInvariant(lens, store, chunks, chunkMap) && |chunks| >= 2
    requires into in chunks && into != chunks[0] && Absorbs(store, chunks, into, grown)
    ensures MergeInvariant(lens, store[into := grown], chunks[1..], Redirect(chunkMap, store[chunks[0]], into))
  {
    AbsorbLive(lens, store, chunks, chunkMap, into, grown);
    AbsorbSeparate(lens, store, chunks, chunkMap, into, grown);
    AbsorbWeighted(lens, store, chunks, chunkMap, into, grown);
    AbsorbMapped(lens, store, chunks, chunkMap, into, grown);
  }

  /** The book before the first live chunk, when there is one, lies in a
      different live chunk that ends right before it. */
  lemma PrevNeighbour(lens: seq<nat>, store: seq<Chunk>, chunks: seq<nat>, chunkMap: map<int, nat>)
    requires MergeInvariant(lens, store, chunks, chunkMap) && |chunks| >= 1
    requires store[chunks[0]].first - 1 in chunkMap
    ensures var c := store[chunks[0]]; var into := chunkMap[c.first - 1];
      into in chunks && into != chunks[0] && store[into].last + 1 == c.first
  {
    assert chunks[0] in chunks;
    var c := store[chunks[0]];
    var into := chunkMap[c.first - 1];
    assert Within(store[into], c.first - 1);
  }

  /** The book after the first live chunk, when there is one, lies in a
      different live chunk that starts right after it. */
  lemma NextNeighbour(lens: seq<nat>, store: seq<Chunk>, chunks: seq<nat>, chunkMap: map<int, nat>)
    requires MergeInvariant(lens, store, chunks, chunkMap) && |chunks| >= 1
    requires store[chunks[0]].last + 1 in chunkMap
    ensures var c := store[chunks[0]]; var into := chunkMap[c.last + 1];
      into in chunks && into != chunks[0] && c.last + 1 == store[into].first
  {
    assert chunks[0] in chunks;
    var c := store[chunks[0]];
    var into := chunkMap[c.last + 1];
    assert Within(store[into], c.last + 1);
  }

  /** With two live chunks or more, the first has a neighbour on some side. */
  lemma SomeNeighbour(lens: seq<nat>, store: seq<Chunk>, chunks: seq<nat>, chunkMap: map<int, nat>)
    requires MergeInvariant(lens, store, chunks, chunkMap) && |chunks| >= 2
    ensures store[chunks[0]].first - 1 in chunkMap || store[chunks[0]].last + 1 in chunkMap
  {
    assert chunks[0] in chunks && chunks[1] in chunks;
    assert Disjoint(store[chunks[1]], store[chunks[0]]);
  }

  /** The corrected iteration's new state, given where its first chunk went. */
  lemma StepAbsorbs(s: MergeState, n: nat, into: nat, grown: Chunk)
    requires Indexed(s, n) && |s.chunks| >= 2
    requires Reordered(s.store, s.chunks)[0] < n && into < n
    requires var c := s.store[Reordered(s.store, s.chunks)[0]];
      Absorb(s.store, Reordered(s.store, s.chunks)[0], Lookup(s.chunkMap, c.first - 1), Lookup(s.chunkMap, c.last + 1))
      == Some((s.store[into := grown], into))
    ensures var chunks := Reordered(s.store, s.chunks);
      Step(s, n, WholeSpan) == Some(MergeState(s.store[into := grown], chunks[1..], Redirect(s.chunkMap, s.store[chunks[0]], into)))
  {
  }

  /** The first live chunk always has a neighbour to be absorbed into. */
  lemma ChooseNeighbour(lens: seq<nat>, store: seq<Chunk>, chunks: seq<nat>, chunkMap: map<int, nat>)
    returns (into: nat, grown: Chunk)
    requires MergeInvariant(lens, store, chunks, chunkMap) && |chunks| >= 2
    ensures chunks[0] < |store| && into < |store|
    ensures forall x :: x in chunkMap ==> chunkMap[x] < |store|
    ensures into in chunks && into != chunks[0] && Absorbs(store, chunks, into, grown)
    ensures var c := store[chunks[0]];
      Absorb(store, chunks[0], Lookup(chunkMap, c.first - 1), Lookup(chunkMap, c.last + 1))
      == Some((store[into := grown], into))
  {
    var c := store[chunks[0]];
    var prev, next := Lookup(chunkMap, c.first - 1), Lookup(chunkMap, c.last + 1);
    SomeNeighbour(lens, store, chunks, chunkMap);
    if prev.Some? {
      PrevNeighbour(lens, store, chunks, chunkMap);
    }
    if next.Some? {
      NextNeighbour(lens, store, chunks, chunkMap);
    }
    if SmallerSize(SizeOf(store, prev), SizeOf(store, next)) {
      into := prev.value;
      var d := store[into];
      grown := Chunk(d.totalLength + c.totalLength, d.first, c.last);
      assert Absorb(store, chunks[0], prev, next) == Some((store[into := grown], into));
    } else {
      into := next.value;
      var d := store[into];
      grown := Chunk(d.totalLength + c.totalLength, c.first, d.last);
      assert Absorb(store, chunks[0], prev, next) == Some((store[into := grown], into));
    }
  }

  /** The first chunk, once re-sorted, always has a neighbour; absorbing it
      there is the corrected iteration, and it keeps the invariant. */
  lemma AbsorbFirst(lens: seq<nat>, s: MergeState) returns (into: nat, grown: Chunk)
    requires Indexed(s, |lens|) && |s.chunks| >= 2
    requires MergeInvariant(lens, s.store, Reordered(s.store, s.chunks), s.chunkMap)
    ensures var chunks := Reordered(s.store, s.chunks);
      && into < |lens|
      && Step(s, |lens|, WholeSpan)
         == Some(MergeState(s.store[into := grown], chunks[1..], Redirect(s.chunkMap, s.store[chunks[0]], into)))
      && MergeInvariant(lens, s.store[into := grown], chunks[1..], Redirect(s.chunkMap, s.store[chunks[0]], into))
  {
    into, grown := ChooseNeighbour(lens, s.store, Reordered(s.store, s.chunks), s.chunkMap);
    StepAbsorbs(s, |lens|, into, grown);
    AbsorbKeepsInvariant(lens, s.store, Reordered(s.store, s.chunks), s.chunkMap, into, grown);
  }

  /** A corrected iteration always finds a neighbour and keeps the invariant. */
  lemma StepKeepsInvariant(lens: seq<nat>, s: MergeState) returns (t: MergeState)
    requires MergeInvariant(lens, s.store, s.chunks, s.chunkMap) && |s.chunks| >= 2
    ensures Indexed(s, |lens|)
    ensures Step(s, |lens|, WholeSpan) == Some(t)
    ensures MergeInvariant(lens, t.store, t.chunks, t.chunkMap)
  {
    forall k | k in s.chunkMap ensures s.chunkMap[k] < |s.store| {
      assert s.chunkMap[k] in s.chunks;
    }
    assert s.chunks[0] in s.chunks && s.chunks[1] in s.chunks;
    SortKeepsInvariant(lens, s.store, s.chunks, s.chunkMap, ByLength);
    var chunks := Reordered(s.store, s.chunks);
    var into, grown := AbsorbFirst(lens, s);
    t := MergeState(s.store[into := grown], chunks[1..], Redirect(s.chunkMap, s.store[chunks[0]], into));
  }

  /** Books `x` in `spans[j]` for some `j`. */
  ghost predicate Covered(spans: seq<Chunk>, x: int) {
    exists j :: 0 <= j < |spans| && Within(spans[j], x)
  }

  /** The spans of `spans` follow one another from book `a` to book `b - 1`. */
  predicate Abut(spans: seq<Chunk>, a: int, b: int)
    decreases |spans|
  {
    if |spans| == 0 then a == b
    else spans[0].first == a && spans[0].first <= spans[0].last && Abut(spans[1..], spans[0].last + 1, b)
  }

  /** Spans that lie in books `a..b-1`, cover each of them, do not overlap and
      are sorted by first book follow one another. */
  lemma {:induction false} SortedPartitionAbuts(spans: seq<Chunk>, a: int, b: int)
    requires a <= b
    requires forall j :: 0 <= j < |spans| ==> a <= spans[j].first <= spans[j].last < b
    requires forall i, j :: 0 <= i < j < |spans| ==> spans[i].first <= spans[j].first
    requires forall i, j :: 0 <= i < |spans| && 0 <= j < |spans| && i != j ==> Disjoint(spans[i], spans[j])
    requires forall x :: a <= x < b ==> Covered(spans, x)
    ensures Abut(spans, a, b)
    decreases |spans|
  {
    assert a < b ==> Covered(spans, a);
    if |spans| > 0 {
      var rest := spans[1..];
      var a' := spans[0].last + 1;
      forall x | a' <= x < b ensures Covered(rest, x) {
        assert Covered(spans, x);
        var j :| 0 <= j < |spans| && Within(spans[j], x);
        assert rest[j - 1] == spans[j];
      }
      forall j | 0 <= j < |rest| ensures a' <= rest[j].first <= rest[j].last < b {
        assert rest[j] == spans[j + 1] && Disjoint(spans[0], spans[j + 1]);
      }
      SortedPartitionAbuts(rest, a', b);
    }
  }

  lemma {:induction false} AbutBounds(spans: seq<Chunk>, a: int, b: int, j: nat)
    requires Abut(spans, a, b) && j < |spans|
    ensures a <= spans[j].first <= spans[j].last < b
    decreases |spans|
  {
    AbutEnds(spans[1..], spans[0].last + 1, b);
    if j > 0 {
      AbutBounds(spans[1..], spans[0].last + 1, b, j - 1);
    }
  }

  lemma {:induction false} AbutEnds(spans: seq<Chunk>, a: int, b: int)
    requires Abut(spans, a, b)
    ensures a <= b
    decreases |spans|
  {
    if |spans| > 0 {
      AbutEnds(spans[1..], spans[0].last + 1, b);
    }
  }

  /** Abutting spans start at strictly increasing books. */
  lemma {:induction false} AbutIncreasing(spans: seq<Chunk>, a: int, b: int)
    requires Abut(spans, a, b)
    ensures forall i, j :: 0 <= i < j < |spans| ==> spans[i].first < spans[j].first
    decreases |spans|
  {
    if |spans| > 0 {
      AbutIncreasing(spans[1..], spans[0].last + 1, b);
      forall j | 1 <= j < |spans| ensures spans[0].first < spans[j].first {
        AbutBounds(spans[1..], spans[0].last + 1, b, j - 1);
      }
    }
  }

  /** One range per span. */
  function RangesOf(book: BookRoot, spans: seq<Chunk>): (ranges: seq<ChunkRange>)
    requires forall j :: 0 <= j < |spans| ==> spans[j].first < |book.children| && spans[j].last < |book.children|
    ensures |ranges| == |spans|
  {
    seq(|spans|, j requires 0 <= j < |spans| => RangeOf(book, spans[j]))
  }

  /** Abutting spans of books give ranges that chain over their chapters. */
  lemma {:induction false} AbutChains(book: BookRoot, spans: seq<Chunk>, a: nat, b: nat)
    requires Abut(spans, a, b) && b <= |book.children|
    ensures forall j :: 0 <= j < |spans| ==> spans[j].first < |book.children| && spans[j].last < |book.children|
    ensures Chain(book, RangesOf(book, spans), ChaptersBefore(book, a), ChaptersBefore(book, b))
    decreases |spans|
  {
    forall j | 0 <= j < |spans| ensures spans[j].first < |book.children| && spans[j].last < |book.children| {
      AbutBounds(spans, a, b, j);
    }
    if |spans| > 0 {
      var s := spans[0];
      AbutEnds(spans[1..], s.last + 1, b);
      AbutChains(book, spans[1..], s.last + 1, b);
      var r := RangeOf(book, s);
      ChaptersBeforeMonotone(book, a, s.last + 1);
      ChainOfOne(book, r);
      assert RangesOf(book, spans) == [r] + RangesOf(book, spans[1..]);
      ChainAppend(book, [r], RangesOf(book, spans[1..]), ChaptersBefore(book, a), ChaptersBefore(book, s.last + 1),
                  ChaptersBefore(book, b));
    }
  }

  /** The lengths of abutting spans that weigh their books add up to the
      length of all their books. */
  lemma {:induction false} AbutTotals(lens: seq<nat>, spans: seq<Chunk>, a: nat, b: nat)
    requires Abut(spans, a, b) && a <= b <= |lens|
    requires forall j :: 0 <= j < |spans| ==>
      spans[j].first <= spans[j].last < |lens| && spans[j].totalLength == SumRange(lens, spans[j].first, spans[j].last + 1)
    ensures Split.Sum(Totals(spans)) == SumRange(lens, a, b)
    decreases |spans|
  {
    var totals := Totals(spans);
    if |spans| > 0 {
      var s := spans[0];
      AbutEnds(spans[1..], s.last + 1, b);
      AbutTotals(lens, spans[1..], s.last + 1, b);
      assert totals == [s.totalLength] + Totals(spans[1..]);
      Split.SumCons(s.totalLength, Totals(spans[1..]));
      SumRangeSplit(lens, a, s.last + 1, b);
    } else {
      assert totals == [];
    }
  }

  /** The length of each span. */
  function Totals(spans: seq<Chunk>): (totals: seq<nat>)
    ensures |totals| == |spans|
  {
    seq(|spans|, j requires 0 <= j < |spans| => spans[j].totalLength)
  }

  /** Abutting spans over all the books, each weighing its books, give ranges
      that tile the text in book order, each from chapter 0 of its first book to
      the last chapter of its last, and lengths that add up to the whole. */
  lemma AbutRanges(book: BookRoot, spans: seq<Chunk>)
    requires Abut(spans, 0, |book.children|)
    requires forall j :: 0 <= j < |spans| ==> spans[j].first <= spans[j].last < |book.children|
    requires forall j :: 0 <= j < |spans| ==>
      spans[j].totalLength == SumRange(Lens(book), spans[j].first, spans[j].last + 1)
    ensures var ranges, lengths := RangesOf(book, spans), Totals(spans);
      && Tiles(book, ranges)
      && (forall j, k :: 0 <= j < k < |ranges| ==> ranges[j].startL0 < ranges[k].startL0)
      && (forall j :: 0 <= j < |ranges| ==>
            && ranges[j].startL1 == 0 && ranges[j].startL0 <= ranges[j].endL0 < |book.children|
            && ranges[j].endL1 == Chapters(book, ranges[j].endL0) - 1
            && lengths[j] == SumRange(Lens(book), ranges[j].startL0, ranges[j].endL0 + 1))
      && Split.Sum(lengths) == SumRange(Lens(book), 0, |book.children|)
  {
    AbutChains(book, spans, 0, |book.children|);
    AbutIncreasing(spans, 0, |book.children|);
    AbutTotals(Lens(book), spans, 0, |book.children|);
  }

  /** The live chunks in the order of their first book. */
  function LiveSpans(store: seq<Chunk>, chunks: seq<nat>): (spans: seq<Chunk>)
    requires forall j :: 0 <= j < |chunks| ==> chunks[j] < |store|
    ensures |spans| == |chunks|
  {
    seq(|chunks|, j requires 0 <= j < |chunks| => store[chunks[j]])
  }

  /** Under the invariant, the live chunks sorted by first book abut across all books. */
  lemma LiveSpansAbut(lens: seq<nat>, store: seq<Chunk>, chunks: seq<nat>, chunkMap: map<int, nat>)
    requires MergeInvariant(lens, store, chunks, chunkMap)
    requires SortedBy(store, ByFirst, chunks)
    ensures forall j :: 0 <= j < |chunks| ==> chunks[j] < |store|
    ensures Abut(LiveSpans(store, chunks), 0, |store|)
  {
    var spans := LiveSpans(store, chunks);
    forall x | 0 <= x < |store| ensures Covered(spans, x) {
      assert chunkMap[x] in chunks;
      var j :| 0 <= j < |chunks| && chunks[j] == chunkMap[x];
      assert Within(spans[j], x);
    }
    forall i, j | 0 <= i < |spans| && 0 <= j < |spans| && i != j ensures Disjoint(spans[i], spans[j]) {
      assert chunks[i] in chunks && chunks[j] in chunks;
    }
    forall i, j | 0 <= i < j < |spans| ensures spans[i].first <= spans[j].first {
      assert Key(store, ByFirst, chunks[i]) <= Key(store, ByFirst, chunks[j]);
    }
    SortedPartitionAbuts(spans, 0, |store|);
  }

  /** Once the loop ends with the invariant, the final ranges cut the text
      into consecutive pieces, in book order, each from chapter 0 of its first
      book to the last chapter of its last, and the lengths add up to the
      whole. */
  lemma FinalRangesTile(book: BookRoot, s: MergeState)
    requires MergeInvariant(Lens(book), s.store, s.chunks, s.chunkMap)
    ensures Indexed(s, |book.children|)
    ensures var ranges, lengths := FinalRanges(book, s), FinalLengths(s);
      && Tiles(book, ranges)
      && (forall j, k :: 0 <= j < k < |ranges| ==> ranges[j].startL0 < ranges[k].startL0)
      && (forall j :: 0 <= j < |ranges| ==>
            && ranges[j].startL1 == 0 && ranges[j].startL0 <= ranges[j].endL0 < |book.children|
            && ranges[j].endL1 == Chapters(book, ranges[j].endL0) - 1
            && lengths[j] == SumRange(Lens(book), ranges[j].startL0, ranges[j].endL0 + 1))
      && Split.Sum(lengths) == SumRange(Lens(book), 0, |book.children|)
  {
    var spans := FinalSpans(book, s);
    AbutRanges(book, spans);
  }

  /** The live chunks left by the loop, in book order, abut over all books. */
  lemma FinalSpans(book: BookRoot, s: MergeState) returns (spans: seq<Chunk>)
    requires MergeInvariant(Lens(book), s.store, s.chunks, s.chunkMap)
    ensures Indexed(s, |book.children|)
    ensures Abut(spans, 0, |book.children|)
    ensures forall j :: 0 <= j < |spans| ==> spans[j].first <= spans[j].last < |book.children|
    ensures forall j :: 0 <= j < |spans| ==>
      spans[j].totalLength == SumRange(Lens(book), spans[j].first, spans[j].last + 1)
    ensures FinalRanges(book, s) == RangesOf(book, spans) && FinalLengths(s) == Totals(spans)
  {
    var lens := Lens(book);
    forall k | k in s.chunkMap ensures s.chunkMap[k] < |s.store| {
      assert s.chunkMap[k] in s.chunks;
    }
    SortKeepsInvariant(lens, s.store, s.chunks, s.chunkMap, ByFirst);
    SortBySorted(s.store, ByFirst, s.chunks);
    var order := SortBy(s.store, ByFirst, s.chunks);
    LiveSpansAbut(lens, s.store, order, s.chunkMap);
    spans := LiveSpans(s.store, order);
    forall j | 0 <= j < |spans|
      ensures spans[j].first <= spans[j].last < |lens|
      ensures spans[j].totalLength == SumRange(lens, spans[j].first, spans[j].last + 1)
    {
      assert order[j] in order;
    }
  }

  /** The `while (numElements > desiredElements)` loop of `mergeL0Children`,
      with `chunkMap` redirected over the whole span of each removed chunk: it
      stops with `desired` live chunks that still partition the books, each
      weighing the books it spans. */
  method MergeChunks(lens: seq<nat>, desired: nat) returns (s: MergeState)
    requires 1 <= desired <= |lens|
    ensures MergeInvariant(lens, s.store, s.chunks, s.chunkMap)
    ensures |s.chunks| == desired
  {
    s := Initial(lens);
    InitialInvariant(lens);
    var numElements := |s.chunks|;
    while numElements > desired
      invariant MergeInvariant(lens, s.store, s.chunks, s.chunkMap)
      invariant numElements == |s.chunks| >= desired
    {
      ghost var t := StepKeepsInvariant(lens, s);
      s := Step(s, |lens|, WholeSpan).value;
      numElements := numElements - 1;
    }
  }

  /** `mergeL0Children(desiredElements, book)` with `chunkMap` redirected over
      the whole span of each removed chunk. The length of each returned range
      is returned beside it. */
  method MergeL0Children(desired: nat, book: BookRoot) returns (ranges: seq<ChunkRange>, lengths: seq<nat>)
    requires 1 <= desired < |book.children|
    ensures |ranges| == desired && |lengths| == desired
    ensures Tiles(book, ranges)
    ensures forall j, k :: 0 <= j < k < |ranges| ==> ranges[j].startL0 < ranges[k].startL0
    ensures forall j :: 0 <= j < |ranges| ==>
      && ranges[j].startL1 == 0 && ranges[j].startL0 <= ranges[j].endL0 < |book.children|
      && ranges[j].endL1 == Chapters(book, ranges[j].endL0) - 1
      && lengths[j] == SumRange(Lens(book), ranges[j].startL0, ranges[j].endL0 + 1)
    ensures Split.Sum(lengths) == SumRange(Lens(book), 0, |book.children|)
    ensures Titled(book, ranges)
  {
    var s := MergeChunks(Lens(book), desired);
    FinalRangesTile(book, s);
    ranges := FinalRanges(book, s);
    lengths := FinalLengths(s);
    FinalRangesTitled(book, s);
  }

  /** Each merged range is titled by `describeRange` of its ends. */
  lemma FinalRangesTitled(book: BookRoot, s: MergeState)
    requires Indexed(s, |book.children|)
    ensures Titled(book, FinalRanges(book, s))
  {
    SortByBelow(s.store, ByFirst, s.chunks, |book.children|);
  }

  // ---------------------------------------------------------------------------
  // A book the loop as written mishandles: four one-chapter books of lengths
  // 2, 1, 1, 2 merged into one range.

  function FourBooks(): BookRoot {
    BookRoot([BookDataNode("A", [BookDataLeaf(2)], 2), BookDataNode("B", [BookDataLeaf(1)], 1),
              BookDataNode("C", [BookDataLeaf(1)], 1), BookDataNode("D", [BookDataLeaf(2)], 2)], 1)
  }

  function FourState(store: seq<Chunk>, chunks: seq<nat>, m: seq<nat>): MergeState
    requires |m| == 4
  {
    MergeState(store, chunks, map[0 := m[0], 1 := m[1], 2 := m[2], 3 := m[3]])
  }

  const FourLens: seq<nat> := [2, 1, 1, 2]
  const Store0 := [Chunk(2, 0, 0), Chunk(1, 1, 1), Chunk(1, 2, 2), Chunk(2, 3, 3)]
  const Store1 := [Chunk(2, 0, 0), Chunk(1, 1, 1), Chunk(2, 1, 2), Chunk(2, 3, 3)]
  const Store2 := [Chunk(2, 0, 0), Chunk(1, 1, 1), Chunk(2, 1, 2), Chunk(4, 1, 3)]
  const Store3 := [Chunk(2, 0, 0), Chunk(1, 1, 1), Chunk(4, 0, 2), Chunk(4, 1, 3)]

  lemma FourLengthOrder()
    ensures SortBy(Store0, ByLength, [0, 1, 2, 3]) == [1, 2, 0, 3]
  {
    assert [0, 1, 2, 3][..3] == [0, 1, 2] && [0, 1, 2][..2] == [0, 1] && [0, 1][..1] == [0] && [0][..0] == [];
    assert SortBy(Store0, ByLength, [0]) == [0];
    assert SortBy(Store0, ByLength, [0, 1]) == [1, 0];
    assert InsertBy(Store0, ByLength, 2, [0]) == [2, 0];
    assert SortBy(Store0, ByLength, [0, 1, 2]) == [1, 2, 0];
    assert InsertBy(Store0, ByLength, 3, [0]) == [0, 3];
    assert InsertBy(Store0, ByLength, 3, [2, 0]) == [2, 0, 3];
  }

  lemma FourInitial()
    ensures Lens(FourBooks()) == FourLens
    ensures Initial(FourLens) == FourState(Store0, [1, 2, 0, 3], [0, 1, 2, 3])
  {
    assert seq(4, i => i) == [0, 1, 2, 3];
    assert seq(4, i requires 0 <= i < 4 => Chunk(FourLens[i], i, i)) == Store0;
    FourLengthOrder();
    assert IdentityMap(4) == map[0 := 0, 1 := 1, 2 := 2, 3 := 3];
  }

  /** Book B (length 1) goes into C, its smaller neighbour. */
  lemma FourStep1()
    ensures Step(FourState(Store0, [1, 2, 0, 3], [0, 1, 2, 3]), 4, OriginalIndex)
         == Some(FourState(Store1, [2, 0, 3], [0, 2, 2, 3]))
  {
    var m := map[0 := 0, 1 := 1, 2 := 2, 3 := 3];
    assert Lookup(m, 0) == Some(0) && Lookup(m, 2) == Some(2);
    assert Store0[2 := Chunk(2, 1, 2)] == Store1;
    assert Absorb(Store0, 1, Some(0), Some(2)) == Some((Store1, 2));
    assert m[1 := 2] == map[0 := 0, 1 := 2, 2 := 2, 3 := 3];
  }

  /** B-C (length 2) goes into D on a tie; book 1 still maps to the chunk just removed. */
  lemma FourStep2()
    ensures Step(FourState(Store1, [2, 0, 3], [0, 2, 2, 3]), 4, OriginalIndex)
         == Some(FourState(Store2, [0, 3], [0, 2, 3, 3]))
  {
    var m := map[0 := 0, 1 := 2, 2 := 2, 3 := 3];
    assert Lookup(m, 0) == Some(0) && Lookup(m, 3) == Some(3);
    assert Store1[3 := Chunk(4, 1, 3)] == Store2;
    assert Absorb(Store1, 2, Some(0), Some(3)) == Some((Store2, 3));
    assert m[2 := 3] == map[0 := 0, 1 := 2, 2 := 3, 3 := 3];
  }

  /** A (length 2) has no previous neighbour and goes into the chunk book 1
      maps to: the removed B-C chunk, so A is lost. */
  lemma FourStep3()
    ensures Step(FourState(Store2, [0, 3], [0, 2, 3, 3]), 4, OriginalIndex)
         == Some(FourState(Store3, [3], [2, 2, 3, 3]))
  {
    var m := map[0 := 0, 1 := 2, 2 := 3, 3 := 3];
    assert Reordered(Store2, [0, 3]) == [0, 3] && [0, 3][1..] == [3];
    assert Lookup(m, -1) == None && Lookup(m, 1) == Some(2);
    FourAbsorb3();
    assert m[0 := 2] == map[0 := 2, 1 := 2, 2 := 3, 3 := 3];
  }

  /** With no previous neighbour, A goes into chunk 2, which grows to books 0-2. */
  lemma FourAbsorb3()
    ensures Absorb(Store2, 0, None, Some(2)) == Some((Store3, 2))
  {
    assert Store2[2 := Chunk(4, 0, 2)] == Store3;
  }

  lemma FourLoop()
    ensures LoopAsWritten(Initial(Lens(FourBooks())), 4, 1) == Some(FourState(Store3, [3], [2, 2, 3, 3]))
  {
    FourInitial();
    var s0 := FourState(Store0, [1, 2, 0, 3], [0, 1, 2, 3]);
    var s1 := FourState(Store1, [2, 0, 3], [0, 2, 2, 3]);
    var s2 := FourState(Store2, [0, 3], [0, 2, 3, 3]);
    var s3 := FourState(Store3, [3], [2, 2, 3, 3]);
    FourStep1();
    FourStep2();
    FourStep3();
    assert LoopAsWritten(s3, 4, 1) == Some(s3);
    assert LoopAsWritten(s2, 4, 1) == Some(s3);
    assert LoopAsWritten(s1, 4, 1) == Some(s3);
  }

  lemma FourFinal()
    ensures FinalRanges(FourBooks(), FourState(Store3, [3], [2, 2, 3, 3])) == [ChunkRange(1, 0, 3, 0, "B - D")]
  {
    assert [3][..0] == [];
    assert SortBy(Store3, ByFirst, [3]) == [3];
    assert DescribeRange(FourBooks(), 1, 0, 3, 0) == "B - D";
  }

  /** As written, merging the four books into one range yields the single range
      "B - D", which leaves out book A: the result does not cover the text. */
  lemma MergeAsWrittenLosesBooks()
    ensures MergeAsWritten(1, FourBooks()) == Some([ChunkRange(1, 0, 3, 0, "B - D")])
    ensures !Tiles(FourBooks(), MergeAsWritten(1, FourBooks()).value)
  {
    FourLoop();
    FourFinal();
    assert ChaptersBefore(FourBooks(), 1) == 1;
  }
}
