/** `resultTree`: search hits filed in a sparse nested array keyed by their
    `(l0, l1, l2)` position, cut to the first `maxDepth + 1` components, and
    `subtree(path)`, which gives back the hits filed under a path prefix. */
module ResultTree {
  import opened Wrappers
  import opened Book

  /** A JavaScript array entry as the tree holds it: a hole (or `undefined`),
      a nested array, or a search hit. */
  datatype Slot = Hole | Arr(items: seq<Slot>) | Item(result: SearchResult)

  /** How many path components a hit is filed under: `maxDepth + 1`, at most
      the three of `[l0, l1, l2]`. */
  function Depth(maxDepth: nat): (d: nat)
    ensures 1 <= d <= 3
    ensures d == maxDepth + 1 || (d == 3 && maxDepth >= 2)
  {
    if maxDepth + 1 < 3 then maxDepth + 1 else 3
  }

  /** `[result.l0, result.l1, result.l2].slice(0, maxDepth + 1)`. */
  function PathOf(r: SearchResult, maxDepth: nat): (p: seq<nat>)
    ensures |p| == Depth(maxDepth)
    ensures p[0] == r.l0 && (|p| >= 2 ==> p[1] == r.l1) && (|p| == 3 ==> p[2] == r.l2)
  {
    [r.l0, r.l1, r.l2][..Depth(maxDepth)]
  }

  /** `node[k]`: beyond the end of the array it is `undefined`. */
  function Get(node: seq<Slot>, k: nat): Slot {
    if k < |node| then node[k] else Hole
  }

  /** The holes a write past the end of an array leaves. */
  function Holes(n: nat): (r: seq<Slot>)
    ensures |r| == n && forall i :: 0 <= i < n ==> r[i] == Hole
  {
    if n == 0 then [] else [Hole] + Holes(n - 1)
  }

  /** `node[k] = v`: writing past the end leaves holes in between. */
  function Put(node: seq<Slot>, k: nat, v: Slot): (r: seq<Slot>)
    ensures |r| == if k < |node| then |node| else k + 1
    ensures Get(r, k) == v
    ensures forall j :: j != k ==> Get(r, j) == Get(node, j)
  {
    if k < |node| then node[k := v] else node + Holes(k - |node|) + [v]
  }

  /** The hits an array holds at any depth, in index order, holes skipped:
      `flatten(node).filter(Boolean)`. */
  function Flatten(xs: seq<Slot>): seq<SearchResult>
    decreases xs
  {
    if xs == [] then [] else Flat(xs[0]) + Flatten(xs[1..])
  }

  function Flat(s: Slot): seq<SearchResult>
    decreases s
  {
    match s
    case Hole => []
    case Item(r) => [r]
    case Arr(items) => Flatten(items)
  }

  /** The tree at `s` has the shape the insert loop builds: arrays nested
      `depth - 1` deep, holding hits at the bottom only. */
  predicate Shaped(s: Slot, depth: nat)
    decreases s
  {
    match s
    case Hole => true
    case Item(_) => depth == 0
    case Arr(items) => depth >= 1 && forall i :: 0 <= i < |items| ==> Shaped(items[i], depth - 1)
  }

  /** The array at `node[k]`, or a fresh empty one where there is none. */
  function Child(node: seq<Slot>, k: nat): seq<Slot> {
    var s := Get(node, k);
    if s.Arr? then s.items else []
  }

  /** One pass of the insert loop for `result` filed under `path`: walk down,
      creating a missing array at each component but the last, then push the
      hit onto the list at the last component, or start that list. */
  function Insert(node: seq<Slot>, path: seq<nat>, r: SearchResult): seq<Slot>
    requires |path| >= 1
    decreases |path|
  {
    var existing := Child(node, path[0]);
    if |path| == 1 then Put(node, path[0], Arr(existing + [Item(r)]))
    else Put(node, path[0], Arr(Insert(existing, path[1..], r)))
  }

  /** The root after the insert loop has run over `results`. */
  function Build(results: seq<SearchResult>, maxDepth: nat): seq<Slot> {
    if results == [] then []
    else
      var r := results[|results| - 1];
      Insert(Build(results[..|results| - 1], maxDepth), PathOf(r, maxDepth), r)
  }

  /** The reference the tree answers to: the hits, in input order, whose
      path starts with `q`. */
  function Filed(results: seq<SearchResult>, q: seq<nat>, maxDepth: nat): (r: seq<SearchResult>)
    ensures |r| <= |results|
  {
    if results == [] then []
    else
      var last := results[|results| - 1];
      Filed(results[..|results| - 1], q, maxDepth) + (if q <= PathOf(last, maxDepth) then [last] else [])
  }

  /** What `node = node[p]` reaches for each `p` of `path` in turn; an
      `undefined` entry, or a hit, has nothing under it. */
  function Lookup(s: Slot, path: seq<nat>): Slot
    decreases |path|
  {
    if path == [] then s
    else match s
      case Arr(items) => Lookup(Get(items, path[0]), path[1..])
      case _ => Hole
  }

  /** `subtree(path)`: `[]` once the walk reaches nothing, the flattened
      array it reaches otherwise, and `None` where it stops on a hit, which
      `flatten` cannot take apart. */
  function SubtreeOf(root: seq<Slot>, path: seq<nat>): Option<seq<SearchResult>> {
    match Lookup(Arr(root), path)
    case Hole => Some([])
    case Arr(items) => Some(Flatten(items))
    case Item(_) => None
  }

  /** The hits under a path, whatever the walk reaches. */
  function Under(root: seq<Slot>, q: seq<nat>): seq<SearchResult> {
    Flat(Lookup(Arr(root), q))
  }

  // ---------------------------------------------------------------------------
  // Flattening

  lemma {:induction false} FlattenAppend(a: seq<Slot>, b: seq<Slot>)
    ensures Flatten(a + b) == Flatten(a) + Flatten(b)
    decreases |a|
  {
    if a == [] {
      assert a + b == b;
    } else {
      assert (a + b)[1..] == a[1..] + b;
      FlattenAppend(a[1..], b);
    }
  }

  lemma {:induction false} FlattenHoles(n: nat)
    ensures Flatten(Holes(n)) == []
  {
    if n > 0 {
      assert Holes(n)[1..] == Holes(n - 1);
      FlattenHoles(n - 1);
    }
  }

  /** Writing entry `k` of an array splices what the new entry holds in
      place of what the old one held. */
  lemma FlattenPut(node: seq<Slot>, k: nat, v: Slot) returns (pre: seq<SearchResult>, post: seq<SearchResult>)
    ensures Flatten(node) == pre + Flat(Get(node, k)) + post
    ensures Flatten(Put(node, k, v)) == pre + Flat(v) + post
  {
    if k < |node| {
      pre, post := FlattenOverwrite(node, k, v);
    } else {
      FlattenExtend(node, k, v);
      pre, post := Flatten(node), [];
    }
  }

  lemma FlattenOverwrite(node: seq<Slot>, k: nat, v: Slot) returns (pre: seq<SearchResult>, post: seq<SearchResult>)
    requires k < |node|
    ensures Flatten(node) == pre + Flat(node[k]) + post
    ensures Flatten(node[k := v]) == pre + Flat(v) + post
  {
    var before, after := node[..k], node[k + 1..];
    assert node == before + [node[k]] + after;
    assert node[k := v] == before + [v] + after;
    FlattenAppend(before + [node[k]], after);
    FlattenAppend(before, [node[k]]);
    FlattenAppend(before + [v], after);
    FlattenAppend(before, [v]);
    assert Flatten([v]) == Flat(v) && Flatten([node[k]]) == Flat(node[k]);
    pre, post := Flatten(before), Flatten(after);
  }

  lemma FlattenExtend(node: seq<Slot>, k: nat, v: Slot)
    requires k >= |node|
    ensures Flatten(node + Holes(k - |node|) + [v]) == Flatten(node) + Flat(v)
  {
    var holes := Holes(k - |node|);
    FlattenAppend(node + holes, [v]);
    FlattenAppend(node, holes);
    FlattenHoles(k - |node|);
    assert Flatten([v]) == Flat(v);
  }

  /** In multiset terms: the array gains what the new entry adds. */
  lemma FlattenPutAdds(node: seq<Slot>, k: nat, v: Slot, added: multiset<SearchResult>)
    requires multiset(Flat(v)) == multiset(Flat(Get(node, k))) + added
    ensures multiset(Flatten(Put(node, k, v))) == multiset(Flatten(node)) + added
  {
    var pre, post := FlattenPut(node, k, v);
  }

  // ---------------------------------------------------------------------------
  // The walk

  /** Below a shaped tree, a walk as long as the nesting reaches an array or
      nothing; a longer one never reaches an array. */
  lemma {:induction false} LookupShaped(s: Slot, d: nat, q: seq<nat>)
    requires Shaped(s, d)
    ensures |q| <= d ==> Shaped(Lookup(s, q), d - |q|)
    ensures |q| > d ==> !Lookup(s, q).Arr?
    decreases |q|
  {
    if q != [] && s.Arr? {
      var next := Get(s.items, q[0]);
      assert Shaped(next, d - 1);
      LookupShaped(next, d - 1, q[1..]);
    }
  }

  /** Below a shaped array, entry `k` is an array one level shallower, or
      nothing, which reads as the empty array. */
  lemma ChildShaped(node: seq<Slot>, k: nat, d: nat, q: seq<nat>)
    requires d >= 1 && Shaped(Arr(node), d + 1)
    ensures Shaped(Arr(Child(node, k)), d)
    ensures Flat(Lookup(Get(node, k), q)) == Under(Child(node, k), q)
  {
    var s := Get(node, k);
    assert Shaped(s, d);
    if s.Arr? {
      assert Child(node, k) == s.items;
    } else {
      assert s.Hole?;
      assert Child(node, k) == [];
      if q == [] {
        assert Flatten([]) == [];
        assert Under([], q) == Flat(Arr([])) == Flatten([]);
      } else {
        assert Lookup(Hole, q[1..]) == Hole;
        assert Lookup(s, q) == Hole;
        assert Lookup(Arr([]), q) == Hole;
      }
    }
  }

  /** Inserting keeps the tree shaped. */
  lemma {:induction false} InsertShaped(node: seq<Slot>, path: seq<nat>, r: SearchResult)
    requires |path| >= 1 && Shaped(Arr(node), |path| + 1)
    ensures Shaped(Arr(Insert(node, path, r)), |path| + 1)
    decreases |path|
  {
    var k := path[0];
    ChildShaped(node, k, |path|, []);
    var node' := Insert(node, path, r);
    if |path| > 1 {
      InsertShaped(Child(node, k), path[1..], r);
    }
    forall i | 0 <= i < |node'| ensures Shaped(node'[i], |path|) {
      assert node'[i] == Get(node', i);
    }
  }

  /** Inserting adds the hit to the whole tree. */
  lemma {:induction false} InsertAll(node: seq<Slot>, path: seq<nat>, r: SearchResult)
    requires |path| >= 1 && Shaped(Arr(node), |path| + 1)
    ensures multiset(Flatten(Insert(node, path, r))) == multiset(Flatten(node)) + multiset{r}
    decreases |path|
  {
    var k := path[0];
    var existing := Child(node, k);
    ChildShaped(node, k, |path|, []);
    assert Flat(Get(node, k)) == Flatten(existing);
    var v := if |path| == 1 then Arr(existing + [Item(r)]) else Arr(Insert(existing, path[1..], r));
    if |path| == 1 {
      FlattenAppend(existing, [Item(r)]);
      assert Flatten([Item(r)]) == [r];
    } else {
      InsertAll(existing, path[1..], r);
    }
    assert multiset(Flat(v)) == multiset(Flat(Get(node, k))) + multiset{r};
    assert Insert(node, path, r) == Put(node, k, v);
    FlattenPutAdds(node, k, v, multiset{r});
  }

  /** Inserting leaves every entry but the one its path starts at alone. */
  lemma InsertElsewhere(node: seq<Slot>, path: seq<nat>, r: SearchResult, q: seq<nat>)
    requires |path| >= 1 && q != [] && q[0] != path[0]
    ensures Under(Insert(node, path, r), q) == Under(node, q)
  {
    assert Get(Insert(node, path, r), q[0]) == Get(node, q[0]);
  }

  /** Inserting a hit puts it under every prefix of its path and nowhere
      else; under the full path it goes after the hits already there. */
  lemma {:induction false} InsertUnder(node: seq<Slot>, path: seq<nat>, r: SearchResult, q: seq<nat>)
    requires |path| >= 1 && |q| <= |path|
    requires Shaped(Arr(node), |path| + 1)
    ensures !(q <= path) ==> Under(Insert(node, path, r), q) == Under(node, q)
    ensures q <= path ==> multiset(Under(Insert(node, path, r), q)) == multiset(Under(node, q)) + multiset{r}
    ensures q == path ==> Under(Insert(node, path, r), q) == Under(node, q) + [r]
    decreases |path|
  {
    var k := path[0];
    if q == [] {
      InsertAll(node, path, r);
    } else if q[0] != k {
      InsertElsewhere(node, path, r, q);
    } else {
      var existing := Child(node, k);
      ChildShaped(node, k, |path|, q[1..]);
      assert Under(node, q) == Under(existing, q[1..]);
      var v := if |path| == 1 then Arr(existing + [Item(r)]) else Arr(Insert(existing, path[1..], r));
      var node' := Insert(node, path, r);
      assert node' == Put(node, k, v);
      assert Under(node', q) == Flat(Lookup(v, q[1..]));
      if |path| == 1 {
        assert q[1..] == [];
        FlattenAppend(existing, [Item(r)]);
        assert Flatten([Item(r)]) == [r];
      } else {
        InsertUnder(existing, path[1..], r, q[1..]);
        assert q <= path <==> q[1..] <= path[1..];
        assert q == path <==> q[1..] == path[1..];
      }
    }
  }

  /** After the insert loop the tree is shaped, and under every path no
      longer than the filing depth sit exactly the hits filed there: in input
      order under a full path, and as a multiset under a shorter one. */
  lemma {:induction false} BuildUnder(results: seq<SearchResult>, maxDepth: nat, q: seq<nat>)
    ensures Shaped(Arr(Build(results, maxDepth)), Depth(maxDepth) + 1)
    ensures |q| <= Depth(maxDepth) ==>
      multiset(Under(Build(results, maxDepth), q)) == multiset(Filed(results, q, maxDepth))
    ensures |q| == Depth(maxDepth) ==> Under(Build(results, maxDepth), q) == Filed(results, q, maxDepth)
    decreases |results|
  {
    if results == [] {
      assert Lookup(Arr([]), q) == Arr([]) || Lookup(Arr([]), q) == Hole;
    } else {
      var n := |results| - 1;
      var r := results[n];
      var before := Build(results[..n], maxDepth);
      var path := PathOf(r, maxDepth);
      BuildUnder(results[..n], maxDepth, q);
      assert Build(results, maxDepth) == Insert(before, path, r);
      assert Filed(results, q, maxDepth)
          == Filed(results[..n], q, maxDepth) + (if q <= path then [r] else []);
      if |q| <= Depth(maxDepth) {
        InsertShaped(before, path, r);
        InsertUnder(before, path, r, q);
        if |q| == Depth(maxDepth) && q <= path {
          assert q == path;
        }
      } else {
        InsertShaped(before, path, r);
      }
    }
  }

  /** `subtree([])` gives every hit. */
  lemma WholeTree(results: seq<SearchResult>, maxDepth: nat)
    ensures SubtreeOf(Build(results, maxDepth), []).Some?
    ensures multiset(SubtreeOf(Build(results, maxDepth), []).value) == multiset(results)
  {
    BuildUnder(results, maxDepth, []);
    FiledAll(results, maxDepth);
  }

  lemma {:induction false} FiledAll(results: seq<SearchResult>, maxDepth: nat)
    ensures Filed(results, [], maxDepth) == results
    decreases |results|
  {
    if results != [] {
      FiledAll(results[..|results| - 1], maxDepth);
    }
  }

  /** `emptyResultTree`: no hits, and `subtree` gives `[]` for every path. */
  lemma EmptySubtree(path: seq<nat>)
    ensures SubtreeOf([], path) == Some([])
  {
    if path != [] {
      assert Lookup(Arr([]), path) == Lookup(Hole, path[1..]);
    }
  }

  /** The object `resultTree` returns: the input hits and the nested array
      its `subtree` closure walks. */
  class ResultTree {
    const results: seq<SearchResult>
    const maxDepth: nat
    var root: seq<Slot>

    ghost predicate Valid()
      reads this
    {
      root == Build(results, maxDepth)
    }

    /** `resultTree(results, maxDepth)`: the insert loop, one hit at a time. */
    constructor (results: seq<SearchResult>, maxDepth: nat)
      ensures this.results == results && this.maxDepth == maxDepth
      ensures Valid()
    {
      this.results := results;
      this.maxDepth := maxDepth;
      var root: seq<Slot> := [];
      for i := 0 to |results|
        invariant root == Build(results[..i], maxDepth)
      {
        var r := results[i];
        assert results[..i + 1][..i] == results[..i];
        root := Insert(root, PathOf(r, maxDepth), r);
      }
      assert results[..|results|] == results;
      this.root := root;
    }

    /** `emptyResultTree`. */
    constructor Empty(maxDepth: nat)
      ensures results == [] && root == [] && this.maxDepth == maxDepth
      ensures Valid()
    {
      results := [];
      this.maxDepth := maxDepth;
      root := [];
    }

    /** `subtree(path)`: walk down by reassigning `node`, returning `[]` at
        the first component with nothing under it, then flatten. Under a path
        no longer than the filing depth it gives the hits filed there (in
        input order under a full path); past the hits it gives nothing, or
        fails where the path ends on a hit. */
    method Subtree(path: seq<nat>) returns (r: Option<seq<SearchResult>>)
      requires Valid()
      ensures r == SubtreeOf(root, path)
      ensures |path| <= Depth(maxDepth) ==>
        r.Some? && multiset(r.value) == multiset(Filed(results, path, maxDepth))
      ensures |path| == Depth(maxDepth) ==> r == Some(Filed(results, path, maxDepth))
      ensures |path| > Depth(maxDepth) ==> r == None || r == Some([])
    {
      BuildUnder(results, maxDepth, path);
      LookupShaped(Arr(root), Depth(maxDepth) + 1, path);
      var node := Arr(root);
      var i := 0;
      while i < |path|
        invariant 0 <= i <= |path|
        invariant Lookup(Arr(root), path) == Lookup(node, path[i..])
        invariant !node.Hole?
      {
        assert path[i..][1..] == path[i + 1..];
        node := if node.Arr? then Get(node.items, path[i]) else Hole;
        if node.Hole? {
          return Some([]);
        }
        i := i + 1;
      }
      assert path[i..] == [];
      match node
      case Arr(items) => r := Some(Flatten(items));
      case Item(_) => r := None;
    }
  }
}
