/** The catalog of indexed texts: an ordered list of `{id, name}` entries kept
    in `catalog.json`, where adding an entry replaces the first one with the
    same id or appends. */
module Index {
  import opened Wrappers

  /** `CatalogItem`. */
  datatype CatalogItem = CatalogItem(id: string, name: string)

  /** The position of the first entry whose id is `id`, if any
      (`iter().position(|i| i.id == id)`). */
  function FirstIndex(texts: seq<CatalogItem>, id: string): (r: Option<nat>)
    ensures r.Some? ==> r.value < |texts| && texts[r.value].id == id
                        && forall k :: 0 <= k < r.value ==> texts[k].id != id
    ensures r.None? ==> forall k :: 0 <= k < |texts| ==> texts[k].id != id
  {
    if |texts| == 0 then None
    else if texts[0].id == id then Some(0)
    else match FirstIndex(texts[1..], id)
      case None => None
      case Some(k) => Some(k + 1)
  }

  /** The entries after `add(c)`. */
  function Upserted(texts: seq<CatalogItem>, c: CatalogItem): seq<CatalogItem> {
    match FirstIndex(texts, c.id)
    case Some(pos) => texts[pos := c]
    case None => texts + [c]
  }

  /** No two entries share an id. */
  predicate UniqueIds(texts: seq<CatalogItem>) {
    forall i, j :: 0 <= i < j < |texts| ==> texts[i].id != texts[j].id
  }

  /** `Catalog`: its entry list is updated in place by `add`. */
  class Catalog {
    var texts: seq<CatalogItem>

    constructor (texts: seq<CatalogItem>)
      ensures this.texts == texts
    {
      this.texts := texts;
    }

    /** The scan behind `position`. */
    method Position(id: string) returns (pos: Option<nat>)
      ensures pos == FirstIndex(texts, id)
    {
      var i := 0;
      while i < |texts|
        invariant 0 <= i <= |texts|
        invariant forall k :: 0 <= k < i ==> texts[k].id != id
      {
        if texts[i].id == id {
          FirstIndexIsFirst(texts, id, i);
          return Some(i);
        }
        i := i + 1;
      }
      return None;
    }

    /** `Catalog::add`. */
    method Add(c: CatalogItem)
      modifies this
      ensures texts == Upserted(old(texts), c)
    {
      var existing := Position(c.id);
      match existing {
        case Some(pos) => texts := texts[pos := c];
        case None => texts := texts + [c];
      }
    }
  }

  /** The first match is unique: a position holding `id` with no earlier match is it. */
  lemma FirstIndexIsFirst(texts: seq<CatalogItem>, id: string, i: nat)
    requires i < |texts| && texts[i].id == id
    requires forall k :: 0 <= k < i ==> texts[k].id != id
    ensures FirstIndex(texts, id) == Some(i)
  {
    var r := FirstIndex(texts, id);
    assert r.Some?;
  }

  /** With the id present, `add` overwrites that first entry and nothing else. */
  lemma UpsertReplaces(texts: seq<CatalogItem>, c: CatalogItem, pos: nat)
    requires pos < |texts| && texts[pos].id == c.id
    requires forall k :: 0 <= k < pos ==> texts[k].id != c.id
    ensures var r := Upserted(texts, c);
      |r| == |texts| && r[pos] == c && forall k :: 0 <= k < |r| && k != pos ==> r[k] == texts[k]
  {
    FirstIndexIsFirst(texts, c.id, pos);
  }

  /** With the id absent, `add` appends and keeps the prior entries in order. */
  lemma UpsertAppends(texts: seq<CatalogItem>, c: CatalogItem)
    requires forall k :: 0 <= k < |texts| ==> texts[k].id != c.id
    ensures Upserted(texts, c) == texts + [c]
  {
  }

  /** After `add(c)`, `c` sits at the matched position or at the end. */
  lemma UpsertContains(texts: seq<CatalogItem>, c: CatalogItem)
    ensures var r := Upserted(texts, c);
      c in r && |texts| <= |r| <= |texts| + 1
      && (|r| == |texts| + 1 ==> r[|texts|] == c)
  {
    var r := Upserted(texts, c);
    match FirstIndex(texts, c.id)
    case Some(pos) => assert r[pos] == c;
    case None => assert r[|texts|] == c;
  }

  /** `add` keeps ids unique. */
  lemma UpsertKeepsUnique(texts: seq<CatalogItem>, c: CatalogItem)
    requires UniqueIds(texts)
    ensures UniqueIds(Upserted(texts, c))
  {
    var r := Upserted(texts, c);
    match FirstIndex(texts, c.id)
    case Some(pos) =>
      forall i, j | 0 <= i < j < |r| ensures r[i].id != r[j].id {
        if i == pos {
          assert r[j] == texts[j];
        } else if j == pos {
          assert r[i] == texts[i];
        }
      }
    case None =>
  }

  /** Adding the same entry twice is the same as adding it once. */
  lemma UpsertIdempotent(texts: seq<CatalogItem>, c: CatalogItem)
    ensures Upserted(Upserted(texts, c), c) == Upserted(texts, c)
  {
    var once := Upserted(texts, c);
    match FirstIndex(texts, c.id)
    case Some(pos) =>
      forall k | 0 <= k < pos ensures once[k].id != c.id {
        assert once[k] == texts[k];
      }
      FirstIndexIsFirst(once, c.id, pos);
    case None =>
      FirstIndexIsFirst(once, c.id, |texts|);
  }

  /** What opening `catalog.json` gave. */
  datatype Opened = Opened(contents: string) | OpenFailed(reason: string)

  /** `Catalog::load`, with the deserialiser as a parameter: any failure to
      open yields an empty catalog; a parse failure propagates. */
  function Load(attempt: Opened, parse: string -> Result<seq<CatalogItem>, string>): (r: Result<seq<CatalogItem>, string>)
    ensures attempt.OpenFailed? ==> r == Success([])
    ensures attempt.Opened? ==> r == parse(attempt.contents)
  {
    match attempt
    case Opened(contents) => parse(contents)
    case OpenFailed(_) => Success([])
  }
}
