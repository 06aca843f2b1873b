/**
  The category tree of the blog (mysite/blog/models.py, class Category): a table of
  rows, each with a name, a slug and an optional parent, the ancestor walk from a row up
  to its root, and the URL paths that Category.get_url_list derives from that walk.
 */
module CategoryTree {
  import opened Wrappers

  type CategoryId = nat

  /** One category row; `parent` is the nullable self-reference. */
  datatype Category = Category(name: string, slug: string, parent: Option<CategoryId>)

  /** The category table, keyed by primary key. */
  type Table = map<CategoryId, Category>

  /**
    `c` is a root-first ancestor chain in `cats`: every entry is a row, the first is a
    root, and each later entry's parent is the entry just before it.
   */
  predicate IsChain(cats: Table, c: seq<CategoryId>) {
    && |c| > 0
    && (forall k :: 0 <= k < |c| ==> c[k] in cats)
    && cats[c[0]].parent.None?
    && (forall k :: 0 < k < |c| ==> cats[c[k]].parent == Some(c[k - 1]))
  }

  /**
    Walks parent links from `x` up to a root, taking at most `fuel` steps, and returns the
    rows visited, root first. None when `x` or a parent on the way is not a row (a dangling
    reference) or no root is reached within `fuel` steps (a cycle).
   */
  function Chain(cats: Table, x: CategoryId, fuel: nat): (r: Option<seq<CategoryId>>)
    ensures r.Some? ==> IsChain(cats, r.value) && r.value[|r.value| - 1] == x
    ensures r.Some? ==> |r.value| <= fuel + 1
    decreases fuel
  {
    if x !in cats then None
    else match cats[x].parent
      case None => Some([x])
      case Some(p) =>
        if fuel == 0 then None
        else match Chain(cats, p, fuel - 1)
          case None => None
          case Some(up) => Some(up + [x])
  }

  /**
    get_ancestors(include_self=True): the chain from the root down to `x`, or None when the
    lookup fails because the table is corrupted around `x`.
   */
  function Ancestors(cats: Table, x: CategoryId): (r: Option<seq<CategoryId>>)
    ensures r.Some? ==> IsChain(cats, r.value) && r.value[|r.value| - 1] == x
    ensures x !in cats ==> r.None?
  {
    Chain(cats, x, |cats|)
  }

  /** Every row reaches a root: no dangling parent and no cycle. */
  predicate Rooted(cats: Table) {
    forall x {:trigger Ancestors(cats, x)} :: x in cats ==> Ancestors(cats, x).Some?
  }

  /** Every row in `keys` has the same ancestors in `a` as in `b`. */
  predicate SameAncestorsOn(keys: set<CategoryId>, a: Table, b: Table) {
    forall x {:trigger Ancestors(a, x)} :: x in keys ==> Ancestors(a, x) == Ancestors(b, x)
  }

  /** A root-anchored chain never visits a row twice. */
  lemma {:induction false} ChainDistinct(cats: Table, c: seq<CategoryId>, i: nat, j: nat)
    requires IsChain(cats, c) && i < j < |c|
    ensures c[i] != c[j]
    decreases i
  {
    if i == 0 {
      assert cats[c[j]].parent == Some(c[j - 1]);
    } else {
      ChainDistinct(cats, c, i - 1, j - 1);
      assert cats[c[i]].parent == Some(c[i - 1]);
      assert cats[c[j]].parent == Some(c[j - 1]);
    }
  }

  /** The rows a chain visits. */
  function Members(c: seq<CategoryId>): set<CategoryId> {
    set k | k in c
  }

  /** A sequence without repeats visits as many rows as it has entries. */
  lemma {:induction false} DistinctMembers(c: seq<CategoryId>)
    requires forall i, j :: 0 <= i < j < |c| ==> c[i] != c[j]
    ensures |Members(c)| == |c|
  {
    if |c| > 0 {
      DistinctMembers(c[1..]);
      assert Members(c) == {c[0]} + Members(c[1..]);
      assert c[0] !in Members(c[1..]);
    }
  }

  /** No ancestor chain is longer than the table (pigeonhole). */
  lemma ChainFits(cats: Table, c: seq<CategoryId>)
    requires IsChain(cats, c)
    ensures |c| <= |cats|
  {
    forall i, j | 0 <= i < j < |c| ensures c[i] != c[j] {
      ChainDistinct(cats, c, i, j);
    }
    DistinctMembers(c);
    var s := Members(c);
    assert cats.Keys == s + (cats.Keys - s);
  }

  /** Given enough fuel, the walk finds every chain that exists. */
  lemma {:induction false} ChainComplete(cats: Table, c: seq<CategoryId>, fuel: nat)
    requires IsChain(cats, c) && |c| <= fuel + 1
    ensures Chain(cats, c[|c| - 1], fuel) == Some(c)
    decreases |c|
  {
    var x := c[|c| - 1];
    if |c| == 1 {
      assert c == [x];
    } else {
      var up := c[..|c| - 1];
      assert IsChain(cats, up);
      ChainComplete(cats, up, fuel - 1);
      assert cats[x].parent == Some(up[|up| - 1]);
      assert up + [x] == c;
    }
  }

  /** The ancestor lookup of `x` succeeds with `c` exactly when `c` is a root-first chain ending at `x`. */
  lemma AncestorsExact(cats: Table, x: CategoryId, c: seq<CategoryId>)
    ensures Ancestors(cats, x) == Some(c) <==> IsChain(cats, c) && c[|c| - 1] == x
  {
    if IsChain(cats, c) && c[|c| - 1] == x {
      ChainFits(cats, c);
      ChainComplete(cats, c, |cats|);
    }
  }

  /** The ancestors of a row with a parent are the parent's ancestors followed by the row. */
  lemma AncestorsStep(cats: Table, p: CategoryId, y: CategoryId)
    requires y in cats && cats[y].parent == Some(p) && Ancestors(cats, p).Some?
    ensures Ancestors(cats, y) == Some(Ancestors(cats, p).value + [y])
  {
    var c := Ancestors(cats, p).value + [y];
    assert IsChain(cats, c);
    AncestorsExact(cats, y, c);
  }

  /** Every entry of an ancestor chain has as its own ancestors the part of the chain up to it. */
  lemma AncestorsOfEntry(cats: Table, c: seq<CategoryId>, k: nat)
    requires IsChain(cats, c) && k < |c|
    ensures Ancestors(cats, c[k]) == Some(c[..k + 1])
  {
    assert IsChain(cats, c[..k + 1]);
    AncestorsExact(cats, c[k], c[..k + 1]);
  }

  /**
    The rows deleted with `id` by the CASCADE on `parent`: those whose ancestor chain passes
    through `id`, that is `id` itself and all its descendants.
   */
  function Subtree(cats: Table, id: CategoryId): set<CategoryId> {
    set x | x in cats && Ancestors(cats, x).Some? && id in Ancestors(cats, x).value
  }

  /**
    Subtree is the cascade's closure: it holds `id`, holds every child of a row it holds,
    and holds nothing but `id` whose parent it does not hold.
   */
  lemma SubtreeClosure(cats: Table, id: CategoryId)
    requires Rooted(cats)
    ensures id in cats ==> id in Subtree(cats, id)
    ensures forall x, y :: x in Subtree(cats, id) && y in cats && cats[y].parent == Some(x) ==> y in Subtree(cats, id)
    ensures forall y :: y in Subtree(cats, id) && y != id ==>
      cats[y].parent.Some? && cats[y].parent.value in Subtree(cats, id)
  {
    var s := Subtree(cats, id);
    if id in cats {
      var c := Ancestors(cats, id).value;
      assert c[|c| - 1] == id;
    }
    forall x, y | x in s && y in cats && cats[y].parent == Some(x) ensures y in s {
      AncestorsStep(cats, x, y);
    }
    forall y | y in s && y != id ensures cats[y].parent.Some? && cats[y].parent.value in s {
      var c := Ancestors(cats, y).value;
      var n := |c|;
      assert c[n - 1] == y;
      assert n > 1;
      AncestorsOfEntry(cats, c, n - 2);
      assert id in c[..n - 1] by {
        var k :| 0 <= k < n && c[k] == id;
        assert k < n - 1;
        assert c[..n - 1][k] == id;
      }
    }
  }

  /**
    Deleting a subtree leaves a rooted table in which every surviving row keeps exactly the
    ancestors it had.
   */
  lemma RemoveSubtreeKeepsAncestors(cats: Table, id: CategoryId)
    requires Rooted(cats)
    ensures Rooted(cats - Subtree(cats, id))
    ensures SameAncestorsOn((cats - Subtree(cats, id)).Keys, cats - Subtree(cats, id), cats)
  {
    var s := Subtree(cats, id);
    var rest := cats - s;
    forall x | x in rest ensures Ancestors(rest, x) == Ancestors(cats, x) {
      var c := Ancestors(cats, x).value;
      forall k | 0 <= k < |c| ensures c[k] in rest {
        AncestorsOfEntry(cats, c, k);
      }
      assert IsChain(rest, c);
      AncestorsExact(rest, x, c);
    }
  }

  /**
    Adding a fresh row under an existing parent (or as a root) keeps the table rooted, keeps
    every old row's ancestors, and gives the new row its parent's ancestors plus itself.
   */
  lemma InsertKeepsAncestors(cats: Table, id: CategoryId, row: Category)
    requires Rooted(cats) && id !in cats
    requires row.parent.None? || row.parent.value in cats
    ensures Rooted(cats[id := row])
    ensures SameAncestorsOn(cats.Keys, cats[id := row], cats)
    ensures Ancestors(cats[id := row], id) ==
      if row.parent.None? then Some([id]) else Some(Ancestors(cats, row.parent.value).value + [id])
  {
    var ext := cats[id := row];
    forall x | x in cats ensures Ancestors(ext, x) == Ancestors(cats, x) {
      var c := Ancestors(cats, x).value;
      assert IsChain(ext, c);
      AncestorsExact(ext, x, c);
    }
    if row.parent.None? {
      assert IsChain(ext, [id]);
      AncestorsExact(ext, id, [id]);
    } else {
      var up := Ancestors(cats, row.parent.value).value;
      assert IsChain(ext, up);
      AncestorsStep(ext, row.parent.value, id);
    }
  }

  /** The slugs of the rows of a chain, in order: `[ i.slug for i in ancestors ]`. */
  function SlugsOf(cats: Table, c: seq<CategoryId>): (r: seq<string>)
    requires forall k :: 0 <= k < |c| ==> c[k] in cats
  {
    seq(|c|, k requires 0 <= k < |c| => cats[c[k]].slug)
  }

  /** The slugs of the ancestors of `x`, root first; empty when the lookup fails. */
  function AncestorSlugs(cats: Table, x: CategoryId): seq<string> {
    match Ancestors(cats, x)
    case None => []
    case Some(c) => SlugsOf(cats, c)
  }

  /** Python's `'/'.join(parts)`: the parts, with one "/" between neighbours. */
  function JoinSlash(parts: seq<string>): string {
    if |parts| == 0 then ""
    else if |parts| == 1 then parts[0]
    else parts[0] + "/" + JoinSlash(parts[1..])
  }

  /** Joining one more part appends "/" and that part. */
  lemma {:induction false} JoinSlashSnoc(parts: seq<string>, s: string)
    requires |parts| > 0
    ensures JoinSlash(parts + [s]) == JoinSlash(parts) + "/" + s
    decreases |parts|
  {
    if |parts| > 1 {
      JoinSlashSnoc(parts[1..], s);
      assert (parts + [s])[1..] == parts[1..] + [s];
    }
  }

  /** The cumulative URL paths of `slugs`: entry k joins the first k + 1 slugs. */
  function UrlPaths(slugs: seq<string>): seq<string> {
    seq(|slugs|, k requires 0 <= k < |slugs| => JoinSlash(slugs[..k + 1]))
  }

  /** Each path after the first is the one before it, "/" and the next slug. */
  lemma UrlPathsStep(slugs: seq<string>, k: nat)
    requires 0 < k < |slugs|
    ensures UrlPaths(slugs)[k] == UrlPaths(slugs)[k - 1] + "/" + slugs[k]
  {
    assert slugs[..k + 1] == slugs[..k] + [slugs[k]];
    JoinSlashSnoc(slugs[..k], slugs[k]);
  }

  /**
    The paths go one per slug, start with the first slug, end with the whole join, and each
    extends the one before it by "/" and the next slug, so each is a prefix of the next.
   */
  lemma UrlPathsShape(slugs: seq<string>)
    ensures |UrlPaths(slugs)| == |slugs|
    ensures |slugs| > 0 ==> UrlPaths(slugs)[0] == slugs[0]
    ensures |slugs| > 0 ==> UrlPaths(slugs)[|slugs| - 1] == JoinSlash(slugs)
    ensures forall k :: 0 < k < |slugs| ==>
      UrlPaths(slugs)[k] == UrlPaths(slugs)[k - 1] + "/" + slugs[k]
    ensures forall k :: 0 < k < |slugs| ==> UrlPaths(slugs)[k - 1] <= UrlPaths(slugs)[k]
  {
    if |slugs| > 0 {
      assert slugs[..|slugs|] == slugs;
      assert slugs[..1] == [slugs[0]];
    }
    forall k | 0 < k < |slugs|
      ensures UrlPaths(slugs)[k] == UrlPaths(slugs)[k - 1] + "/" + slugs[k]
      ensures UrlPaths(slugs)[k - 1] <= UrlPaths(slugs)[k]
    {
      UrlPathsStep(slugs, k);
      var prev := UrlPaths(slugs)[k - 1];
      assert (prev + "/" + slugs[k])[..|prev|] == prev;
    }
  }

  /**
    Category.get_url_list: the ancestor lookup, with any failure read as "no ancestors",
    then one cumulative slash-joined path per ancestor, built by appending in a loop.
   */
  method GetUrlList(cats: Table, x: CategoryId) returns (urls: seq<string>)
    ensures urls == UrlPaths(AncestorSlugs(cats, x))
    ensures Ancestors(cats, x).None? ==> urls == []
    ensures Ancestors(cats, x).Some? ==> |urls| == |Ancestors(cats, x).value|
    ensures Ancestors(cats, x).Some? ==> urls[|urls| - 1] == JoinSlash(AncestorSlugs(cats, x))
  {
    var ancestors: seq<CategoryId>;
    match Ancestors(cats, x) {
      case None => ancestors := [];
      case Some(c) => ancestors := c;
    }
    var slugs := SlugsOf(cats, ancestors);
    urls := [];
    for i := 0 to |slugs|
      invariant |urls| == i
      invariant forall k :: 0 <= k < i ==> urls[k] == JoinSlash(slugs[..k + 1])
    {
      urls := urls + [JoinSlash(slugs[..i + 1])];
    }
    UrlPathsShape(slugs);
  }
}
