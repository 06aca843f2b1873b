/**
  The blog's tables as the database keeps them (mysite/blog/models.py): categories, posts
  and post views, with the declared unique constraints, the foreign keys, and the CASCADE
  deletions from a category to its child categories and posts and from a post to its views.
 */
module BlogStore {
  import opened Wrappers
  import opened CategoryTree
  import opened Posts

  /** Why an insert is refused. */
  datatype Error = DuplicateName | DuplicateSlug | UnknownParent | UnknownCategory | UnknownPost

  type PostTable = map<PostId, Post>

  /** Some category already has this name (`name` is unique over the whole table). */
  predicate NameTaken(cats: Table, name: string) {
    exists id :: id in cats && cats[id].name == name
  }

  /**
    The (parent, slug) unique constraint would be broken: a category under the same parent
    has this slug. A NULL parent never collides, as NULLs are distinct in a unique constraint.
   */
  predicate SlugTaken(cats: Table, parent: Option<CategoryId>, slug: string) {
    parent.Some? && exists id :: id in cats && cats[id].parent == parent && cats[id].slug == slug
  }

  /** The parent named for a new category is not a row. */
  predicate ParentMissing(cats: Table, parent: Option<CategoryId>) {
    parent.Some? && parent.value !in cats
  }

  predicate UniqueNames(cats: Table) {
    forall a, b :: a in cats && b in cats && a != b ==> cats[a].name != cats[b].name
  }

  predicate UniqueSiblingSlugs(cats: Table) {
    forall a, b :: a in cats && b in cats && a != b && cats[a].parent.Some? && cats[a].parent == cats[b].parent
      ==> cats[a].slug != cats[b].slug
  }

  /** Every post's category, when it has one, is a row. */
  predicate PostsHaveCategories(cats: Table, posts: PostTable) {
    forall p :: p in posts && posts[p].category.Some? ==> posts[p].category.value in cats
  }

  /** Every view's post is a row. */
  predicate ViewsHavePosts(posts: PostTable, views: seq<PostView>) {
    forall k :: 0 <= k < |views| ==> views[k].post in posts
  }

  /** The constraints the three tables keep: a rooted tree, the unique keys and the foreign keys. */
  predicate TablesValid(cats: Table, posts: PostTable, views: seq<PostView>) {
    && Rooted(cats)
    && UniqueNames(cats)
    && UniqueSiblingSlugs(cats)
    && PostsHaveCategories(cats, posts)
    && ViewsHavePosts(posts, views)
  }

  /** The posts that survive the deletion of the categories `gone`: CASCADE on Post.category. */
  function PostsOutside(posts: PostTable, gone: set<CategoryId>): (r: PostTable)
    ensures forall p :: p in r ==> p in posts && r[p] == posts[p]
    ensures forall p :: p in r ==> posts[p].category.None? || posts[p].category.value !in gone
    ensures forall p :: p in posts && (posts[p].category.None? || posts[p].category.value !in gone) ==> p in r
  {
    map p | p in posts && !(posts[p].category.Some? && posts[p].category.value in gone) :: posts[p]
  }

  /**
    The views, in order, whose post is still in `live`: CASCADE on PostView.post. Every
    view of a live post is kept as often as it occurred, and no other view is.
   */
  function KeepViews(views: seq<PostView>, live: set<PostId>): (r: seq<PostView>)
    ensures forall k :: 0 <= k < |r| ==> r[k].post in live
    ensures forall v :: multiset(r)[v] == if v.post in live then multiset(views)[v] else 0
  {
    if |views| == 0 then []
    else
      assert views == [views[0]] + views[1..];
      if views[0].post in live then [views[0]] + KeepViews(views[1..], live)
      else KeepViews(views[1..], live)
  }

  /** A category whose name is not taken can be added under a fresh key, keeping names unique. */
  lemma InsertKeepsUniqueNames(cats: Table, id: CategoryId, row: Category)
    requires UniqueNames(cats) && id !in cats && !NameTaken(cats, row.name)
    ensures UniqueNames(cats[id := row])
  {
    var ext := cats[id := row];
    forall a, b | a in ext && b in ext && a != b ensures ext[a].name != ext[b].name {
      if a == id {
        assert cats[b].name != row.name;
      } else if b == id {
        assert cats[a].name != row.name;
      }
    }
  }

  /** A category whose slug is free under its parent can be added, keeping sibling slugs unique. */
  lemma InsertKeepsUniqueSiblingSlugs(cats: Table, id: CategoryId, row: Category)
    requires UniqueSiblingSlugs(cats) && id !in cats && !SlugTaken(cats, row.parent, row.slug)
    ensures UniqueSiblingSlugs(cats[id := row])
  {
    var ext := cats[id := row];
    forall a, b | a in ext && b in ext && a != b && ext[a].parent.Some? && ext[a].parent == ext[b].parent
      ensures ext[a].slug != ext[b].slug
    {
      if a == id {
        assert !(cats[b].parent == row.parent && cats[b].slug == row.slug);
      } else if b == id {
        assert !(cats[a].parent == row.parent && cats[a].slug == row.slug);
      }
    }
  }

  /** A category that passes the insert checks can be added under a fresh key, keeping the constraints. */
  lemma InsertCategoryKeepsValid(cats: Table, posts: PostTable, views: seq<PostView>, id: CategoryId, row: Category)
    requires TablesValid(cats, posts, views) && id !in cats
    requires !NameTaken(cats, row.name) && !ParentMissing(cats, row.parent) && !SlugTaken(cats, row.parent, row.slug)
    ensures TablesValid(cats[id := row], posts, views)
  {
    InsertKeepsAncestors(cats, id, row);
    InsertKeepsUniqueNames(cats, id, row);
    InsertKeepsUniqueSiblingSlugs(cats, id, row);
  }

  /**
    Deleting a category with its subtree, the posts in that subtree and the views of those
    posts keeps the constraints: nothing left refers to a deleted row.
   */
  lemma DeleteCategoryKeepsValid(cats: Table, posts: PostTable, views: seq<PostView>, id: CategoryId)
    requires TablesValid(cats, posts, views)
    ensures TablesValid(cats - Subtree(cats, id), PostsOutside(posts, Subtree(cats, id)),
      KeepViews(views, PostsOutside(posts, Subtree(cats, id)).Keys))
  {
    RemoveSubtreeKeepsAncestors(cats, id);
  }

  /** Deleting a post and its views keeps the constraints. */
  lemma DeletePostKeepsValid(cats: Table, posts: PostTable, views: seq<PostView>, id: PostId)
    requires TablesValid(cats, posts, views)
    ensures TablesValid(cats, posts - {id}, KeepViews(views, (posts - {id}).Keys))
  {
  }

  /** Every key handed out so far is below the next one. */
  predicate KeysBelow(keys: set<nat>, next: nat) {
    forall k :: k in keys ==> k < next
  }

  /**
    The tables, updated in place by inserts and deletes. Keys are handed out in increasing
    order, like an auto-increment primary key.
   */
  class Blog {
    var categories: Table
    var posts: PostTable
    var views: seq<PostView>
    var nextCategoryId: CategoryId
    var nextPostId: PostId

    ghost predicate Valid()
      reads this
    {
      && TablesValid(categories, posts, views)
      && KeysBelow(categories.Keys, nextCategoryId)
      && KeysBelow(posts.Keys, nextPostId)
    }

    constructor ()
      ensures Valid()
      ensures categories == map[] && posts == map[] && views == []
      ensures nextCategoryId == 1 && nextPostId == 1
    {
      categories, posts, views := map[], map[], [];
      nextCategoryId, nextPostId := 1, 1;
    }

    /**
      Saves a new category. Refused, with nothing changed, when the name is taken, the
      parent is not a row, or a sibling under the same parent has the slug; otherwise the
      row is added under a fresh key and no other category's ancestors change.
     */
    method InsertCategory(name: string, slug: string, parent: Option<CategoryId>) returns (r: Result<CategoryId, Error>)
      requires Valid()
      modifies this
      ensures Valid()
      ensures r == Err(DuplicateName) <==> NameTaken(old(categories), name)
      ensures r == Err(UnknownParent) <==> !NameTaken(old(categories), name) && ParentMissing(old(categories), parent)
      ensures r == Err(DuplicateSlug) <==>
        !NameTaken(old(categories), name) && !ParentMissing(old(categories), parent) && SlugTaken(old(categories), parent, slug)
      ensures r.Ok? <==>
        !NameTaken(old(categories), name) && !ParentMissing(old(categories), parent) && !SlugTaken(old(categories), parent, slug)
      ensures r.Err? ==> unchanged(this)
      ensures r.Ok? ==> r.value == old(nextCategoryId) && r.value !in old(categories)
      ensures r.Ok? ==> categories == old(categories)[r.value := Category(name, slug, parent)]
      ensures r.Ok? ==> nextCategoryId == old(nextCategoryId) + 1
      ensures SameAncestorsOn(old(categories).Keys, categories, old(categories))
      ensures posts == old(posts) && views == old(views) && nextPostId == old(nextPostId)
    {
      if NameTaken(categories, name) {
        return Err(DuplicateName);
      }
      if ParentMissing(categories, parent) {
        return Err(UnknownParent);
      }
      if SlugTaken(categories, parent, slug) {
        return Err(DuplicateSlug);
      }
      var id := nextCategoryId;
      var row := Category(name, slug, parent);
      InsertCategoryKeepsValid(categories, posts, views, id, row);
      InsertKeepsAncestors(categories, id, row);
      categories := categories[id := row];
      nextCategoryId := nextCategoryId + 1;
      r := Ok(id);
    }

    /**
      Saves a new post. Refused, with nothing changed, when its category is not a row;
      otherwise added under a fresh key. Post slugs carry no unique constraint.
     */
    method InsertPost(title: string, slug: string, draft: bool, category: Option<CategoryId>) returns (r: Result<PostId, Error>)
      requires Valid()
      modifies this
      ensures Valid()
      ensures r.Err? <==> category.Some? && category.value !in old(categories)
      ensures r.Err? ==> r.error == UnknownCategory && unchanged(this)
      ensures r.Ok? ==> r.value == old(nextPostId) && r.value !in old(posts)
      ensures r.Ok? ==> posts == old(posts)[r.value := Post(title, slug, draft, category)]
      ensures r.Ok? ==> nextPostId == old(nextPostId) + 1
      ensures categories == old(categories) && views == old(views) && nextCategoryId == old(nextCategoryId)
    {
      if category.Some? && category.value !in categories {
        return Err(UnknownCategory);
      }
      var id := nextPostId;
      posts := posts[id := Post(title, slug, draft, category)];
      nextPostId := nextPostId + 1;
      r := Ok(id);
    }

    /**
      Records one view of a post: a new row appended every time, with no deduplication.
      Refused, with nothing changed, when the post is not a row.
     */
    method RecordView(post: PostId, ip: string, session: string) returns (r: Result<nat, Error>)
      requires Valid()
      modifies this
      ensures Valid()
      ensures r.Err? <==> post !in old(posts)
      ensures r.Err? ==> r.error == UnknownPost && unchanged(this)
      ensures r.Ok? ==> r.value == |old(views)| && views == old(views) + [PostView(post, ip, session)]
      ensures categories == old(categories) && posts == old(posts)
      ensures nextCategoryId == old(nextCategoryId) && nextPostId == old(nextPostId)
    {
      if post !in posts {
        return Err(UnknownPost);
      }
      r := Ok(|views|);
      views := views + [PostView(post, ip, session)];
    }

    /**
      Deletes a category: it, every descendant category, every post in any of them and
      every view of those posts go; every other row stays as it was, and the surviving
      categories keep their ancestors.
     */
    method DeleteCategory(id: CategoryId)
      requires Valid()
      modifies this
      ensures Valid()
      ensures categories == old(categories) - Subtree(old(categories), id)
      ensures posts == PostsOutside(old(posts), Subtree(old(categories), id))
      ensures views == KeepViews(old(views), posts.Keys)
      ensures SameAncestorsOn(categories.Keys, categories, old(categories))
      ensures nextCategoryId == old(nextCategoryId) && nextPostId == old(nextPostId)
    {
      var gone := Subtree(categories, id);
      DeleteCategoryKeepsValid(categories, posts, views, id);
      RemoveSubtreeKeepsAncestors(categories, id);
      categories := categories - gone;
      posts := PostsOutside(posts, gone);
      views := KeepViews(views, posts.Keys);
    }

    /** Deletes a post and every view of it; every other row stays as it was. */
    method DeletePost(id: PostId)
      requires Valid()
      modifies this
      ensures Valid()
      ensures posts == old(posts) - {id}
      ensures views == KeepViews(old(views), posts.Keys)
      ensures categories == old(categories)
      ensures nextCategoryId == old(nextCategoryId) && nextPostId == old(nextPostId)
    {
      DeletePostKeepsValid(categories, posts, views, id);
      posts := posts - {id};
      views := KeepViews(views, posts.Keys);
    }
  }

  /** A second category named "Widgets" is refused, wherever it would go. */
  method DuplicateNameSession() returns (again: Result<CategoryId, Error>)
    ensures again == Err(DuplicateName)
  {
    var blog := new Blog();
    var shop := blog.InsertCategory("Shop", "shop", None);
    var widgets := blog.InsertCategory("Widgets", "widgets", Some(1));
    assert blog.categories[2].name == "Widgets";
    again := blog.InsertCategory("Widgets", "more-widgets", None);
  }

  /** Two root categories may share a slug: the unique pair has a NULL parent. */
  method RootSlugSession() returns (outlet: Result<CategoryId, Error>)
    ensures outlet == Ok(2)
  {
    var blog := new Blog();
    var shop := blog.InsertCategory("Shop", "shop", None);
    assert blog.categories == map[1 := Category("Shop", "shop", None)];
    outlet := blog.InsertCategory("Outlet", "shop", None);
  }

  /**
    The (parent, slug) rule on the shop example: "widgets" is taken under the shop, free
    under the widgets category itself, and a NULL parent never takes a slug.
   */
  lemma SlugScopedToParent()
    ensures SlugTaken(ShopTable(), Some(1), "widgets")
    ensures !SlugTaken(ShopTable(), Some(2), "widgets")
    ensures !SlugTaken(ShopTable(), None, "shop")
  {
    assert ShopTable()[2].parent == Some(1) && ShopTable()[2].slug == "widgets";
  }

  /** Three views of one post from one session are three rows, not one counter. */
  method ViewsSession() returns (views: seq<PostView>)
    ensures views == [PostView(1, "10.0.0.1", "s1"), PostView(1, "10.0.0.1", "s1"), PostView(1, "10.0.0.1", "s1")]
  {
    var blog := new Blog();
    var post := blog.InsertPost("Blue widget", "blue-widget", false, None);
    var v1 := blog.RecordView(1, "10.0.0.1", "s1");
    var v2 := blog.RecordView(1, "10.0.0.1", "s1");
    var v3 := blog.RecordView(1, "10.0.0.1", "s1");
    views := blog.views;
  }

  /**
    Deleting the shop category of the shop example, which holds the post "blue-widget" in
    its child with one view: the subtree is both categories, and no post and no view survive.
   */
  lemma ShopCascade()
    ensures Subtree(ShopTable(), 1) == {1, 2}
    ensures PostsOutside(map[1 := BlueWidget()], {1, 2}) == map[]
    ensures KeepViews([PostView(1, "10.0.0.1", "s1")], PostsOutside(map[1 := BlueWidget()], {1, 2}).Keys) == []
  {
    var cats := ShopTable();
    assert IsChain(cats, [1]);
    AncestorsExact(cats, 1, [1]);
    AncestorsStep(cats, 1, 2);
    assert PostsOutside(map[1 := BlueWidget()], {1, 2}) == map[];
  }
}
