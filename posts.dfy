/**
  Posts and post views (mysite/blog/models.py, classes Post and PostView): the rows, the
  storage path of a post's feature image, and the post's public path.
 */
module Posts {
  import opened Wrappers
  import opened CategoryTree

  type PostId = nat

  /** A post row, with the fields the model stores; `category` is nullable. */
  datatype Post = Post(title: string, slug: string, draft: bool, category: Option<CategoryId>)

  /** One recorded page view: the post, the visitor's address and session key. */
  datatype PostView = PostView(post: PostId, ip: string, session: string)

  /**
    get_feature_image_path: where the feature image of `post` uploaded as `filename` is
    stored, "blog/<slug>-<filename>". The slug and the file name stand at fixed places.
   */
  function FeatureImagePath(post: Post, filename: string): (r: string)
    ensures |r| == 6 + |post.slug| + |filename|
    ensures r[..5] == "blog/"
    ensures r[5..5 + |post.slug|] == post.slug
    ensures r[5 + |post.slug|] == '-'
    ensures r[6 + |post.slug|..] == filename
  {
    "blog/" + post.slug + "-" + filename
  }

  /** Among slugs of one length, the stored path determines the slug and the file name. */
  lemma FeatureImagePathInjective(p: Post, f: string, q: Post, g: string)
    requires |p.slug| == |q.slug|
    requires FeatureImagePath(p, f) == FeatureImagePath(q, g)
    ensures p.slug == q.slug && f == g
  {
    var path := FeatureImagePath(p, f);
    assert p.slug == path[5..5 + |p.slug|];
    assert f == path[6 + |p.slug|..];
  }

  /**
    Across slug lengths it does not: the posts "a-b" and "a" with files "c.png" and
    "b-c.png" are given the same path, and the overwriting storage keeps only the later file.
   */
  lemma FeatureImagePathsCollide()
    ensures FeatureImagePath(Post("First", "a-b", true, None), "c.png")
         == FeatureImagePath(Post("Second", "a", true, None), "b-c.png")
  {
    assert FeatureImagePath(Post("First", "a-b", true, None), "c.png") == "blog/a-b-c.png";
    assert FeatureImagePath(Post("Second", "a", true, None), "b-c.png") == "blog/a-b-c.png";
  }

  /**
    Post.get_absolute_url as written: `self.category.get_url_list[-1]` subscripts the
    bound method instead of calling it, which raises for every post; None stands for the
    exception.
   */
  function AbsoluteUrlAsWritten(cats: Table, post: Post): (r: Option<string>)
    ensures r.None?
  {
    None
  }

  /**
    The public path get_absolute_url evidently means: the last URL path of the post's
    category, "/", then the post's slug, which is the slash-join of the category's ancestor
    slugs followed by the post's slug. None where even the intended expression would raise:
    a post without a category, or an empty URL list.
   */
  function AbsoluteUrl(cats: Table, post: Post): (r: Option<string>)
    ensures r.Some? <==> post.category.Some? && Ancestors(cats, post.category.value).Some?
    ensures r.Some? ==> r.value == JoinSlash(AncestorSlugs(cats, post.category.value) + [post.slug])
  {
    match post.category
    case None => None
    case Some(c) =>
      var slugs := AncestorSlugs(cats, c);
      var urls := UrlPaths(slugs);
      UrlPathsShape(slugs);
      if |urls| == 0 then None
      else
        JoinSlashSnoc(slugs, post.slug);
        Some(urls[|urls| - 1] + "/" + post.slug)
  }

  /** The shop example: category "shop" (key 1) with a child "widgets" (key 2). */
  function ShopTable(): Table {
    map[1 := Category("Shop", "shop", None), 2 := Category("Widgets", "widgets", Some(1))]
  }

  /** The post "blue-widget" in the child category of the shop example. */
  function BlueWidget(): Post {
    Post("Blue widget", "blue-widget", false, Some(2))
  }

  /** The ancestor slugs of the child category are "shop" then "widgets". */
  lemma ShopAncestorSlugs()
    ensures AncestorSlugs(ShopTable(), 2) == ["shop", "widgets"]
  {
    assert IsChain(ShopTable(), [1, 2]);
    AncestorsExact(ShopTable(), 2, [1, 2]);
  }

  /** The URL paths of the child category are "shop" and "shop/widgets". */
  lemma ShopUrlPaths()
    ensures UrlPaths(AncestorSlugs(ShopTable(), 2)) == ["shop", "shop/widgets"]
  {
    ShopAncestorSlugs();
    var slugs := ["shop", "widgets"];
    assert slugs[..1] == ["shop"] && JoinSlash(["shop"]) == "shop";
    assert slugs[..2] == slugs && slugs[1..] == ["widgets"];
    assert JoinSlash(slugs) == "shop/widgets";
    assert UrlPaths(slugs) == [JoinSlash(slugs[..1]), JoinSlash(slugs[..2])];
  }

  /**
    The post's intended public path is "shop/widgets/blue-widget", while the code as
    written yields none.
   */
  lemma ShopAbsoluteUrl()
    ensures AbsoluteUrl(ShopTable(), BlueWidget()) == Some("shop/widgets/blue-widget")
    ensures AbsoluteUrlAsWritten(ShopTable(), BlueWidget()) == None
  {
    ShopAncestorSlugs();
    assert Ancestors(ShopTable(), 2).Some?;
    var slugs := ["shop", "widgets"];
    JoinSlashSnoc(slugs, "blue-widget");
    assert slugs[1..] == ["widgets"];
    assert JoinSlash(slugs) == "shop/widgets";
    assert JoinSlash(slugs + ["blue-widget"]) == "shop/widgets/blue-widget";
  }
}
