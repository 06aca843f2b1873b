# Blog categories, posts and views

A model of the blog application's data core (`mysite/blog/models.py`):

- **Category URL paths.** `Category.get_url_list` walks a category's ancestor chain, root first and including itself. It returns the cumulative slash-joined slugs of that chain. A failed ancestor lookup gives an empty list. The MPTT ancestor query is modelled as a walk over parent links in a table of category rows (`CategoryTree`).
- **Feature image path.** `get_feature_image_path` is modelled, together with the intended public path of a post (`Posts`).
- **In-memory store.** The three tables are held in one store (`BlogStore.Blog`), which keeps the declared constraints:
  - category names are unique;
  - `(parent, slug)` pairs are unique;
  - every parent and foreign key names an existing row.

  Inserts refuse rows that would break a constraint. Deleting a category cascades to its descendant categories, to their posts and to the views of those posts. Recording a view always appends a row.

Modules:
- `Wrappers`: `Option` and `Result`.
- `CategoryTree`: the category table, the ancestor walk, the descendant closure, the URL paths and `GetUrlList`.
- `Posts`: post and view rows, the feature image path and the public path.
- `BlogStore`: the table constraints, the cascades and the class `Blog`.

The `(parent, slug)` constraint is a database `unique_together`. SQL treats NULLs as distinct in a unique constraint, and Django's uniqueness validation skips lookups on a NULL field. Two root categories may therefore share a slug. The model follows that code behaviour (`SlugTaken`, `RootSlugSession`), rather than a reading where every pair of siblings, roots included, has distinct slugs.

A category insert can break several rules at once. In that case the refusal reported is checked in this order: name, parent, slug. The source leaves the order to the database and the ORM.

## Model

| member | source | states |
|---|---|---|
| CategoryTree.Chain | mysite/blog/models.py:43-46 | A successful walk is a root-first chain of rows ending at the category, no longer than the fuel allows |
| CategoryTree.Ancestors | mysite/blog/models.py:43-46 | `get_ancestors(include_self=True)`: when the lookup succeeds it is a root-first chain of rows ending at the category; a category that is not a row has no ancestors |
| CategoryTree.ChainComplete | mysite/blog/models.py:43-46 | Given enough fuel, the walk finds the chain that exists |
| CategoryTree.ChainFits | mysite/blog/models.py:21-26 | No ancestor chain is longer than the table, so fuel equal to the table size never cuts a real chain short |
| CategoryTree.AncestorsExact | mysite/blog/models.py:43-46 | The ancestor lookup returns `c` if and only if `c` is a root-first chain ending at the category |
| CategoryTree.AncestorsStep | mysite/blog/models.py:21-26 | A child's ancestors are its parent's ancestors followed by the child |
| CategoryTree.AncestorsOfEntry | mysite/blog/models.py:21-26 | Every entry of an ancestor chain has the chain up to itself as its ancestors |
| CategoryTree.ChainDistinct | mysite/blog/models.py:21-26 | A root-anchored ancestor chain never repeats a category |
| CategoryTree.SubtreeClosure | mysite/blog/models.py:21-26 | The rows deleted with a category are exactly the CASCADE closure: the category, every child of a deleted row, and nothing whose parent survives |
| CategoryTree.RemoveSubtreeKeepsAncestors | mysite/blog/models.py:21-26 | After the cascade every surviving category still reaches a root and keeps exactly its old ancestors |
| CategoryTree.InsertKeepsAncestors | mysite/blog/models.py:21-26 | Adding a category as a root or under an existing parent keeps every row rooted. Old rows keep their ancestors, and the new row gets its parent's chain plus itself |
| CategoryTree.JoinSlashSnoc | mysite/blog/models.py:50-51 | `'/'.join` of one more slug is the previous join, "/" and that slug |
| CategoryTree.UrlPathsStep | mysite/blog/models.py:50-51 | Each URL path after the first is the previous one, "/" and the next slug |
| CategoryTree.UrlPathsShape | mysite/blog/models.py:48-52 | One path per slug. The first path is the first slug and the last is the full join. Each path extends, and is a prefix of, the next |
| CategoryTree.GetUrlList | mysite/blog/models.py:41-52 | The loop returns the cumulative joins of the ancestor slugs. A failed lookup gives the empty list. Otherwise there is one entry per ancestor, and the last entry is the full join |
| Posts.FeatureImagePath | mysite/blog/models.py:55-56 | The path has length 6 + slug + file name. It starts with "blog/", then the slug, then "-", then the file name |
| Posts.FeatureImagePathInjective | mysite/blog/models.py:55-56 | For slugs of equal length, the path determines both the slug and the file name |
| Posts.FeatureImagePathsCollide | mysite/blog/models.py:63-67 | Posts "a-b" with "c.png" and "a" with "b-c.png" get the same stored path, which the overwriting storage shares |
| Posts.AbsoluteUrlAsWritten | mysite/blog/models.py:84-85 | No path for every post: the subscript of a bound method raises |
| Posts.AbsoluteUrl | mysite/blog/models.py:84-85 | The intended public path exists exactly when the post has a category whose ancestor lookup succeeds. It is the slash-join of the ancestor slugs and the post's slug |
| Posts.ShopAncestorSlugs | mysite/blog/models.py:41-47 | In the shop example the ancestor slugs of "widgets" are "shop", "widgets" |
| Posts.ShopUrlPaths | mysite/blog/models.py:41-52 | In the shop example the URL list of "widgets" is "shop", "shop/widgets" |
| Posts.ShopAbsoluteUrl | mysite/blog/models.py:84-85 | In the shop example the intended path is "shop/widgets/blue-widget", while the code as written gives no path |
| BlogStore.PostsOutside | mysite/blog/models.py:73-78 | The CASCADE on `Post.category`: exactly the posts whose category is not deleted survive, each unchanged |
| BlogStore.KeepViews | mysite/blog/models.py:105-108 | The views kept by the post cascade are exactly those of surviving posts, each with its original multiplicity |
| BlogStore.InsertKeepsUniqueNames | mysite/blog/models.py:20 | Adding a category whose name is not taken keeps names unique |
| BlogStore.InsertKeepsUniqueSiblingSlugs | mysite/blog/models.py:35 | Adding a category whose slug is free under its parent keeps (parent, slug) unique |
| BlogStore.InsertCategoryKeepsValid | mysite/blog/models.py:20-35 | A category that passes the name, parent and slug checks can be added without breaking any table constraint |
| BlogStore.DeleteCategoryKeepsValid | mysite/blog/models.py:21-26 | Removing a subtree, its posts (line 78) and their views (lines 105-108) leaves every constraint intact, with no dangling reference |
| BlogStore.DeletePostKeepsValid | mysite/blog/models.py:105-108 | Removing a post with its views leaves every constraint intact |
| BlogStore.Blog.InsertCategory | mysite/blog/models.py:20-35 | Refused with nothing changed, each reason if and only if its condition holds: duplicate name, unknown parent, or a slug taken under the same parent. Otherwise the row is added under a fresh key, and no other category's ancestors change |
| BlogStore.Blog.InsertPost | mysite/blog/models.py:73-78 | A post whose category is not a row is refused with nothing changed. Any other post is added under a fresh key; the image checks of the save hook are not modelled |
| BlogStore.Blog.RecordView | mysite/blog/models.py:104-111 | Refused with nothing changed if and only if the post is not a row. Otherwise exactly one view row is appended and nothing else changes |
| BlogStore.Blog.DeleteCategory | mysite/blog/models.py:21-26 | Removes the category's subtree, every post in it (line 78) and every view of those posts (lines 105-108). Nothing else changes, survivors keep their ancestors, and the constraints still hold |
| BlogStore.Blog.DeletePost | mysite/blog/models.py:105-108 | Removes the post and all its views. Nothing else changes, and the constraints still hold |
| BlogStore.DuplicateNameSession | mysite/blog/models.py:20 | A second category named "Widgets" is refused as a duplicate name, even at another place in the tree |
| BlogStore.RootSlugSession | mysite/blog/models.py:35 | Two root categories with the slug "shop" are both accepted |
| BlogStore.SlugScopedToParent | mysite/blog/models.py:35 | A slug is taken under the parent that holds it, free under another parent, and never taken at the root |
| BlogStore.ViewsSession | mysite/blog/models.py:104-111 | Three identical views of one post are three rows |
| BlogStore.ShopCascade | mysite/blog/models.py:21-26 | Deleting the shop removes both categories, the post in the child and its view |

## Left out

- `Post.save` (mysite/blog/models.py:87-101) is not modelled. It re-encodes the feature image through PIL and Django upload objects, which are a foreign library and a binary codec. The code reads the image even when none is set.
- BlogStore.Blog.InsertPost: accepts every post whose category exists. The save hook (mysite/blog/models.py:87-101) reads the feature image unconditionally, so the source also refuses, by raising, a post with no image or with an image PIL cannot decode. Posts carry no image in this model, so neither refusal is modelled.
- `post_pre_delete` (mysite/blog/models.py:114-116) is not modelled. It removes the stored file, which is storage I/O.
- Sibling ordering by name (mysite/blog/models.py:31) is MPTT's internal tree numbering. The model keeps categories in a map and gives them no order.
- The cascade is modelled as the set of rows it deletes (`Subtree`). The order in which Django's deletion collector visits those rows is not modelled.
- Re-parenting or renaming an existing category, and editing a post, are not modelled; the model inserts and deletes rows only.
- Field-level validation is not modelled: `max_length`, the slug character set and `blank`. These checks belong to form validation, and the development SQLite database does not enforce them.
- Defaults that depend on the clock or environment are not modelled: `create_date`, `publish_date`, `created_date` and the `author` default of 1. Authors are not modelled.
- Tags, the rich-text `content` field, `description` and the `OverwriteStorage` backend are not modelled; they are third-party plugins or storage. The overwrite is only noted in `Posts.FeatureImagePathsCollide`.
- Settings (mysite/mysite/settings/dev.py) and admin registration (mysite/blog/admin.py) are configuration and are not modelled.
- CategoryTree.Chain: the walk carries explicit fuel, set to the table size by `Ancestors`. On a table with a cycle it returns None where MPTT's stored numbering would answer something else.

## Findings

| source | as written | input that shows it | evidently intended | confidence | as-written member | corrected member |
|---|---|---|---|---|---|---|
| mysite/blog/models.py:85 | `self.category.get_url_list[-1]` subscripts the bound method without calling it, so `get_absolute_url` raises for every post | the post "blue-widget" in category "widgets" under "shop" | "shop/widgets/blue-widget": the last URL path of the category, "/" and the post slug | not executed | Posts.AbsoluteUrlAsWritten | Posts.AbsoluteUrl |
