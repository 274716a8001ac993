# Product catalog rules

A model of the product-catalog logic of a small Flask application. It has two
tables. `categories` maps an id to a name. `products` maps an id to a product
name and a category id. Four request handlers act on them: create
(`new_product`), view (`view_product`), edit (`edit_product`) and delete
(`delete_product`). With the web framework and the ORM taken away, each
handler becomes a state transition that returns an outcome: `Created(id)`,
`Updated(id)`, `Deleted(id)`, `Found(product)`, `NameConflict`, `InvalidName`
or `NotFound` (the notices and the 404 responses).

- `rules.dfy`, module `Rules`: the records, the store, the invariant, and one
  pure transition per handler. The invariant says product names are pairwise
  distinct, category names are pairwise distinct, every product's category id
  is a key of `categories`, and every product id lies below the next fresh id.
  Each transition's contract gives its outcome exactly (both directions of
  "succeeds iff"), says only the one row changes or nothing changes, and keeps
  the invariant.
- `catalog.dfy`, module `Catalog`: the database as a class `Catalog`. It has
  `products` and `nextId` fields that the handlers update in place.
  `categories` is a constant field, because no handler writes it. Each handler
  method is an imperative version of the source's steps, proved equal to the
  transition in `Rules`.
- `session.dfy`, module `Session`: requests handled one after another. Every
  store reached this way keeps the invariant and the same categories. The
  product count equals the start count plus the creates minus the deletes.
  The Hammer example (create twice, second is a conflict, one product) is
  proved.

Decisions:

- The form's required-field check is the predicate `NameGiven`: the name is
  non-empty.
- The store's `filter_by(name=…).first()` lookup is modelled by the
  predicates `NameTaken` and `NameHeldByOther`. `FirstMatchDecidesConflict`
  shows that, under distinct names, the edit handler's test "no match, or the
  match is this product" is the same as `!NameHeldByOther`.
- Edit with a blank or conflicting name falls through to the lookup at
  app.py:103. So when the product id is unknown, the outcome is `NotFound`,
  not `InvalidName` or `NameConflict`.
- Edit whose name is free but whose category is unknown returns `NotFound`
  and changes nothing.
- Delete is modelled as committed.

## Model

| member | source | states |
|---|---|---|
| `Rules.NewProduct` | app.py:59-79 | `InvalidName` when the name is blank. `NameConflict` when some product carries the name. `NotFound` when the category does not exist. Otherwise `Created(id)` with `id` not in use before, and exactly that row added with the given name and category. On every failure the store is unchanged. Categories are never changed. The invariant is kept. |
| `Rules.ViewProduct` | app.py:81-84 | `Found` exactly when the id is in the table, and then with that row. Otherwise `NotFound`. Under the invariant, a found product's category resolves, which the edit form at app.py:105 relies on. |
| `Rules.EditProduct` | app.py:86-106 | `Updated(id)` exactly when the product exists, the name is given, no other product carries the name, and the category exists. Then only row `id` is overwritten with the new name and category. `NotFound` whenever the id is unknown. `InvalidName` or `NameConflict` when the product exists but the name is blank or taken by another product. `NotFound` when only the category is missing. Every failure leaves the store unchanged. The invariant is kept. |
| `Rules.DeleteProduct` | app.py:108-113 | `Deleted(id)` and exactly that row removed when the id exists. `NotFound` and no change otherwise. Afterwards the id is absent. The invariant is kept. |
| `Rules.FirstMatchDecidesConflict` | app.py:90-91 | Under distinct names, for the first product found with the submitted name, "another product has this name" holds iff that product is not the edited one. |
| `Rules.EditKeepingOwnName` | app.py:90-96 | Resubmitting a product's own name with an existing category succeeds as `Updated(id)`. Only the category of that row changes. |
| `Rules.CreatedIsRetrievable` | app.py:66-84 | A create with a given, free name and an existing category succeeds. Viewing the returned id then finds the new product. |
| `Rules.DeletedIsGone` | app.py:108-111 | After a delete, viewing that id is `NotFound`. |
| `Catalog.Catalog.constructor` | app.py:27-43 | Opens the database on given tables that satisfy the invariant. |
| `Catalog.Catalog.NewProduct` | app.py:59-79 | The in-place create keeps `Valid()`. Its outcome and new tables are those of `Rules.NewProduct` on the old tables. |
| `Catalog.Catalog.ViewProduct` | app.py:81-84 | The lookup returns `Rules.ViewProduct` of the current tables and changes nothing. |
| `Catalog.Catalog.EditProduct` | app.py:86-106 | The in-place edit keeps `Valid()`. Its outcome and new tables are those of `Rules.EditProduct` on the old tables. |
| `Catalog.Catalog.DeleteProduct` | app.py:108-113 | The in-place delete keeps `Valid()`. Its outcome and new tables are those of `Rules.DeleteProduct` on the old tables. |
| `Session.Handle` | app.py:59-113 | Any one request keeps the invariant and the categories. It never lowers the id supply. A view changes nothing. |
| `Session.Serve` | app.py:59-113 | Any sequence of requests keeps the invariant and the categories in every store it reaches. It yields one outcome per request. |
| `Session.HandleCount` | app.py:66-70 | One request changes the product count by +1 on `Created`, by -1 on `Deleted`, and by 0 otherwise. |
| `Session.ServeCount` | app.py:59-113 | After any sequence of requests, the product count is the start count plus the reported creates minus the reported deletes. |
| `Session.HammerTwice` | app.py:66-75 | Start with category 1 "Tools". Creating "Hammer" twice yields `Created(1)` and then `NameConflict`, leaving one product. |

## Left out

- Flask routing, templates, redirects, Bootstrap, the shell manager,
  configuration and the database file path. These are web plumbing and I/O.
- The listing page (`index`, app.py:54-57) and the GET forms of create and
  edit. They only read and render. The edit form's product lookup is the same
  lookup as `ViewProduct`.
- Flash message text. Only the outcome is modelled.
- Whitespace stripping in the form's required-field check. A name made only of
  whitespace counts as given here, but the form library would reject it.
- The select field's check of the chosen category against the live category
  list (app.py:48). An unknown category is modelled only by the explicit
  lookup that returns 404.
- The session and commit mechanics, including commit on teardown. The rename
  at app.py:93 happens before the category lookup can fail. Whether it is
  committed then depends on framework behaviour, so the model treats that
  failure as no change.
- Ids come from a counter that is never reused. SQLite can reuse the largest
  row id after that row is deleted. The model only claims that a new id is
  not in use when it is handed out.
- The 64-character column size. SQLite does not enforce it.
- Races between concurrent requests on the uniqueness check. The model is
  sequential.
- Creating categories. No handler for it exists, so categories are a fixed
  input.
- The category-to-products back-reference (app.py:31). It is derived and
  never used by the handlers.
