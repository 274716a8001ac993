/** The product-catalog rules of the application: the two tables, the
    invariant the handlers keep over them, and one pure transition per
    request handler (create, view, edit, delete), with the web and ORM layers
    taken away. */
module Rules {

  /** Primary keys of both tables. */
  type Id = int

  /** A row of the `products` table, without its primary key. */
  datatype Product = Product(name: string, categoryId: Id)

  /** What a handler reports back: the redirect notices and the 404 response
      become constructors, the rendered detail page becomes `Found`. */
  datatype Outcome =
    | Created(id: Id)
    | Updated(id: Id)
    | Deleted(id: Id)
    | Found(product: Product)
    | NameConflict
    | InvalidName
    | NotFound

  /** The persisted state: products by id, categories (id to name) and the
      supply of fresh product ids. */
  datatype Store = Store(products: map<Id, Product>, categories: map<Id, string>, nextId: Id)

  /** A handler's outcome together with the store it leaves behind. */
  datatype Reply = Reply(outcome: Outcome, store: Store)

  /** The form's required-field check on the submitted product name. */
  predicate NameGiven(name: string) {
    |name| > 0
  }

  /** Some product already carries `name`. */
  predicate NameTaken(products: map<Id, Product>, name: string) {
    exists k :: k in products && products[k].name == name
  }

  /** Some product other than `id` carries `name`. */
  predicate NameHeldByOther(products: map<Id, Product>, name: string, id: Id) {
    exists k :: k in products && k != id && products[k].name == name
  }

  /** Product names are pairwise distinct. */
  ghost predicate DistinctNames(products: map<Id, Product>) {
    forall i, j :: i in products && j in products && products[i].name == products[j].name ==> i == j
  }

  /** Category names are pairwise distinct. */
  ghost predicate DistinctCategoryNames(categories: map<Id, string>) {
    forall i, j :: i in categories && j in categories && categories[i] == categories[j] ==> i == j
  }

  /** Every product's category id is a key of the categories table. */
  ghost predicate CategoriesResolve(products: map<Id, Product>, categories: map<Id, string>) {
    forall k :: k in products ==> products[k].categoryId in categories
  }

  /** Every id in use lies below the next id to be handed out. */
  ghost predicate IdsBelow(products: map<Id, Product>, nextId: Id) {
    forall k :: k in products ==> k < nextId
  }

  /** The invariant every handler keeps. */
  ghost predicate Inv(s: Store) {
    && DistinctNames(s.products)
    && DistinctCategoryNames(s.categories)
    && CategoriesResolve(s.products, s.categories)
    && IdsBelow(s.products, s.nextId)
  }

  /** Creating a product: a blank name is refused by the form; a name some
      product carries is a conflict; an unknown category is a 404; otherwise
      one row is inserted under a fresh id. */
  function NewProduct(s: Store, name: string, categoryId: Id): (r: Reply)
    requires Inv(s)
    ensures Inv(r.store)
    ensures r.store.categories == s.categories
    ensures r.outcome.Created? <==>
              NameGiven(name) && !NameTaken(s.products, name) && categoryId in s.categories
    ensures r.outcome.Created? ==>
              && r.outcome.id !in s.products
              && r.store.products == s.products[r.outcome.id := Product(name, categoryId)]
              && r.outcome.id < r.store.nextId
    ensures !r.outcome.Created? ==> r.store == s
    ensures !NameGiven(name) ==> r.outcome == InvalidName
    ensures NameGiven(name) && NameTaken(s.products, name) ==> r.outcome == NameConflict
    ensures NameGiven(name) && !NameTaken(s.products, name) && categoryId !in s.categories ==>
              r.outcome == NotFound
  {
    if !NameGiven(name) then
      Reply(InvalidName, s)
    else if NameTaken(s.products, name) then
      Reply(NameConflict, s)
    else if categoryId !in s.categories then
      Reply(NotFound, s)
    else
      var id := s.nextId;
      Reply(Created(id), s.(products := s.products[id := Product(name, categoryId)], nextId := id + 1))
  }

  /** Showing one product (the detail page, and the pre-filled edit form). */
  function ViewProduct(s: Store, id: Id): (r: Outcome)
    ensures r.Found? || r == NotFound
    ensures r.Found? <==> id in s.products
    ensures r.Found? ==> r.product == s.products[id]
    ensures Inv(s) && r.Found? ==> r.product.categoryId in s.categories
  {
    if id in s.products then Found(s.products[id]) else NotFound
  }

  /** Editing a product: the name must be given and carried by no product
      other than this one; then the product and the chosen category must
      exist. When the name is blank or taken, the form is shown again, which
      needs the product to exist, else it is a 404. */
  function EditProduct(s: Store, id: Id, name: string, categoryId: Id): (r: Reply)
    requires Inv(s)
    ensures Inv(r.store)
    ensures r.store.categories == s.categories && r.store.nextId == s.nextId
    ensures r.outcome.Updated? <==>
              && id in s.products
              && NameGiven(name)
              && !NameHeldByOther(s.products, name, id)
              && categoryId in s.categories
    ensures r.outcome.Updated? ==>
              r.outcome.id == id && r.store.products == s.products[id := Product(name, categoryId)]
    ensures !r.outcome.Updated? ==> r.store == s
    ensures id !in s.products ==> r.outcome == NotFound
    ensures id in s.products && !NameGiven(name) ==> r.outcome == InvalidName
    ensures id in s.products && NameGiven(name) && NameHeldByOther(s.products, name, id) ==>
              r.outcome == NameConflict
    ensures (id in s.products && NameGiven(name) && !NameHeldByOther(s.products, name, id) &&
             categoryId !in s.categories) ==> r.outcome == NotFound
  {
    if NameGiven(name) && !NameHeldByOther(s.products, name, id) then
      if id !in s.products then
        Reply(NotFound, s)
      else if categoryId !in s.categories then
        Reply(NotFound, s)
      else
        Reply(Updated(id), s.(products := s.products[id := Product(name, categoryId)]))
    else if id !in s.products then
      Reply(NotFound, s)
    else if NameGiven(name) then
      Reply(NameConflict, s)
    else
      Reply(InvalidName, s)
  }

  /** Deleting a product: a 404 when the id is unknown, otherwise that one
      row is removed. */
  function DeleteProduct(s: Store, id: Id): (r: Reply)
    requires Inv(s)
    ensures Inv(r.store)
    ensures r.store.categories == s.categories && r.store.nextId == s.nextId
    ensures id in s.products ==>
              r.outcome == Deleted(id) && r.store.products == s.products - {id}
    ensures id !in s.products ==> r.outcome == NotFound && r.store == s
    ensures id !in r.store.products
  {
    if id !in s.products then
      Reply(NotFound, s)
    else
      Reply(Deleted(id), s.(products := s.products - {id}))
  }

  /** The edit handler asks the store for the first product named `name` and
      lets the edit through when there is none or it is the edited one. With
      distinct names that first match is the only one, and the check agrees
      with `NameHeldByOther`. */
  lemma FirstMatchDecidesConflict(products: map<Id, Product>, name: string, id: Id, first: Id)
    requires DistinctNames(products)
    requires first in products && products[first].name == name
    ensures NameHeldByOther(products, name, id) <==> first != id
  {
  }

  /** Keeping a product's own name is not a conflict: the edit succeeds
      whenever the chosen category exists. */
  lemma EditKeepingOwnName(s: Store, id: Id, categoryId: Id)
    requires Inv(s)
    requires id in s.products && NameGiven(s.products[id].name) && categoryId in s.categories
    ensures EditProduct(s, id, s.products[id].name, categoryId) == Reply(Updated(id), s.(products := s.products[id := Product(s.products[id].name, categoryId)]))
  {
  }

  /** A product just created can be viewed under the id it was given. */
  lemma CreatedIsRetrievable(s: Store, name: string, categoryId: Id)
    requires Inv(s)
    requires NameGiven(name) && !NameTaken(s.products, name) && categoryId in s.categories
    ensures NewProduct(s, name, categoryId).outcome.Created?
    ensures var r := NewProduct(s, name, categoryId);
            ViewProduct(r.store, r.outcome.id) == Found(Product(name, categoryId))
  {
  }

  /** A product just deleted can no longer be viewed. */
  lemma DeletedIsGone(s: Store, id: Id)
    requires Inv(s)
    ensures ViewProduct(DeleteProduct(s, id).store, id) == NotFound
  {
  }
}
