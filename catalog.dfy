/** The catalog database as a mutable object: the handlers insert, overwrite
    and remove product rows in place. Categories are seeded from outside and
    never written, so they are a constant field. Each handler is proved to do
    exactly what the matching transition of `Rules` does. */
module Catalog {
  import opened Rules

  class Catalog {
    var products: map<Id, Product>
    const categories: map<Id, string>
    var nextId: Id

    /** The abstract value of the database. */
    ghost function State(): Store
      reads this
    {
      Store(products, categories, nextId)
    }

    ghost predicate Valid()
      reads this
    {
      Inv(State())
    }

    /** Opens a database holding the given tables. */
    constructor (products0: map<Id, Product>, categories0: map<Id, string>, nextId0: Id)
      requires Inv(Store(products0, categories0, nextId0))
      ensures Valid()
      ensures State() == Store(products0, categories0, nextId0)
    {
      products := products0;
      categories := categories0;
      nextId := nextId0;
    }

    /** POST /new */
    method NewProduct(name: string, categoryId: Id) returns (outcome: Outcome)
      requires Valid()
      modifies this
      ensures Valid()
      ensures Reply(outcome, State()) == Rules.NewProduct(old(State()), name, categoryId)
    {
      if !NameGiven(name) {
        return InvalidName;
      }
      if NameTaken(products, name) {
        return NameConflict;
      }
      if categoryId !in categories {
        return NotFound;
      }
      var id := nextId;
      products := products[id := Product(name, categoryId)];
      nextId := nextId + 1;
      outcome := Created(id);
    }

    /** GET /<id>/, and the lookup behind GET /<id>/edit */
    method ViewProduct(id: Id) returns (outcome: Outcome)
      ensures outcome == Rules.ViewProduct(State(), id)
    {
      if id !in products {
        return NotFound;
      }
      outcome := Found(products[id]);
    }

    /** POST /<id>/edit */
    method EditProduct(id: Id, name: string, categoryId: Id) returns (outcome: Outcome)
      requires Valid()
      modifies this
      ensures Valid()
      ensures Reply(outcome, State()) == Rules.EditProduct(old(State()), id, name, categoryId)
    {
      if NameGiven(name) && !NameHeldByOther(products, name, id) {
        if id !in products {
          return NotFound;
        }
        if categoryId !in categories {
          return NotFound;
        }
        products := products[id := Product(name, categoryId)];
        return Updated(id);
      }
      if id !in products {
        return NotFound;
      }
      outcome := if NameGiven(name) then NameConflict else InvalidName;
    }

    /** GET /<id>/delete */
    method DeleteProduct(id: Id) returns (outcome: Outcome)
      requires Valid()
      modifies this
      ensures Valid()
      ensures Reply(outcome, State()) == Rules.DeleteProduct(old(State()), id)
    {
      if id !in products {
        return NotFound;
      }
      products := products - {id};
      outcome := Deleted(id);
    }
  }
}
