/** The server handles requests one after another against the store the
    previous one left behind. Every state reached that way keeps the
    invariant, and the number of products moves exactly with the rows that
    were created and deleted. */
module Session {
  import opened Rules

  /** A request that reaches one of the catalog handlers. */
  datatype Request =
    | NewRequest(name: string, categoryId: Id)
    | ViewRequest(id: Id)
    | EditRequest(id: Id, name: string, categoryId: Id)
    | DeleteRequest(id: Id)

  /** The outcomes of a run of requests and the store it ends in. */
  datatype Trace = Trace(outcomes: seq<Outcome>, store: Store)

  /** Routes one request to its handler. */
  function Handle(s: Store, req: Request): (r: Reply)
    requires Inv(s)
    ensures Inv(r.store)
    ensures r.store.categories == s.categories
    ensures s.nextId <= r.store.nextId
    ensures req.ViewRequest? ==> r.store == s
  {
    match req
    case NewRequest(name, categoryId) => NewProduct(s, name, categoryId)
    case ViewRequest(id) => Reply(ViewProduct(s, id), s)
    case EditRequest(id, name, categoryId) => EditProduct(s, id, name, categoryId)
    case DeleteRequest(id) => DeleteProduct(s, id)
  }

  /** Handles `reqs` in order, each against the store the previous left. */
  function Serve(s: Store, reqs: seq<Request>): (t: Trace)
    requires Inv(s)
    ensures Inv(t.store)
    ensures t.store.categories == s.categories
    ensures s.nextId <= t.store.nextId
    ensures |t.outcomes| == |reqs|
    decreases |reqs|
  {
    if reqs == [] then
      Trace([], s)
    else
      var first := Handle(s, reqs[0]);
      var rest := Serve(first.store, reqs[1..]);
      Trace([first.outcome] + rest.outcomes, rest.store)
  }

  /** Product rows created minus product rows deleted in `outcomes`. */
  function NetChange(outcomes: seq<Outcome>): int {
    if outcomes == [] then 0
    else
      (if outcomes[0].Created? then 1 else if outcomes[0].Deleted? then -1 else 0)
      + NetChange(outcomes[1..])
  }

  /** One request changes the number of products by one on a create, by
      minus one on a delete, and not at all otherwise. */
  lemma HandleCount(s: Store, req: Request)
    requires Inv(s)
    ensures |Handle(s, req).store.products| == |s.products| + NetChange([Handle(s, req).outcome])
  {
  }

  /** Over any run, the number of products is the starting number plus the
      creates minus the deletes the run reported. */
  lemma {:induction false} ServeCount(s: Store, reqs: seq<Request>)
    requires Inv(s)
    ensures |Serve(s, reqs).store.products| == |s.products| + NetChange(Serve(s, reqs).outcomes)
    decreases |reqs|
  {
    if reqs != [] {
      var first := Handle(s, reqs[0]);
      var rest := Serve(first.store, reqs[1..]);
      HandleCount(s, reqs[0]);
      ServeCount(first.store, reqs[1..]);
      var outs := [first.outcome] + rest.outcomes;
      assert outs[1..] == rest.outcomes;
      assert NetChange(outs) == NetChange([first.outcome]) + NetChange(rest.outcomes) by {
        assert [first.outcome][1..] == [];
      }
    }
  }

  /** With one category "Tools", creating "Hammer" succeeds, and creating
      "Hammer" again is a conflict that leaves a single product. */
  lemma HammerTwice()
    ensures var seed := Store(map[], map[1 := "Tools"], 1);
            var t := Serve(seed, [NewRequest("Hammer", 1), NewRequest("Hammer", 1)]);
            t.outcomes == [Created(1), NameConflict] && |t.store.products| == 1
  {
  }
}
