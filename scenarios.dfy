/** Client code that drives a whole panel through typical editing
    sessions; each method's postcondition follows from the panel's contracts
    alone. */
module Scenarios {
  import opened Wrappers
  import opened Handlers
  import opened ConditionList
  import opened ConditionPanel

  /** Adding a singleton condition twice, the first callback having run
      before the second add begins: the second is refused with the
      notification and the list holds the name once. */
  method SingletonAddedTwice<V>(labelOf: HandlerKind -> string, singletonOf: HandlerKind -> bool, name: string)
    returns (conditions: Slots, events: seq<Event<V>>)
    requires singletonOf(Price)
    ensures conditions == [Some(name)]
    ensures events == [SingletonRejected(SingletonTitle, SingletonMessage)]
  {
    var session := new ConditionSession<V>(labelOf, singletonOf);
    var price := session.handlers[0];
    var first := session.AddCondition(price);
    session.OnProduced(price, first, name);
    var second := session.AddCondition(price);
    session.OnProduced(price, second, name);
    conditions, events := session.conditions, session.events;
  }

  /** Closing the only container of a singleton condition leaves a hole,
      after which the same singleton is admitted again without any
      notification. */
  method CloseThenAddAgain<V>(labelOf: HandlerKind -> string, singletonOf: HandlerKind -> bool, name: string)
    returns (conditions: Slots, events: seq<Event<V>>)
    requires singletonOf(Price)
    ensures conditions == [None, Some(name)]
    ensures events == []
  {
    var session := new ConditionSession<V>(labelOf, singletonOf);
    var price := session.handlers[0];
    var first := session.AddCondition(price);
    session.OnProduced(price, first, name);
    session.OnClose(first);
    var second := session.AddCondition(price);
    session.OnProduced(price, second, name);
    conditions, events := session.conditions, session.events;
  }

  /** Price claims the stored key "price" and SearchTerm the key
      "search_term"; no other handler claims anything. */
  function ClaimByKind<V>(h: Handler, key: string, value: V, stored: map<string, V>): Option<string>
  {
    if (h.kind == Price && key == "price") || (h.kind == SearchTerm && key == "search_term") then Some(key)
    else None
  }

  /** Loading a record with a price and a search-term condition lists both,
      in stored-key order, and requests a preview of the stored mapping
      exactly when the record has an id. */
  method LoadPriceAndSearchTerm<V>(labelOf: HandlerKind -> string, singletonOf: HandlerKind -> bool,
                                   price: V, term: V, id: Option<int>)
    returns (conditions: Slots, events: seq<Event<V>>)
    ensures conditions == [Some("price"), Some("search_term")]
    ensures events == if HasId(id) then [PreviewRequested(Some(map["price" := price, "search_term" := term]))] else []
  {
    var session := new ConditionSession<V>(labelOf, singletonOf);
    var stored := map["price" := price, "search_term" := term];
    var keys := ["price", "search_term"];
    var load: Loader<V> := ClaimByKind;
    var hs := session.handlers;
    SingleClaimantAddsOne("price", hs, stored, load, 0, "price");
    SingleClaimantAddsOne("search_term", hs, stored, load, 11, "search_term");
    assert keys[..1] == ["price"] && keys[..1][..0] == [];
    assert Loaded(keys[..1], hs, stored, load) == [Some("price")];
    assert Loaded(keys, hs, stored, load) == [Some("price"), Some("search_term")];
    session.LoadConditions(Record(stored, id), keys, load);
    conditions, events := session.conditions, session.events;
  }

  /** Price claims every stored key, producing an item named "price". */
  function PriceClaimsAll<V>(h: Handler, key: string, value: V, stored: map<string, V>): Option<string>
  {
    if h.kind == Price then Some("price") else None
  }

  /** Loading performs no singleton check: two stored keys that the same
      handler claims give two copies of its item name, even when that
      handler is a singleton. */
  method LoadKeepsDuplicates<V>(labelOf: HandlerKind -> string, singletonOf: HandlerKind -> bool,
                                first: V, second: V)
    returns (conditions: Slots)
    ensures conditions == [Some("price"), Some("price")]
  {
    var session := new ConditionSession<V>(labelOf, singletonOf);
    var stored := map["k1" := first, "k2" := second];
    var keys := ["k1", "k2"];
    var load: Loader<V> := PriceClaimsAll;
    var hs := session.handlers;
    SingleClaimantAddsOne("k1", hs, stored, load, 0, "price");
    SingleClaimantAddsOne("k2", hs, stored, load, 0, "price");
    assert keys[..1] == ["k1"] && keys[..1][..0] == [];
    assert Loaded(keys[..1], hs, stored, load) == [Some("price")];
    assert Loaded(keys, hs, stored, load) == [Some("price"), Some("price")];
    session.LoadConditions(Record(stored, None), keys, load);
    conditions := session.conditions;
  }
}
