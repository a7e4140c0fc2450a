/** The handler registry of the condition panel.

    Each condition type is an opaque handler object defined elsewhere; the
    panel only ever asks it for its label, its singleton policy and, while
    loading or adding, for an item.  A handler is therefore modelled by the
    variant it instantiates together with the label and singleton flag it
    reports. */
module Handlers {

  /** The twelve built-in condition types. */
  datatype HandlerKind =
    | Price | Manufacturer | Property | Attribute | Category | ImmediateDelivery
    | HasPseudoPrice | CreateDate | ReleaseDate | VoteAverage | Sales | SearchTerm

  /** One registered handler: what `getLabel()` (caption) and `isSingleton()` answer. */
  datatype Handler = Handler(kind: HandlerKind, caption: string, singleton: bool)

  /** The order in which `createConditionHandlers` instantiates the variants. */
  function RegistrationOrder(): seq<HandlerKind>
  {
    [Price, Manufacturer, Property, Attribute, Category, ImmediateDelivery,
     HasPseudoPrice, CreateDate, ReleaseDate, VoteAverage, Sales, SearchTerm]
  }

  /** True when some handler of `r` instantiates the variant `k`. */
  ghost predicate Registered(r: seq<Handler>, k: HandlerKind)
  {
    exists i :: 0 <= i < |r| && r[i].kind == k
  }

  /** The registry built once per panel: one handler per variant, in
      registration order, each reporting the label and singleton flag that its
      (unseen) class defines. */
  function CreateConditionHandlers(labelOf: HandlerKind -> string, singletonOf: HandlerKind -> bool)
    : (r: seq<Handler>)
    ensures |r| == 12
    ensures r[0].kind == Price && r[11].kind == SearchTerm
    ensures forall i :: 0 <= i < |r| ==>
      r[i].caption == labelOf(r[i].kind) && r[i].singleton == singletonOf(r[i].kind)
    ensures forall i, j :: 0 <= i < j < |r| ==> r[i].kind != r[j].kind
  {
    var order := RegistrationOrder();
    seq(|order|, i requires 0 <= i < |order| => Handler(order[i], labelOf(order[i]), singletonOf(order[i])))
  }

  /** Every built-in variant is registered, so together with the distinctness
      above the registry is a permutation of the twelve variants. */
  lemma RegistryIsComplete(labelOf: HandlerKind -> string, singletonOf: HandlerKind -> bool)
    ensures forall k: HandlerKind :: Registered(CreateConditionHandlers(labelOf, singletonOf), k)
  {
    var r := CreateConditionHandlers(labelOf, singletonOf);
    forall k: HandlerKind ensures Registered(r, k) {
      var i := match k
        case Price => 0
        case Manufacturer => 1
        case Property => 2
        case Attribute => 3
        case Category => 4
        case ImmediateDelivery => 5
        case HasPseudoPrice => 6
        case CreateDate => 7
        case ReleaseDate => 8
        case VoteAverage => 9
        case Sales => 10
        case SearchTerm => 11;
      assert r[i].kind == k;
    }
  }
}
