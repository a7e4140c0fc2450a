/** The condition panel of the product-stream editor: its handler registry,
    its active-condition list and the operations that change and read it. */
module ConditionPanel {
  import opened Wrappers
  import opened Handlers
  import opened ConditionList
  import FormValues

  /** The side effects the panel produces for the outside world. */
  datatype Event<V> =
    | SingletonRejected(title: string, message: string)  // the growl notification
    | PreviewRequested(payload: Option<map<string, V>>)   // fireEvent('load-preview', ...)

  const SingletonTitle: string := "Singleton filter"
  const SingletonMessage: string := "Filter can only be added one time"

  /** A persisted product stream as far as loading reads it: the stored
      key-to-value mapping and the record id, if any. */
  datatype Record<V> = Record(conditions: map<string, V>, id: Option<int>)

  /** `record.get('id')` is truthy: present and not 0. */
  predicate HasId(id: Option<int>)
  {
    id.Some? && id.value != 0
  }

  /** The collapsible, closable panel that wraps one condition item. */
  class ConditionContainer {
    const title: string
    var name: Option<string>
    var items: seq<string>

    constructor (title: string)
      ensures this.title == title && name == None && items == []
    {
      this.title := title;
      name := None;
      items := [];
    }
  }

  class ConditionSession<V> {
    const handlers: seq<Handler>
    var conditions: Slots
    var events: seq<Event<V>>

    /** `initComponent`: the registry is built once and the list starts empty. */
    constructor (labelOf: HandlerKind -> string, singletonOf: HandlerKind -> bool)
      ensures handlers == CreateConditionHandlers(labelOf, singletonOf)
      ensures conditions == [] && events == []
    {
      handlers := CreateConditionHandlers(labelOf, singletonOf);
      conditions := [];
      events := [];
    }

    /** `loadPreview`: asks the preview for a recomputation. */
    method LoadPreview(payload: Option<map<string, V>>)
      modifies this`events
      ensures events == old(events) + [PreviewRequested(payload)]
    {
      events := events + [PreviewRequested(payload)];
    }

    /** `getConditions`: each field named `condition.<key>` yields the entry
        `key` with the field's value; every other field is skipped. */
    method GetConditions(values: map<string, V>) returns (r: map<string, V>)
      ensures forall k :: k in r <==> FormValues.Prefix + k in values
      ensures forall k :: k in r ==> r[k] == values[FormValues.Prefix + k]
      ensures r == FormValues.Stripped(values)
    {
      r := map[];
      var remaining := values.Keys;
      while remaining != {}
        invariant remaining <= values.Keys
        invariant forall k :: k in r <==> FormValues.Prefix + k in values - remaining
        invariant forall k :: k in r ==> r[k] == values[FormValues.Prefix + k]
        decreases remaining
      {
        var key :| key in remaining;
        if FormValues.HasPrefix(key) {
          FormValues.StripIsReplace(key);
          FormValues.NamespaceIsInjective();
          var newKey := FormValues.ReplaceFirst(key, FormValues.Prefix, "");
          r := r[newKey := values[key]];
        }
        remaining := remaining - {key};
      }
    }

    /** `createConditionContainer`: a fresh, still unnamed container titled
        with the handler's label. */
    method CreateConditionContainer(handler: Handler) returns (container: ConditionContainer)
      ensures fresh(container)
      ensures container.title == handler.caption && container.name == None && container.items == []
    {
      container := new ConditionContainer(handler.caption);
    }

    /** `putItemInContainer`: the container takes the item and its name, and
        the name is pushed onto the end of the list. */
    method PutItemInContainer(item: string, container: ConditionContainer)
      modifies this`conditions, container
      ensures container.name == Some(item)
      ensures container.items == old(container.items) + [item]
      ensures conditions == old(conditions) + [Some(item)]
    {
      container.name := Some(item);
      container.items := container.items + [item];
      conditions := conditions + [Some(item)];
    }

    /** `addCondition`: prepares the container and hands control to the
        handler's asynchronous `create`; the list is left alone until the
        handler calls back through `OnProduced`. */
    method AddCondition(handler: Handler) returns (container: ConditionContainer)
      ensures fresh(container)
      ensures container.title == handler.caption && container.name == None && container.items == []
    {
      container := CreateConditionContainer(handler);
    }

    /** The callback given to `create`.  It reads the list as it stands when
        the callback runs: a singleton handler's name that is already there
        is refused with a notification, anything else is put in the
        container and pushed. */
    method OnProduced(handler: Handler, container: ConditionContainer, item: string)
      modifies this`conditions, this`events, container
      ensures conditions == AfterProduced(old(conditions), handler.singleton, item)
      ensures handler.singleton && Some(item) in old(conditions) ==>
        events == old(events) + [SingletonRejected(SingletonTitle, SingletonMessage)]
        && container.name == old(container.name) && container.items == old(container.items)
      ensures !(handler.singleton && Some(item) in old(conditions)) ==>
        events == old(events)
        && container.name == Some(item) && container.items == old(container.items) + [item]
    {
      var singleton := handler.singleton;
      if singleton && IndexOf(conditions, item) > -1 {
        events := events + [SingletonRejected(SingletonTitle, SingletonMessage)];
        return;
      }
      PutItemInContainer(item, container);
    }

    /** The container's `close` listener: the first slot holding the
        container's name becomes a hole.  A container that never received a
        name (JavaScript `undefined`) matches no slot. */
    method OnClose(container: ConditionContainer)
      modifies this`conditions
      ensures container.name.None? ==> conditions == old(conditions)
      ensures container.name.Some? ==> conditions == ClearFirst(old(conditions), container.name.value)
    {
      var index := if container.name.Some? then IndexOf(conditions, container.name.value) else -1;
      conditions := Delete(conditions, index);
    }

    /** The body of `loadConditions` for one stored key (the `Ext.each`
        over the registry): each handler gets a fresh container and the
        chance to load the key; a produced item is put in its container. */
    method LoadKey(key: string, stored: map<string, V>, load: Loader<V>)
      requires key in stored
      modifies this`conditions
      ensures conditions == old(conditions) + LoadedForKey(key, handlers, stored, load)
    {
      var condition := stored[key];
      var j := 0;
      while j < |handlers|
        invariant 0 <= j <= |handlers|
        invariant conditions == old(conditions) + LoadedForKey(key, handlers[..j], stored, load)
      {
        var handler := handlers[j];
        var container := CreateConditionContainer(handler);
        var item := load(handler, key, condition, stored);
        assert handlers[..j + 1][..j] == handlers[..j];
        if item.Some? {
          PutItemInContainer(item.value, container);
        }
        j := j + 1;
      }
      assert handlers[..j] == handlers;
    }

    /** `loadConditions`: every stored key is offered to every handler in
        registration order and each produced item joins the list, without a
        singleton check; a saved record then requests one preview of the
        stored mapping. */
    method LoadConditions(record: Record<V>, keys: seq<string>, load: Loader<V>)
      requires forall k :: k in keys <==> k in record.conditions
      requires forall i, j :: 0 <= i < j < |keys| ==> keys[i] != keys[j]
      modifies this`conditions, this`events
      ensures conditions == old(conditions) + Loaded(keys, handlers, record.conditions, load)
      ensures events == old(events) + if HasId(record.id) then [PreviewRequested(Some(record.conditions))] else []
    {
      var stored := record.conditions;
      var i := 0;
      while i < |keys|
        invariant 0 <= i <= |keys|
        invariant conditions == old(conditions) + Loaded(keys[..i], handlers, stored, load)
        invariant events == old(events)
      {
        assert keys[..i + 1][..i] == keys[..i];
        LoadKey(keys[i], stored, load);
        i := i + 1;
      }
      assert keys[..i] == keys;
      if !HasId(record.id) {
        return;
      }
      LoadPreview(Some(stored));
    }
  }
}
