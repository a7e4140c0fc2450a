# Product-stream condition panel: the active-condition bookkeeping

This project models the bookkeeping core of Shopware's product-stream
condition panel (`Shopware.apps.ProductStream.view.condition_list.ConditionPanel`),
an ExtJS form where a user puts together the conditions of a product stream
(price, manufacturer, search term, ...). The model covers:

- the **handler registry**. It holds twelve condition handlers in a fixed
  order and is built once when the panel initialises. Each handler is
  modelled by its variant, its label (`caption`) and its singleton flag.
- the **active-condition list** `conditions`. It is a JavaScript array that
  only grows by `push` and loses entries by `delete`, which leaves a hole
  and does not compact. It is modelled as `seq<Option<string>>`, with
  `None` for a hole.
- the operations that change or read that list:
  - putting an item into its container;
  - the guarded add that runs when a handler's `create` calls back;
  - the `close` listener of a container;
  - `loadConditions` over a persisted record, with its `load-preview` request;
  - `getConditions`, which turns the form's `condition.<key>` fields into
    the stored key-to-value map.

Modules:

- `Wrappers`: the `Option` type.
- `Handlers`: handler variants, the `Handler` value and `CreateConditionHandlers`.
- `ConditionList`: the specification functions on the list.
  - `IndexOf` is JavaScript `indexOf`, which skips holes.
  - `Delete` is `delete a[i]`, where index -1 is a no-op.
  - `ClearFirst` is the close listener.
  - `AfterProduced` is the add callback.
  - `Loaded` is what loading appends.
  - The module also holds the lemmas about these functions, including the
    singleton invariant over a whole run of adds and closes (`Run`).
- `FormValues`: the `condition.` namespace, `String.prototype.replace`
  (first occurrence) and the reference definition `Stripped` of
  `getConditions`, with its round trip.
- `ConditionPanel`: the classes `ConditionContainer` and
  `ConditionSession<V>`. Their methods change the list in place and are
  proved against the functions above. Side effects go into an `events`
  log: the "Singleton filter" growl message and `fireEvent('load-preview', ...)`.
- `Scenarios`: client code that runs four scenarios, each on a fresh
  session. The postconditions follow from the contracts alone:
  - a singleton added twice;
  - a singleton closed and added again;
  - a record with a price and a search-term condition loaded, with and
    without an id;
  - two stored keys claimed by the same handler loaded, giving two copies.

Parameters take the place of what lives outside this file:

- Handler labels and singleton flags are the functions `labelOf` and
  `singletonOf` given to the constructor.
- A handler's `load` is a function `Loader<V>`. It maps the handler, the
  stored key, the key's value and the whole stored mapping to the name of
  the produced item, if any.
- The order in which `for…in` enumerates the stored keys is a sequence
  `keys`. Its required contents are exactly the mapping's keys, each once.
- The form's `getValues()` result is a `map<string, V>`.

The record id is tested with JavaScript truthiness. `HasId` holds for a
present, non-zero id, so an id of 0 requests no preview, just as a missing id.

Notes on the code:

- It keeps no entry mapping beside the name list, and closing a container
  prunes nothing else. So the model has only the list.
- The list holds the produced item's name (`item.getName()`), not the
  stored key.
- The third argument passed to `load` is the fresh container. The model
  leaves that argument out.
- The `create` callback has no guard that checks whether the panel is
  still alive, so none is modelled.

## Model

| member | source | states |
|---|---|---|
| Handlers.CreateConditionHandlers | themes/Backend/ExtJs/backend/product_stream/view/condition_list/condition_panel.js:107-122 | the registry has 12 handlers, Price first and SearchTerm last, no variant twice, and each reports its class's label and singleton flag |
| Handlers.RegistryIsComplete | themes/Backend/ExtJs/backend/product_stream/view/condition_list/condition_panel.js:107-122 | every built-in variant is registered, so the registry is a permutation of the twelve variants |
| ConditionList.IndexOf | themes/Backend/ExtJs/backend/product_stream/view/condition_list/condition_panel.js:163 | the result is -1 exactly when no slot holds the name; otherwise it is the first slot holding the name, and a hole never matches |
| ConditionList.Delete | themes/Backend/ExtJs/backend/product_stream/view/condition_list/condition_panel.js:164 | `delete a[i]` keeps the length and every other slot, and makes slot i a hole when i is in range; -1 changes nothing |
| ConditionList.DeleteReplacesOneSlot | themes/Backend/ExtJs/backend/product_stream/view/condition_list/condition_panel.js:164 | deleting a slot removes one copy of its content from the multiset of slots and adds one hole |
| ConditionList.ClearFirst | themes/Backend/ExtJs/backend/product_stream/view/condition_list/condition_panel.js:162-165 | closing keeps the length and every slot except the first one holding the name, which becomes a hole; the name occurs once less and other names as often; an absent name leaves the list identical |
| ConditionList.AfterProduced | themes/Backend/ExtJs/backend/product_stream/view/condition_list/condition_panel.js:129-138 | a singleton name already present leaves the list unchanged, otherwise the name is appended once; a singleton name present at most once is present exactly once afterwards; other names are unaffected |
| ConditionList.ReAddAfterClose | themes/Backend/ExtJs/backend/product_stream/view/condition_list/condition_panel.js:133-164 | after the only occurrence of a singleton name is closed, the hole does not block the name and it is appended again |
| ConditionList.SingletonStaysUnique | themes/Backend/ExtJs/backend/product_stream/view/condition_list/condition_panel.js:128-165 | for a name produced only by singleton handlers and occurring at most once, any run of adds and closes keeps it at most once |
| ConditionList.LoadedForKeyContents | themes/Backend/ExtJs/backend/product_stream/view/condition_list/condition_panel.js:90-97 | one stored key adds exactly the names its handlers' `load` produce, and no hole |
| ConditionList.UnrecognisedKeyAddsNothing | themes/Backend/ExtJs/backend/product_stream/view/condition_list/condition_panel.js:90-97 | a stored key that no handler loads adds nothing |
| ConditionList.SingleClaimantAddsOne | themes/Backend/ExtJs/backend/product_stream/view/condition_list/condition_panel.js:90-97 | a stored key that exactly one handler loads adds exactly that handler's item |
| ConditionList.LoadedContents | themes/Backend/ExtJs/backend/product_stream/view/condition_list/condition_panel.js:87-98 | loading adds a name exactly when some handler's `load` produces it for some stored key, and never adds a hole |
| ConditionList.SomeKeyProducesSnoc | themes/Backend/ExtJs/backend/product_stream/view/condition_list/condition_panel.js:87-98 | a name is produced for the keys `init + [key]` exactly when it is produced for `init` or for `key` |
| ConditionList.ClaimantsSnoc | themes/Backend/ExtJs/backend/product_stream/view/condition_list/condition_panel.js:90-97 | the handlers producing a name for a key are those among all but the last handler, plus the last one if it produces the name |
| ConditionList.LoadedForKeyCount | themes/Backend/ExtJs/backend/product_stream/view/condition_list/condition_panel.js:90-97 | one stored key adds one copy of a name for every handler whose `load` produces it; nothing is merged |
| ConditionList.LoadedCount | themes/Backend/ExtJs/backend/product_stream/view/condition_list/condition_panel.js:87-98 | loading adds one copy of a name for every (stored key, handler) pair that produces it, with no singleton check or deduplication |
| FormValues.StripIsReplace | themes/Backend/ExtJs/backend/product_stream/view/condition_list/condition_panel.js:66-67 | for a name starting with `condition.`, `replace('condition.', '')` removes exactly the leading prefix, and prefixing again gives the name back |
| FormValues.ConditionKeysAreNamespaced | themes/Backend/ExtJs/backend/product_stream/view/condition_list/condition_panel.js:65-70 | a key is produced exactly when `condition.` followed by it is a field name |
| FormValues.NamespaceIsInjective | themes/Backend/ExtJs/backend/product_stream/view/condition_list/condition_panel.js:67-68 | distinct stripped keys come from distinct field names, so no entry overwrites another |
| FormValues.Stripped | themes/Backend/ExtJs/backend/product_stream/view/condition_list/condition_panel.js:59-72 | reference serialisation: a key is present exactly when `condition.<key>` is a field, and its value is that field's value |
| FormValues.SerialiseNamespaced | themes/Backend/ExtJs/backend/product_stream/view/condition_list/condition_panel.js:59-72 | a form whose fields are the stored mapping's keys under `condition.` serialises back to exactly the stored mapping |
| FormValues.SerialiseIgnoresOtherFields | themes/Backend/ExtJs/backend/product_stream/view/condition_list/condition_panel.js:65-70 | fields outside the `condition.` namespace do not change the serialised mapping |
| ConditionPanel.ConditionContainer.constructor | themes/Backend/ExtJs/backend/product_stream/view/condition_list/condition_panel.js:146-168 | a new container carries the given title, has no name and holds no item |
| ConditionPanel.ConditionSession.constructor | themes/Backend/ExtJs/backend/product_stream/view/condition_list/condition_panel.js:40-45 | initialisation builds the registry once, and the condition list and event log start empty |
| ConditionPanel.ConditionSession.LoadPreview | themes/Backend/ExtJs/backend/product_stream/view/condition_list/condition_panel.js:51-53 | exactly one `load-preview` request with the given payload is recorded |
| ConditionPanel.ConditionSession.GetConditions | themes/Backend/ExtJs/backend/product_stream/view/condition_list/condition_panel.js:59-72 | the loop's result has a key exactly when `condition.<key>` is a field, holds that field's value unchanged, and equals `Stripped` |
| ConditionPanel.ConditionSession.CreateConditionContainer | themes/Backend/ExtJs/backend/product_stream/view/condition_list/condition_panel.js:143-148 | a fresh, unnamed, empty container titled with the handler's label |
| ConditionPanel.ConditionSession.PutItemInContainer | themes/Backend/ExtJs/backend/product_stream/view/condition_list/condition_panel.js:74-81 | the container's name becomes the item's name and the container gains the item; the list is the old list with the name appended, so it grows by one and earlier slots are unchanged |
| ConditionPanel.ConditionSession.AddCondition | themes/Backend/ExtJs/backend/product_stream/view/condition_list/condition_panel.js:124-141 | a fresh container titled with the handler's label; the list is untouched until the callback runs |
| ConditionPanel.ConditionSession.OnProduced | themes/Backend/ExtJs/backend/product_stream/view/condition_list/condition_panel.js:128-140 | the list as it stands when the callback runs becomes `AfterProduced` of it; a refused singleton records the "Singleton filter" message and leaves the container alone, otherwise the container takes the item and nothing is recorded |
| ConditionPanel.ConditionSession.OnClose | themes/Backend/ExtJs/backend/product_stream/view/condition_list/condition_panel.js:161-166 | the list becomes `ClearFirst` of the container's name; an unnamed container changes nothing |
| ConditionPanel.ConditionSession.LoadKey | themes/Backend/ExtJs/backend/product_stream/view/condition_list/condition_panel.js:88-97 | one stored key offered to every handler in registration order appends `LoadedForKey` to the list |
| ConditionPanel.ConditionSession.LoadConditions | themes/Backend/ExtJs/backend/product_stream/view/condition_list/condition_panel.js:83-105 | the list gains `Loaded` of all keys, key by key and handler by handler, with no singleton check; one `load-preview` request with the stored mapping is recorded exactly when the id is truthy (`HasId`), none otherwise |
| Scenarios.SingletonAddedTwice | themes/Backend/ExtJs/backend/product_stream/view/condition_list/condition_panel.js:124-140 | adding the singleton Price twice in sequence leaves the name once and records one singleton notification |
| Scenarios.CloseThenAddAgain | themes/Backend/ExtJs/backend/product_stream/view/condition_list/condition_panel.js:128-165 | add, close, add of a singleton gives `[hole, name]` and no notification |
| Scenarios.LoadPriceAndSearchTerm | themes/Backend/ExtJs/backend/product_stream/view/condition_list/condition_panel.js:83-105 | loading `{price, search_term}` gives the list `[price, search_term]`, and a preview of the stored mapping exactly when the id is truthy |
| Scenarios.LoadKeepsDuplicates | themes/Backend/ExtJs/backend/product_stream/view/condition_list/condition_panel.js:87-98 | two stored keys both claimed by Price give the list `[price, price]`, though Price may be a singleton |

The functions and predicates `Occurrences`, `Loaded`, `LoadedForKey`,
`Claimants`, `ClaimingPairs`, `KeyProduces`, `SomeKeyProduces`, `Registered`,
`Step`, `Run`, `Namespaced`, `ConditionKeys`, `HasPrefix`, `ReplaceFirst`,
`RegistrationOrder`, `HasId`, `ClaimByKind` and `PriceClaimsAll` define terms that the contracts above use; they carry no
contract of their own.

## Left out

- Layout and visual wiring are not modelled: `createToolbar`, `createToolbarItems` (including the refresh button that calls `loadPreview()` with no payload; `LoadPreview(None)` is that call), `createMenu`, `fixToggleTool`, the panel config, `container.collapsed = true` and `me.add(container)`. They are presentation with no state of the condition list.
- `validateConditions` is not modelled: it only delegates to the ExtJS form's `isValid()`, which is library code.
- What each handler does inside `load`, `create`, `getLabel` and `isSingleton` is not modelled: the handler classes are not part of this model. Their answers are parameters (`labelOf`, `singletonOf`, `Loader`), and `load` is taken to be a pure function of its arguments.
- The asynchrony of `create` is not modelled. The callback is the separate method `OnProduced`, which a caller invokes at any later point; it reads the list as it is then. The list reference that `create` receives is not modelled.
- The growl notification and `fireEvent` are not performed. They are recorded in the `events` log.
- The key order of JavaScript `for…in` is not modelled: the enumeration order is the given `keys` sequence.
- The serialisation round trip after loading is not modelled as one operation: the form fields belong to the handlers' items and `getValues()` is ExtJS. `FormValues.SerialiseNamespaced` states the round trip for a form whose fields are the stored keys under `condition.`.
- The prototype-level `conditions: []` (line 36) is shared between panel instances in ExtJS. It is not modelled, because `initComponent` replaces it with a fresh array before any use.
- ConditionPanel.ConditionSession.GetConditions: the form values and the result are JavaScript objects used as dictionaries; the model treats them as maps. The special key `__proto__` is not modelled: assigning `conditions['__proto__']` runs the prototype setter, so it creates no entry of its own.
- Item names are modelled as strings; JavaScript's loose typing of `getName()` results is not modelled.
