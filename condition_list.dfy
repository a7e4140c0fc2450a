/** The panel's active-condition list `conditions` as a value.

    The list is a JavaScript array that is only ever extended by `push` and
    thinned by `delete`, which leaves a hole instead of shifting later
    elements.  A slot is `Some(name)` or, once deleted, `None`.  The functions
    here are the specifications of the panel's operations on that array; the
    methods of `ConditionPanel.ConditionSession` are proved against them. */
module ConditionList {
  import opened Wrappers
  import opened Handlers

  type Slots = seq<Option<string>>

  /** How often `name` occupies a slot of `s`. */
  function Occurrences(s: Slots, name: string): nat
  {
    multiset(s)[Some(name)]
  }

  /** `Array.prototype.indexOf` with strict equality: the first slot holding
      `name`, or -1.  Holes are skipped, so they never match. */
  function IndexOf(s: Slots, name: string): (r: int)
    ensures -1 <= r < |s|
    ensures r == -1 <==> Some(name) !in s
    ensures 0 <= r ==> s[r] == Some(name) && Some(name) !in s[..r]
  {
    if s == [] then -1
    else if s[0] == Some(name) then 0
    else
      var j := IndexOf(s[1..], name);
      if j == -1 then -1
      else
        assert s[..j + 1] == [s[0]] + s[1..][..j];
        j + 1
  }

  /** `delete a[index]`: an index inside the array turns its slot into a
      hole, any other index (in particular -1) leaves the array untouched. */
  function Delete(s: Slots, index: int): (r: Slots)
    ensures |r| == |s|
    ensures forall i :: 0 <= i < |s| && i != index ==> r[i] == s[i]
    ensures 0 <= index < |s| ==> r[index] == None
  {
    if 0 <= index < |s| then s[index := None] else s
  }

  /** The `close` listener: `delete conditions[conditions.indexOf(name)]`.
      Only the first slot holding `name` becomes a hole; the length and every
      other slot are kept, and an absent name changes nothing. */
  function ClearFirst(s: Slots, name: string): (r: Slots)
    ensures |r| == |s|
    ensures forall i :: 0 <= i < |s| && i != IndexOf(s, name) ==> r[i] == s[i]
    ensures Some(name) !in s ==> r == s
    ensures Some(name) in s ==> r[IndexOf(s, name)] == None
    ensures Some(name) in s ==> Occurrences(r, name) == Occurrences(s, name) - 1
    ensures forall n :: n != name ==> Occurrences(r, n) == Occurrences(s, n)
  {
    var i := IndexOf(s, name);
    if i == -1 then Delete(s, i)
    else
      DeleteReplacesOneSlot(s, i);
      Delete(s, i)
  }

  /** Turning slot `i` into a hole removes one copy of its old content from
      the multiset of slots and adds one hole. */
  lemma DeleteReplacesOneSlot(s: Slots, i: nat)
    requires i < |s|
    ensures multiset(Delete(s, i)) == multiset(s) - multiset{s[i]} + multiset{None}
  {
  }

  /** The `addCondition` callback's effect on the list: a singleton handler's
      name that is already present is refused, anything else is pushed.
      A singleton name present at most once beforehand is present exactly
      once afterwards; other names are never affected. */
  function AfterProduced(s: Slots, singleton: bool, name: string): (r: Slots)
    ensures singleton && Some(name) in s ==> r == s
    ensures !(singleton && Some(name) in s) ==> r == s + [Some(name)]
    ensures singleton && Occurrences(s, name) <= 1 ==> Occurrences(r, name) == 1
    ensures !singleton ==> Occurrences(r, name) == Occurrences(s, name) + 1
    ensures forall n :: n != name ==> Occurrences(r, n) == Occurrences(s, n)
  {
    if singleton && IndexOf(s, name) > -1 then s else s + [Some(name)]
  }

  /** A handler's `load`: given the handler, the stored key, its stored value
      and the whole stored mapping, the name of the item it produces, if any. */
  type Loader<!V> = (Handler, string, V, map<string, V>) -> Option<string>

  /** The slots that one stored key adds while every handler of `hs`, in
      registration order, is given the chance to load it. */
  function LoadedForKey<V>(key: string, hs: seq<Handler>, m: map<string, V>, load: Loader<V>): Slots
    requires key in m
  {
    if hs == [] then []
    else
      var last := hs[|hs| - 1];
      LoadedForKey(key, hs[..|hs| - 1], m, load)
        + match load(last, key, m[key], m) case Some(n) => [Some(n)] case None => []
  }

  /** The slots that `loadConditions` appends: key by key in enumeration
      order, and within a key handler by handler, with no singleton check. */
  function Loaded<V>(keys: seq<string>, hs: seq<Handler>, m: map<string, V>, load: Loader<V>): Slots
    requires forall k :: k in keys ==> k in m
  {
    if keys == [] then []
    else Loaded(keys[..|keys| - 1], hs, m, load) + LoadedForKey(keys[|keys| - 1], hs, m, load)
  }

  /** Some handler of `hs` produces an item named `n` for the stored `key`. */
  ghost predicate KeyProduces<V>(key: string, hs: seq<Handler>, m: map<string, V>, load: Loader<V>, n: string)
  {
    key in m && exists j :: 0 <= j < |hs| && load(hs[j], key, m[key], m) == Some(n)
  }

  /** Some stored key of `keys` has a handler of `hs` that produces `n`. */
  ghost predicate SomeKeyProduces<V>(keys: seq<string>, hs: seq<Handler>, m: map<string, V>, load: Loader<V>, n: string)
  {
    exists i :: 0 <= i < |keys| && KeyProduces(keys[i], hs, m, load, n)
  }

  /** One key contributes exactly the names its handlers produce, and never a
      hole. */
  lemma {:induction false} LoadedForKeyContents<V>(key: string, hs: seq<Handler>, m: map<string, V>, load: Loader<V>)
    requires key in m
    ensures None !in LoadedForKey(key, hs, m, load)
    ensures forall n :: Some(n) in LoadedForKey(key, hs, m, load) <==> KeyProduces(key, hs, m, load, n)
  {
    if hs != [] {
      var init := hs[..|hs| - 1];
      LoadedForKeyContents(key, init, m, load);
      forall n ensures Some(n) in LoadedForKey(key, hs, m, load) <==> KeyProduces(key, hs, m, load, n)
      {
        if KeyProduces(key, init, m, load, n) {
          var j :| 0 <= j < |init| && load(init[j], key, m[key], m) == Some(n);
          assert hs[j] == init[j];
        }
        if KeyProduces(key, hs, m, load, n) {
          var j :| 0 <= j < |hs| && load(hs[j], key, m[key], m) == Some(n);
          if j < |init| {
            assert init[j] == hs[j];
          }
        }
      }
    }
  }

  /** A stored key that no handler recognises adds nothing (it is silently
      ignored). */
  lemma {:induction false} UnrecognisedKeyAddsNothing<V>(key: string, hs: seq<Handler>, m: map<string, V>, load: Loader<V>)
    requires key in m
    requires forall j :: 0 <= j < |hs| ==> load(hs[j], key, m[key], m).None?
    ensures LoadedForKey(key, hs, m, load) == []
  {
    if hs != [] {
      UnrecognisedKeyAddsNothing(key, hs[..|hs| - 1], m, load);
    }
  }

  /** A stored key that exactly one handler recognises adds exactly that
      handler's item. */
  lemma {:induction false} SingleClaimantAddsOne<V>(key: string, hs: seq<Handler>, m: map<string, V>, load: Loader<V>, j: nat, name: string)
    requires key in m
    requires j < |hs| && load(hs[j], key, m[key], m) == Some(name)
    requires forall i :: 0 <= i < |hs| && i != j ==> load(hs[i], key, m[key], m).None?
    ensures LoadedForKey(key, hs, m, load) == [Some(name)]
  {
    var init := hs[..|hs| - 1];
    if j == |hs| - 1 {
      UnrecognisedKeyAddsNothing(key, init, m, load);
    } else {
      SingleClaimantAddsOne(key, init, m, load, j, name);
    }
  }

  /** Loading fills slots only with names that some handler produced for
      some stored key, every such name appears, and no hole is introduced. */
  lemma {:induction false} LoadedContents<V>(keys: seq<string>, hs: seq<Handler>, m: map<string, V>, load: Loader<V>)
    requires forall k :: k in keys ==> k in m
    ensures None !in Loaded(keys, hs, m, load)
    ensures forall n :: Some(n) in Loaded(keys, hs, m, load) <==> SomeKeyProduces(keys, hs, m, load, n)
  {
    if keys != [] {
      var init, key := keys[..|keys| - 1], keys[|keys| - 1];
      assert keys == init + [key];
      LoadedContents(init, hs, m, load);
      LoadedForKeyContents(key, hs, m, load);
      var before, added := Loaded(init, hs, m, load), LoadedForKey(key, hs, m, load);
      assert Loaded(keys, hs, m, load) == before + added;
      forall n ensures Some(n) in before + added <==> SomeKeyProduces(keys, hs, m, load, n)
      {
        SomeKeyProducesSnoc(init, key, hs, m, load, n);
      }
    }
  }

  /** Producing under `init + [key]` is producing under `init` or under `key`. */
  lemma SomeKeyProducesSnoc<V>(init: seq<string>, key: string, hs: seq<Handler>, m: map<string, V>, load: Loader<V>, n: string)
    ensures SomeKeyProduces(init + [key], hs, m, load, n) <==>
      SomeKeyProduces(init, hs, m, load, n) || KeyProduces(key, hs, m, load, n)
  {
    var keys := init + [key];
    if SomeKeyProduces(init, hs, m, load, n) {
      var i :| 0 <= i < |init| && KeyProduces(init[i], hs, m, load, n);
      assert keys[i] == init[i];
    }
    if KeyProduces(key, hs, m, load, n) {
      assert keys[|init|] == key;
    }
    if SomeKeyProduces(keys, hs, m, load, n) {
      var i :| 0 <= i < |keys| && KeyProduces(keys[i], hs, m, load, n);
      if i < |init| {
        assert init[i] == keys[i];
      }
    }
  }

  /** The positions of the handlers of `hs` whose `load` produces `n` for
      the stored `key`. */
  ghost function Claimants<V>(key: string, hs: seq<Handler>, m: map<string, V>, load: Loader<V>, n: string): set<nat>
    requires key in m
  {
    set j: nat | j < |hs| && load(hs[j], key, m[key], m) == Some(n)
  }

  /** How many (stored key, handler) pairs of `keys` and `hs` produce `n`. */
  ghost function ClaimingPairs<V>(keys: seq<string>, hs: seq<Handler>, m: map<string, V>, load: Loader<V>, n: string): nat
    requires forall k :: k in keys ==> k in m
  {
    if keys == [] then 0
    else ClaimingPairs(keys[..|keys| - 1], hs, m, load, n) + |Claimants(keys[|keys| - 1], hs, m, load, n)|
  }

  /** One stored key adds one copy of `n` for every handler that produces
      `n` for it: nothing is merged. */
  lemma {:induction false} LoadedForKeyCount<V>(key: string, hs: seq<Handler>, m: map<string, V>, load: Loader<V>, n: string)
    requires key in m
    ensures Occurrences(LoadedForKey(key, hs, m, load), n) == |Claimants(key, hs, m, load, n)|
  {
    if hs == [] {
      assert Claimants(key, hs, m, load, n) == {};
    } else {
      var init, last := hs[..|hs| - 1], |hs| - 1;
      LoadedForKeyCount(key, init, m, load, n);
      var produced := load(hs[last], key, m[key], m);
      var tail: Slots := match produced case Some(x) => [Some(x)] case None => [];
      assert LoadedForKey(key, hs, m, load) == LoadedForKey(key, init, m, load) + tail;
      assert multiset(LoadedForKey(key, hs, m, load)) == multiset(LoadedForKey(key, init, m, load)) + multiset(tail);
      var before := Claimants(key, init, m, load, n);
      var here: set<nat> := if produced == Some(n) then {last} else {};
      assert Occurrences(tail, n) == |here|;
      ClaimantsSnoc(key, hs, m, load, n);
      assert last !in before;
      assert |before + here| == |before| + |here|;
    }
  }

  /** The claimants among `hs` are those among all but its last handler,
      plus the last one if it produces `n`. */
  lemma ClaimantsSnoc<V>(key: string, hs: seq<Handler>, m: map<string, V>, load: Loader<V>, n: string)
    requires key in m && hs != []
    ensures Claimants(key, hs, m, load, n) ==
      Claimants(key, hs[..|hs| - 1], m, load, n)
        + if load(hs[|hs| - 1], key, m[key], m) == Some(n) then {|hs| - 1} else {}
  {
  }

  /** Loading appends one copy of `n` for every (stored key, handler) pair
      that produces it, without a singleton check or any deduplication. */
  lemma {:induction false} LoadedCount<V>(keys: seq<string>, hs: seq<Handler>, m: map<string, V>, load: Loader<V>, n: string)
    requires forall k :: k in keys ==> k in m
    ensures Occurrences(Loaded(keys, hs, m, load), n) == ClaimingPairs(keys, hs, m, load, n)
  {
    if keys != [] {
      LoadedCount(keys[..|keys| - 1], hs, m, load, n);
      LoadedForKeyCount(keys[|keys| - 1], hs, m, load, n);
    }
  }

  /** A hole never satisfies the singleton lookup: once the only occurrence
      of a singleton name has been closed, the callback admits it again. */
  lemma ReAddAfterClose(s: Slots, name: string)
    requires Occurrences(s, name) == 1
    ensures AfterProduced(ClearFirst(s, name), true, name) == ClearFirst(s, name) + [Some(name)]
  {
  }

  /** A user action that changes the list after loading: a `create`
      callback delivering an item, or the close of a named container. */
  datatype Action = Produce(singleton: bool, name: string) | Close(name: string)

  /** The list after one action. */
  function Step(s: Slots, a: Action): Slots
  {
    match a
    case Produce(singleton, name) => AfterProduced(s, singleton, name)
    case Close(name) => ClearFirst(s, name)
  }

  /** The list after a run of actions, in order. */
  function Run(s: Slots, actions: seq<Action>): Slots
    decreases |actions|
  {
    if actions == [] then s else Run(Step(s, actions[0]), actions[1..])
  }

  /** The singleton invariant over a whole editing session: when every item
      named `name` comes from a singleton handler and `name` occurs at most
      once to begin with, no run of adds and closes makes it occur twice. */
  lemma {:induction false} SingletonStaysUnique(s: Slots, actions: seq<Action>, name: string)
    requires Occurrences(s, name) <= 1
    requires forall i :: 0 <= i < |actions| && actions[i].Produce? && actions[i].name == name ==> actions[i].singleton
    ensures Occurrences(Run(s, actions), name) <= 1
    decreases |actions|
  {
    if actions != [] {
      var next := Step(s, actions[0]);
      assert Occurrences(next, name) <= 1 by {
        match actions[0]
        case Produce(singleton, n) =>
        case Close(n) =>
      }
      assert forall i :: 0 <= i < |actions[1..]| ==> actions[1..][i] == actions[i + 1];
      SingletonStaysUnique(next, actions[1..], name);
    }
  }
}
