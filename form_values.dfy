/** Serialising the panel's form: the fields that belong to conditions are
    named `condition.<key>`, and `getConditions` turns the form's
    name-to-value map into the key-to-value map that is stored. */
module FormValues {

  /** The namespace of every condition field. */
  const Prefix: string := "condition."

  /** `key.indexOf('condition.') == 0`: the name starts with the namespace. */
  predicate HasPrefix(key: string)
  {
    |Prefix| <= |key| && key[..|Prefix|] == Prefix
  }

  /** `String.prototype.replace` with a string pattern: the first occurrence
      of `pattern` in `s` is replaced by `replacement`; without one, `s` is returned. */
  function ReplaceFirst(s: string, pattern: string, replacement: string): string
    decreases |s|
  {
    if |s| < |pattern| then s
    else if s[..|pattern|] == pattern then replacement + s[|pattern|..]
    else [s[0]] + ReplaceFirst(s[1..], pattern, replacement)
  }

  /** For a namespaced field name, the first occurrence of the namespace is
      the leading one, so `replace` strips exactly the prefix, and the
      stripped name namespaced again is the field name. */
  lemma StripIsReplace(key: string)
    requires HasPrefix(key)
    ensures ReplaceFirst(key, Prefix, "") == key[|Prefix|..]
    ensures Prefix + key[|Prefix|..] == key
  {
  }

  /** The condition keys a form carries: its namespaced field names with the
      namespace stripped. */
  ghost function ConditionKeys<V>(values: map<string, V>): set<string>
  {
    set key | key in values && HasPrefix(key) :: key[|Prefix|..]
  }

  /** A key is a condition key of the form exactly when its namespaced name
      is one of the form's fields. */
  lemma ConditionKeysAreNamespaced<V>(values: map<string, V>)
    ensures forall k :: k in ConditionKeys(values) <==> Prefix + k in values
  {
    forall k | Prefix + k in values ensures k in ConditionKeys(values) {
      var key := Prefix + k;
      assert key[..|Prefix|] == Prefix && key[|Prefix|..] == k;
    }
    forall k | k in ConditionKeys(values) ensures Prefix + k in values {
      var key :| key in values && HasPrefix(key) && key[|Prefix|..] == k;
      StripIsReplace(key);
    }
  }

  /** Reference definition of `getConditions`: one entry per namespaced
      field, keyed by the stripped name and holding the field's value
      unchanged; fields outside the namespace contribute nothing. */
  ghost function Stripped<V>(values: map<string, V>): (r: map<string, V>)
    ensures forall k :: k in r <==> Prefix + k in values
    ensures forall k :: k in r ==> r[k] == values[Prefix + k]
  {
    ConditionKeysAreNamespaced(values);
    map k | k in ConditionKeys(values) :: values[Prefix + k]
  }

  /** Distinct keys have distinct namespaced names. */
  lemma NamespaceIsInjective()
    ensures forall k, k' :: Prefix + k == Prefix + k' ==> k == k'
  {
    forall k, k' | Prefix + k == Prefix + k' ensures k == k' {
      assert k == (Prefix + k)[|Prefix|..];
      assert k' == (Prefix + k')[|Prefix|..];
    }
  }

  /** The stored mapping laid out as form fields, one `condition.<key>` field
      per stored key. */
  function Namespaced<V>(stored: map<string, V>): map<string, V>
  {
    NamespaceIsInjective();
    map k | k in stored :: Prefix + k := stored[k]
  }

  /** Round trip: a form whose condition fields are the namespaced stored
      mapping serialises back to exactly that mapping. */
  lemma SerialiseNamespaced<V>(stored: map<string, V>)
    ensures Stripped(Namespaced(stored)) == stored
  {
  }

  /** Fields outside the namespace can be added or dropped without changing
      what is serialised. */
  lemma SerialiseIgnoresOtherFields<V>(values: map<string, V>, others: map<string, V>)
    requires forall key :: key in others ==> !HasPrefix(key)
    ensures Stripped(values + others) == Stripped(values)
  {
  }
}
