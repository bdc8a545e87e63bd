/**
 * MockConfig: the configuration repository the DateRange tests run against.
 * It is a flat store from key strings to values; `get` strips every
 * occurrence of the package namespace `date-range::` from the key, then
 * returns the stored value when the key is set to something other than null,
 * and the caller's default otherwise.
 */
module MockConfig {
  import opened Php

  /** The package namespace callers put in front of every key. */
  const Namespace := "date-range::"

  /** isset($keys[$key]) ? $keys[$key] : $default, on a key already stripped. */
  function Lookup(keys: map<string, Value>, key: string, default: Value): (r: Value)
    ensures key in keys && keys[key] != Null ==> r == keys[key]
    ensures key !in keys || keys[key] == Null ==> r == default
  {
    if key in keys && keys[key] != Null then keys[key] else default
  }

  /** get($key, $default) over the stored keys. */
  function Fetch(keys: map<string, Value>, key: string, default: Value): (r: Value)
    ensures r == default || (r in keys.Values && r != Null)
    ensures !Contains(key, Namespace) ==> r == Lookup(keys, key, default)
  {
    if !Contains(key, Namespace) then
      RemoveAllAbsent(key, Namespace);
      Lookup(keys, RemoveAll(key, Namespace), default)
    else
      Lookup(keys, RemoveAll(key, Namespace), default)
  }

  class MockConfig {
    /** The key set; before setup() it is unset, which reads like an empty one. */
    var keys: map<string, Value>

    constructor ()
      ensures keys == map[]
    {
      keys := map[];
    }

    /** setup($values): the new key set replaces the old one entirely. */
    method Setup(values: map<string, Value>)
      modifies this
      ensures keys == values
    {
      keys := values;
    }

    /** get($key, $default): a non-null value stored under the stripped key, or the default. */
    function Get(key: string, default: Value): (r: Value)
      reads this
      ensures r == Lookup(keys, RemoveAll(key, Namespace), default)
      ensures r == default || (r in keys.Values && r != Null)
    {
      Fetch(keys, key, default)
    }
  }

  // ---------------------------------------------------------------------------
  // Properties

  /** A key without a colon cannot hold the namespace. */
  lemma {:induction false} NoColonNoNamespace(s: string)
    requires ':' !in s
    ensures !Contains(s, Namespace)
    decreases |s|
  {
    if |Namespace| <= |s| {
      assert s[..|Namespace|][10] != Namespace[10];
    }
    if |s| > 0 {
      NoColonNoNamespace(s[1..]);
    }
  }

  /**
   * A colon-free key reads the same with or without the namespace in front:
   * the stripped key is looked up verbatim.
   */
  lemma NamespacedKey(keys: map<string, Value>, key: string, default: Value)
    requires ':' !in key
    ensures Fetch(keys, Namespace + key, default) == Lookup(keys, key, default)
    ensures Fetch(keys, key, default) == Lookup(keys, key, default)
  {
    NoColonNoNamespace(key);
    RemoveAllLeading(Namespace, key);
    RemoveAllAbsent(key, Namespace);
  }

  /** Every occurrence of the namespace is removed, not only a leading one. */
  lemma EveryNamespaceRemoved(keys: map<string, Value>, key: string, default: Value)
    requires ':' !in key
    ensures Fetch(keys, Namespace + Namespace + key, default) == Lookup(keys, key, default)
  {
    var once := Namespace + key;
    assert Namespace + Namespace + key == Namespace + once;
    RemoveAllLeading(Namespace, once);
    NamespacedKey(keys, key, default);
  }

  /**
   * Lookup is a flat string match: a delimiter set stored under a key such
   * as `range.default` does not make `range.default.only` resolvable.
   */
  lemma LookupIsFlat(keys: map<string, Value>, key: string, member: string, parts: map<string, string>,
                     default: Value)
    requires ':' !in key && ':' !in member
    requires keys == map[key := Delims(parts)]
    ensures Fetch(keys, Namespace + key + "." + member, default) == default
  {
    var dotted := key + "." + member;
    assert dotted != key by {
      assert |dotted| > |key|;
    }
    assert ':' !in dotted by {
      assert forall i :: 0 <= i < |dotted| ==> dotted[i] == (if i < |key| then key[i] else ("." + member)[i - |key|]);
    }
    assert Namespace + key + "." + member == Namespace + dotted;
    NamespacedKey(keys, dotted, default);
  }

  /** A key stored as null reads as missing: the default comes back. */
  lemma NullIsUnset(keys: map<string, Value>, key: string, default: Value)
    requires ':' !in key && key in keys && keys[key] == Null
    ensures Fetch(keys, Namespace + key, default) == default
  {
    NamespacedKey(keys, key, default);
  }

  /** After setup, keys of the earlier set that the new one lacks are gone. */
  lemma SetupForgetsEarlierKeys(values: map<string, Value>, key: string, default: Value)
    requires ':' !in key && key !in values
    ensures Fetch(values, Namespace + key, default) == default
  {
    NamespacedKey(values, key, default);
  }
}
