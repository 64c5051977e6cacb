/**
 * The browser's `localStorage`, modelled as an immutable map from keys to
 * string values, together with the JavaScript truthiness rule that the
 * pages apply to the values they read from it.
 */
module Storage {
  import opened Options

  type Store = map<string, string>

  /** The key holding the serialized signed-in user. */
  const UserKey: string := "user"

  /** The key holding the preferred language code. */
  const LanguageKey: string := "language"

  /** `localStorage.getItem(key)`: the stored value, or `null` (None) when the key is absent. */
  function GetItem(st: Store, key: string): (v: Option<string>)
    ensures v.Some? <==> key in st
    ensures v.Some? ==> v.value == st[key]
  {
    if key in st then Some(st[key]) else None
  }

  /** The two stores hold the same value, or both nothing, under every key other than `key`. */
  ghost predicate AgreeExcept(st: Store, st': Store, key: string) {
    forall k :: k != key ==> GetItem(st, k) == GetItem(st', k)
  }

  /** `localStorage.setItem(key, value)`. */
  function SetItem(st: Store, key: string, value: string): (st': Store)
    ensures GetItem(st', key) == Some(value)
    ensures AgreeExcept(st, st', key)
  {
    st[key := value]
  }

  /** `localStorage.removeItem(key)`; removing an absent key leaves the store as it was. */
  function RemoveItem(st: Store, key: string): (st': Store)
    ensures GetItem(st', key) == None
    ensures AgreeExcept(st, st', key)
    ensures key !in st ==> st' == st
  {
    st - {key}
  }

  /** Two stores that agree away from `key` and also at `key` are the same store. */
  lemma SameStore(st: Store, st': Store, key: string)
    requires AgreeExcept(st, st', key)
    requires GetItem(st, key) == GetItem(st', key)
    ensures st == st'
  {
    forall k | k in st
      ensures k in st' && st'[k] == st[k]
    {
      assert GetItem(st, k) == GetItem(st', k);
    }
    forall k | k in st'
      ensures k in st
    {
      assert GetItem(st, k) == GetItem(st', k);
    }
  }

  /** What `setItem` and `removeItem` promise determines their result: no other store meets it. */
  lemma WritesDetermined(st: Store, st': Store, key: string, value: Option<string>)
    requires GetItem(st', key) == value
    requires AgreeExcept(st, st', key)
    ensures value.Some? ==> st' == SetItem(st, key, value.value)
    ensures value.None? ==> st' == RemoveItem(st, key)
  {
    if value.Some? {
      var written := SetItem(st, key, value.value);
      assert forall k :: k != key ==> GetItem(written, k) == GetItem(st, k) == GetItem(st', k);
      SameStore(written, st', key);
    } else {
      var removed := RemoveItem(st, key);
      assert forall k :: k != key ==> GetItem(removed, k) == GetItem(st, k) == GetItem(st', k);
      SameStore(removed, st', key);
    }
  }

  /** JavaScript truthiness of a `getItem` result: `null` and `""` are falsy, every other string is truthy. */
  predicate Truthy(v: Option<string>) {
    v.Some? && v.value != ""
  }

  /** The JavaScript expression `v || fallback` for a `getItem` result `v`. */
  function OrElse(v: Option<string>, fallback: string): (r: string)
    ensures Truthy(v) ==> Some(r) == v
    ensures !Truthy(v) ==> r == fallback
  {
    if v.Some? && v.value != "" then v.value else fallback
  }
}
