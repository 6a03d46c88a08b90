/**
 The Web Storage operations the login form uses (`getItem`, `setItem`,
 `removeItem`) on a storage area held as a map from key to value, and the
 keys it writes.
 */
module Storage {
  import opened Wrappers

  type Area = map<string, string>

  const RememberedEmailKey: string := "rememberedEmail"
  const RememberMeKey: string := "rememberMe"
  const IsLoggedInKey: string := "isLoggedIn"
  const UserEmailKey: string := "userEmail"

  /** The two keys "remember me" keeps in localStorage. */
  const RememberKeys: set<string> := {RememberedEmailKey, RememberMeKey}
  /** The two keys a login writes to sessionStorage. */
  const SessionKeys: set<string> := {IsLoggedInKey, UserEmailKey}

  /** getItem: the stored value, or nothing (`null`). */
  function GetItem(area: Area, key: string): Option<string> {
    if key in area then Some(area[key]) else None
  }

  /** setItem: afterwards `key` reads back as `value`; no other key changes. */
  function SetItem(area: Area, key: string, value: string): (r: Area)
    ensures GetItem(r, key) == Some(value)
    ensures forall k :: k != key ==> GetItem(r, k) == GetItem(area, k)
  {
    area[key := value]
  }

  /** removeItem: afterwards `key` reads back as nothing; no other key changes. */
  function RemoveItem(area: Area, key: string): (r: Area)
    ensures GetItem(r, key) == None
    ensures forall k :: k != key ==> GetItem(r, k) == GetItem(area, k)
  {
    area - {key}
  }

  /** Two areas that read the same under every key are the same area. */
  lemma SameReadsSameArea(a: Area, b: Area)
    requires forall k :: GetItem(a, k) == GetItem(b, k)
    ensures a == b
  {
    assert a.Keys == b.Keys by {
      forall k ensures k in a <==> k in b {
        assert GetItem(a, k) == GetItem(b, k);
      }
    }
    forall k | k in a ensures a[k] == b[k] {
      assert GetItem(a, k) == GetItem(b, k);
    }
  }
}
