/** get_user_name_by_key: find the user that holds an access key by scanning
    every user of the account and every key of each user, in enumeration
    order, and stopping at the first match. */
module OwnerResolver {
  import opened Iam

  /** User i is the first user, in enumeration order, that holds keyId. */
  predicate IsFirstHolder(s: Store, keyId: string, i: int) {
    && 0 <= i < |s|
    && HoldsKey(s[i], keyId)
    && forall j | 0 <= j < i :: !HoldsKey(s[j], keyId)
  }

  /** The innermost loop: does one user's key list carry keyId? */
  function ScanKeys(keys: seq<AccessKey>, keyId: string): (found: bool)
    ensures found <==> exists k | 0 <= k < |keys| :: keys[k].id == keyId
  {
    if |keys| == 0 then false
    else keys[0].id == keyId || ScanKeys(keys[1..], keyId)
  }

  /** The resolver over the flattened user listing: the name of the first
      user holding keyId, or None once every user has been checked. */
  function FindOwner(s: Store, keyId: string): (r: Option<string>)
    ensures r.None? <==> !StoreHolds(s, keyId)
    ensures r.Some? ==> exists i :: IsFirstHolder(s, keyId, i) && r.value == s[i].name
  {
    if |s| == 0 then None
    else if ScanKeys(s[0].keys, keyId) then
      assert IsFirstHolder(s, keyId, 0);
      Some(s[0].name)
    else
      var r := FindOwner(s[1..], keyId);
      assert forall j | 1 <= j < |s| :: s[j] == s[1..][j - 1];
      assert r.Some? ==> exists i :: IsFirstHolder(s, keyId, i) && r.value == s[i].name by {
        if r.Some? {
          var i :| IsFirstHolder(s[1..], keyId, i) && r.value == s[1..][i].name;
          assert IsFirstHolder(s, keyId, i + 1);
        }
      }
      r
  }

  /** When several users hold the id, the first one in enumeration order wins. */
  lemma FindOwnerFirstMatch(s: Store, keyId: string, i: int)
    requires IsFirstHolder(s, keyId, i)
    ensures FindOwner(s, keyId) == Some(s[i].name)
  {
    var r := FindOwner(s, keyId);
    var i' :| IsFirstHolder(s, keyId, i') && r.value == s[i'].name;
    assert i' == i;
  }

  /** Searching a concatenated listing is searching the first part, then the
      second part when the first holds no match. */
  lemma {:induction false} FindOwnerConcat(a: Store, b: Store, keyId: string)
    ensures FindOwner(a + b, keyId) ==
      (if StoreHolds(a, keyId) then FindOwner(a, keyId) else FindOwner(b, keyId))
  {
    if |a| == 0 {
      assert a + b == b;
    } else {
      assert (a + b)[0] == a[0];
      assert (a + b)[1..] == a[1..] + b;
      FindOwnerConcat(a[1..], b, keyId);
      if !HoldsKey(a[0], keyId) {
        assert forall j | 1 <= j < |a| :: a[j] == a[1..][j - 1];
        assert StoreHolds(a, keyId) <==> StoreHolds(a[1..], keyId);
      }
    }
  }

  /** The resolver reads only names and key ids, so it gives the same answer
      on any store that differs only in key statuses. */
  lemma FindOwnerSameShape(s: Store, t: Store, keyId: string)
    requires SameShape(s, t)
    ensures FindOwner(s, keyId) == FindOwner(t, keyId)
  {
    forall i | 0 <= i < |s|
      ensures HoldsKey(s[i], keyId) <==> HoldsKey(t[i], keyId)
    {
      if HoldsKey(s[i], keyId) {
        var k :| 0 <= k < |s[i].keys| && s[i].keys[k].id == keyId;
        assert t[i].keys[k].id == keyId;
      }
      if HoldsKey(t[i], keyId) {
        var k :| 0 <= k < |t[i].keys| && t[i].keys[k].id == keyId;
        assert s[i].keys[k].id == keyId;
      }
    }
    if StoreHolds(s, keyId) {
      var r := FindOwner(s, keyId);
      assert r.Some?;
      var i :| IsFirstHolder(s, keyId, i) && r.value == s[i].name;
      assert IsFirstHolder(t, keyId, i);
      FindOwnerFirstMatch(t, keyId, i);
    } else {
      assert !StoreHolds(t, keyId);
    }
  }

  /** No two users with different names hold keyId (the store's own
      uniqueness of access key ids implies this). */
  predicate OwnerNameUnique(s: Store, keyId: string) {
    forall i, j | 0 <= i < |s| && 0 <= j < |s| && HoldsKey(s[i], keyId) && HoldsKey(s[j], keyId) ::
      s[i].name == s[j].name
  }

  /** Totality: whether a key is found does not depend on the order in which
      the store enumerates its users. */
  lemma FindOwnerFoundAnyOrder(s: Store, t: Store, keyId: string)
    requires multiset(s) == multiset(t)
    ensures FindOwner(s, keyId).Some? <==> FindOwner(t, keyId).Some?
  {
    if StoreHolds(s, keyId) {
      var i :| 0 <= i < |s| && HoldsKey(s[i], keyId);
      assert s[i] in multiset(t);
      var j :| 0 <= j < |t| && t[j] == s[i];
    }
    if StoreHolds(t, keyId) {
      var j :| 0 <= j < |t| && HoldsKey(t[j], keyId);
      assert t[j] in multiset(s);
      var i :| 0 <= i < |s| && s[i] == t[j];
    }
  }

  /** When the owner is unique, the answer itself is independent of the
      enumeration order. */
  lemma FindOwnerOrderIndependent(s: Store, t: Store, keyId: string)
    requires multiset(s) == multiset(t)
    requires OwnerNameUnique(s, keyId)
    ensures FindOwner(s, keyId) == FindOwner(t, keyId)
  {
    FindOwnerFoundAnyOrder(s, t, keyId);
    if StoreHolds(s, keyId) {
      var i :| IsFirstHolder(s, keyId, i) && FindOwner(s, keyId).value == s[i].name;
      var j :| IsFirstHolder(t, keyId, j) && FindOwner(t, keyId).value == t[j].name;
      assert t[j] in multiset(s);
      var i' :| 0 <= i' < |s| && s[i'] == t[j];
      assert HoldsKey(s[i'], keyId);
    }
  }

  /** The source's loop structure: pages of list_users, the users of each
      page, the keys of each user; return on the first key whose id matches. */
  method GetUserNameByKey(pages: seq<seq<User>>, keyId: string) returns (r: Option<string>)
    ensures r.None? <==> !StoreHolds(Flatten(pages), keyId)
    ensures r == FindOwner(Flatten(pages), keyId)
  {
    var p := 0;
    while p < |pages|
      invariant 0 <= p <= |pages|
      invariant !StoreHolds(Flatten(pages[..p]), keyId)
    {
      var page := pages[p];
      var u := 0;
      while u < |page|
        invariant 0 <= u <= |page|
        invariant !StoreHolds(page[..u], keyId)
      {
        var user := page[u];
        var keys := user.keys;
        var k := 0;
        while k < |keys|
          invariant 0 <= k <= |keys|
          invariant forall j | 0 <= j < k :: keys[j].id != keyId
        {
          if keys[k].id == keyId {
            FoundAt(pages, p, u, keyId);
            return Some(user.name);
          }
          k := k + 1;
        }
        assert page[..u + 1] == page[..u] + [user];
        NoHolderExtend(page[..u], user, keyId);
        u := u + 1;
      }
      assert page[..u] == page;
      NoHolderNextPage(pages, p, keyId);
      p := p + 1;
    }
    assert pages[..p] == pages;
    assert FindOwner(Flatten(pages), keyId).None?;
    return None;
  }

  lemma NoHolderExtend(a: Store, u: User, keyId: string)
    requires !StoreHolds(a, keyId)
    requires !HoldsKey(u, keyId)
    ensures !StoreHolds(a + [u], keyId)
  {
    assert forall j | 0 <= j < |a| :: (a + [u])[j] == a[j];
  }

  lemma NoHolderNextPage(pages: seq<seq<User>>, p: int, keyId: string)
    requires 0 <= p < |pages|
    requires !StoreHolds(Flatten(pages[..p]), keyId)
    requires !StoreHolds(pages[p], keyId)
    ensures !StoreHolds(Flatten(pages[..p + 1]), keyId)
  {
    assert pages[..p + 1] == pages[..p] + [pages[p]];
    FlattenConcat(pages[..p], [pages[p]]);
    assert Flatten([pages[p]]) == pages[p] + Flatten([]);
    assert pages[p] + [] == pages[p];
    var all := Flatten(pages[..p]) + pages[p];
    forall j | 0 <= j < |all|
      ensures !HoldsKey(all[j], keyId)
    {
      if j >= |Flatten(pages[..p])| {
        assert all[j] == pages[p][j - |Flatten(pages[..p])|];
      }
    }
  }

  lemma FoundAt(pages: seq<seq<User>>, p: int, u: int, keyId: string)
    requires 0 <= p < |pages| && 0 <= u < |pages[p]|
    requires !StoreHolds(Flatten(pages[..p]), keyId)
    requires !StoreHolds(pages[p][..u], keyId)
    requires HoldsKey(pages[p][u], keyId)
    ensures FindOwner(Flatten(pages), keyId) == Some(pages[p][u].name)
  {
    assert pages == pages[..p] + pages[p..];
    FlattenConcat(pages[..p], pages[p..]);
    assert pages[p..][1..] == pages[p + 1..];
    assert Flatten(pages[p..]) == pages[p] + Flatten(pages[p + 1..]);
    var page := pages[p];
    var rest := Flatten(pages[p + 1..]);
    assert page == page[..u] + page[u..];
    assert page + rest == page[..u] + (page[u..] + rest);
    FindOwnerConcat(Flatten(pages[..p]), page + rest, keyId);
    FindOwnerConcat(page[..u], page[u..] + rest, keyId);
    assert (page[u..] + rest)[0] == page[u];
    assert IsFirstHolder(page[u..] + rest, keyId, 0);
    FindOwnerFirstMatch(page[u..] + rest, keyId, 0);
  }
}
