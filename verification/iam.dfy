/** In-memory model of the identity store the remediation handler talks to:
    users, the access keys each one holds, and the single write the handler
    issues against it (update_access_key). */
module Iam {

  datatype Option<+T> = None | Some(value: T)

  datatype Status = Active | Inactive

  /** One access-key metadata record, as list_access_keys reports it. */
  datatype AccessKey = AccessKey(id: string, status: Status)

  datatype User = User(name: string, keys: seq<AccessKey>)

  /** Every user of the account, in the order list_users enumerates them. */
  type Store = seq<User>

  predicate HoldsKey(u: User, keyId: string) {
    exists k | 0 <= k < |u.keys| :: u.keys[k].id == keyId
  }

  predicate StoreHolds(s: Store, keyId: string) {
    exists i | 0 <= i < |s| :: HoldsKey(s[i], keyId)
  }

  /** Two stores list the same users with the same key ids in the same order;
      only key statuses may differ. */
  predicate SameShape(s: Store, t: Store) {
    && |s| == |t|
    && (forall i | 0 <= i < |s| :: s[i].name == t[i].name && |s[i].keys| == |t[i].keys|)
    && (forall i, k | 0 <= i < |s| && 0 <= k < |s[i].keys| :: s[i].keys[k].id == t[i].keys[k].id)
  }

  lemma SameShapeTrans(s: Store, t: Store, u: Store)
    requires SameShape(s, t) && SameShape(t, u)
    ensures SameShape(s, u)
  {
  }

  /** Pagination of list_users: the pages, read to the end, one after another. */
  function Flatten(pages: seq<seq<User>>): (s: Store)
    ensures forall p, j | 0 <= p < |pages| && 0 <= j < |pages[p]| :: pages[p][j] in s
    ensures forall u | u in s :: exists p | 0 <= p < |pages| :: u in pages[p]
  {
    if |pages| == 0 then []
    else pages[0] + Flatten(pages[1..])
  }

  lemma {:induction false} FlattenConcat(a: seq<seq<User>>, b: seq<seq<User>>)
    ensures Flatten(a + b) == Flatten(a) + Flatten(b)
  {
    if |a| == 0 {
      assert a + b == b;
    } else {
      assert (a + b)[1..] == a[1..] + b;
      FlattenConcat(a[1..], b);
    }
  }

  /** The status write on one user's key list: every record carrying keyId
      gets status st, every other record is kept as it is. */
  function SetKeyStatus(keys: seq<AccessKey>, keyId: string, st: Status): (r: seq<AccessKey>)
    ensures |r| == |keys|
    ensures forall k | 0 <= k < |keys| :: r[k].id == keys[k].id
    ensures forall k | 0 <= k < |keys| ::
      r[k].status == (if keys[k].id == keyId then st else keys[k].status)
  {
    if |keys| == 0 then []
    else
      var head := if keys[0].id == keyId then AccessKey(keyId, st) else keys[0];
      [head] + SetKeyStatus(keys[1..], keyId, st)
  }

  /** The write applied to every user called userName. */
  function SetUserKeyStatus(s: Store, userName: string, keyId: string, st: Status): (r: Store)
    ensures SameShape(s, r)
    ensures forall i, k | 0 <= i < |s| && 0 <= k < |s[i].keys| ::
      r[i].keys[k].status ==
        (if s[i].name == userName && s[i].keys[k].id == keyId then st else s[i].keys[k].status)
  {
    if |s| == 0 then []
    else
      var head := if s[0].name == userName then User(userName, SetKeyStatus(s[0].keys, keyId, st)) else s[0];
      var tail := SetUserKeyStatus(s[1..], userName, keyId, st);
      assert forall i | 1 <= i < |s| :: s[i] == s[1..][i - 1];
      [head] + tail
  }

  /** update_access_key(UserName, AccessKeyId, Status): rejected (None) unless
      a user of that name holds the key; otherwise exactly that key of that
      user takes the new status and nothing else in the store changes. */
  function UpdateAccessKey(s: Store, userName: string, keyId: string, st: Status): (r: Option<Store>)
    ensures r.Some? <==> exists i | 0 <= i < |s| :: s[i].name == userName && HoldsKey(s[i], keyId)
    ensures r.Some? ==> SameShape(s, r.value)
    ensures r.Some? ==> forall i, k | 0 <= i < |s| && 0 <= k < |s[i].keys| ::
      r.value[i].keys[k].status ==
        (if s[i].name == userName && s[i].keys[k].id == keyId then st else s[i].keys[k].status)
  {
    if exists i | 0 <= i < |s| :: s[i].name == userName && HoldsKey(s[i], keyId)
    then Some(SetUserKeyStatus(s, userName, keyId, st))
    else None
  }

  /** A store is determined by its shape and its key statuses. */
  lemma {:induction false} ShapeAndStatusDetermine(s: Store, t: Store)
    requires SameShape(s, t)
    requires forall i, k | 0 <= i < |s| && 0 <= k < |s[i].keys| :: s[i].keys[k].status == t[i].keys[k].status
    ensures s == t
  {
    forall i | 0 <= i < |s|
      ensures s[i] == t[i]
    {
      assert s[i].keys == t[i].keys by {
        forall k | 0 <= k < |s[i].keys|
          ensures s[i].keys[k] == t[i].keys[k]
        {
          assert s[i].keys[k].id == t[i].keys[k].id;
          assert s[i].keys[k].status == t[i].keys[k].status;
        }
      }
    }
  }

  /** Disabling an already disabled key is accepted and changes nothing. */
  lemma UpdateNoOpWhenAlreadySet(s: Store, userName: string, keyId: string, st: Status)
    requires exists i | 0 <= i < |s| :: s[i].name == userName && HoldsKey(s[i], keyId)
    requires forall i, k | 0 <= i < |s| && 0 <= k < |s[i].keys| && s[i].name == userName && s[i].keys[k].id == keyId ::
      s[i].keys[k].status == st
    ensures UpdateAccessKey(s, userName, keyId, st) == Some(s)
  {
    ShapeAndStatusDetermine(s, UpdateAccessKey(s, userName, keyId, st).value);
  }

  /** Applying the same update twice is the same as applying it once. */
  lemma UpdateIdempotent(s: Store, userName: string, keyId: string, st: Status)
    requires UpdateAccessKey(s, userName, keyId, st).Some?
    ensures UpdateAccessKey(UpdateAccessKey(s, userName, keyId, st).value, userName, keyId, st)
         == UpdateAccessKey(s, userName, keyId, st)
  {
    var s1 := UpdateAccessKey(s, userName, keyId, st).value;
    var i :| 0 <= i < |s| && s[i].name == userName && HoldsKey(s[i], keyId);
    var k :| 0 <= k < |s[i].keys| && s[i].keys[k].id == keyId;
    assert s1[i].name == userName && s1[i].keys[k].id == keyId;
    UpdateNoOpWhenAlreadySet(s1, userName, keyId, st);
  }

  /** Reference definition of the handler's effect on the store: every key
      whose (owner name, key id) pair is listed becomes Inactive; every other
      record stays as it was. */
  function DisableKeys(s: Store, pairs: set<(string, string)>): Store {
    seq(|s|, i requires 0 <= i < |s| => DisableUserKeys(s[i], pairs))
  }

  function DisableUserKeys(u: User, pairs: set<(string, string)>): User {
    User(u.name, seq(|u.keys|, k requires 0 <= k < |u.keys| =>
      if (u.name, u.keys[k].id) in pairs then AccessKey(u.keys[k].id, Inactive) else u.keys[k]))
  }

  /** Only the listed keys change, and they change only to Inactive. */
  lemma DisableKeysFrame(s: Store, pairs: set<(string, string)>)
    ensures SameShape(s, DisableKeys(s, pairs))
    ensures forall i, k | 0 <= i < |s| && 0 <= k < |s[i].keys| ::
      DisableKeys(s, pairs)[i].keys[k].status ==
        (if (s[i].name, s[i].keys[k].id) in pairs then Inactive else s[i].keys[k].status)
  {
  }

  /** Disabling in two rounds is disabling the union in one. */
  lemma DisableKeysCompose(s: Store, p: set<(string, string)>, q: set<(string, string)>)
    ensures DisableKeys(DisableKeys(s, p), q) == DisableKeys(s, p + q)
  {
    var a := DisableKeys(DisableKeys(s, p), q);
    var b := DisableKeys(s, p + q);
    DisableKeysFrame(s, p);
    DisableKeysFrame(DisableKeys(s, p), q);
    DisableKeysFrame(s, p + q);
    ShapeAndStatusDetermine(a, b);
  }

  /** Disabling the same keys again changes nothing. */
  lemma DisableKeysIdempotent(s: Store, pairs: set<(string, string)>)
    ensures DisableKeys(DisableKeys(s, pairs), pairs) == DisableKeys(s, pairs)
  {
    DisableKeysCompose(s, pairs, pairs);
    assert pairs + pairs == pairs;
  }

  /** A successful update_access_key to Inactive is exactly the reference
      effect for its one (user, key) pair. */
  lemma UpdateIsDisableKeys(s: Store, userName: string, keyId: string)
    requires UpdateAccessKey(s, userName, keyId, Inactive).Some?
    ensures UpdateAccessKey(s, userName, keyId, Inactive).value == DisableKeys(s, {(userName, keyId)})
  {
    var t := DisableKeys(s, {(userName, keyId)});
    DisableKeysFrame(s, {(userName, keyId)});
    SameShapeTrans(UpdateAccessKey(s, userName, keyId, Inactive).value, s, t);
    ShapeAndStatusDetermine(UpdateAccessKey(s, userName, keyId, Inactive).value, t);
  }
}
