/** Worked invocations of the handler on small stores and events. */
module Scenarios {
  import opened Iam
  import opened OwnerResolver
  import opened Remediation

  function OneEntity(keyId: string): Event {
    EventMap(Some(DetailMap(Some(EntityList([EntityMap(Some(keyId))])))))
  }

  /** A leaked key of alice: the key is disabled, one notification names key
      and user, and the invocation returns normally. */
  lemma LeakedKeyScenario(topic: string)
    ensures var s := [User("alice", [AccessKey("AKIA_LEAKED_1", Active)])];
      var r := Handler(OneEntity("AKIA_LEAKED_1"), s, map[], topic);
      && !r.raised
      && r.outcomes == [Notified("AKIA_LEAKED_1", "alice",
           Notification(topic, Subject, Message("AKIA_LEAKED_1", "alice")))]
      && r.store == [User("alice", [AccessKey("AKIA_LEAKED_1", Inactive)])]
  {
    var s := [User("alice", [AccessKey("AKIA_LEAKED_1", Active)])];
    var e := OneEntity("AKIA_LEAKED_1");
    assert s[0].keys[0].id == "AKIA_LEAKED_1";
    assert IsFirstHolder(s, "AKIA_LEAKED_1", 0);
    FindOwnerFirstMatch(s, "AKIA_LEAKED_1", 0);
    var r := Handler(e, s, map[], topic);
    RunBatchOutcomes(s, ListedEntities(e), map[], topic);
    assert r.outcomes[0] == ProcessKey(s, Some("AKIA_LEAKED_1"), NoFault, topic).outcome;
    var pairs := BatchPairs(s, ListedEntities(e)[..1], map[]);
    assert ListedEntities(e)[..1] == ListedEntities(e);
    assert pairs == {("alice", "AKIA_LEAKED_1")};
    DisableKeysFrame(s, pairs);
    ShapeAndStatusDetermine(r.store, [User("alice", [AccessKey("AKIA_LEAKED_1", Inactive)])]);
  }

  /** An unknown key: no notification, one not-found error, normal return,
      store unchanged. */
  lemma UnknownKeyScenario(topic: string)
    ensures var s := [User("alice", [AccessKey("AKIA_LEAKED_1", Active)])];
      var r := Handler(OneEntity("AKIA_UNKNOWN"), s, map[], topic);
      && !r.raised
      && r.outcomes == [NotFound(Some("AKIA_UNKNOWN"))]
      && r.store == s
  {
    var s := [User("alice", [AccessKey("AKIA_LEAKED_1", Active)])];
    var e := OneEntity("AKIA_UNKNOWN");
    assert !HoldsKey(s[0], "AKIA_UNKNOWN");
    assert !StoreHolds(s, "AKIA_UNKNOWN");
    var r := Handler(e, s, map[], topic);
    RunBatchOutcomes(s, ListedEntities(e), map[], topic);
    assert ListedEntities(e)[..1] == ListedEntities(e);
    assert BatchPairs(s, ListedEntities(e)[..1], map[]) == {};
    NothingDisabled(s);
  }

  function TwoUsers(): Store {
    [User("alice", [AccessKey("K1", Active)]), User("bob", [AccessKey("K2", Active)])]
  }

  function TwoEntities(): Event {
    EventMap(Some(DetailMap(Some(EntityList([EntityMap(Some("K1")), EntityMap(Some("K2"))])))))
  }

  /** Two keys, the update of the second fails: the first is notified, the
      second only logged, and the invocation still returns normally. */
  lemma SecondUpdateFailsScenario(topic: string)
    ensures var r := Handler(TwoEntities(), TwoUsers(), map[1 := UpdateFault], topic);
      && !r.raised
      && |r.outcomes| == 2
      && r.outcomes[0].Notified?
      && r.outcomes[1] == Failed(Some("K2"), None)
  {
    var s := TwoUsers();
    var faults := map[1 := UpdateFault];
    assert s[0].keys[0].id == "K1";
    assert IsFirstHolder(s, "K1", 0);
    FindOwnerFirstMatch(s, "K1", 0);
    assert FaultAt(faults, 0) == NoFault;
    assert FaultAt(faults, 1) == UpdateFault;
  }

  /** In the same invocation only alice's key is disabled: the failed update
      leaves bob's key Active. */
  lemma SecondUpdateFailsStore(topic: string)
    ensures Handler(TwoEntities(), TwoUsers(), map[1 := UpdateFault], topic).store ==
      [User("alice", [AccessKey("K1", Inactive)]), User("bob", [AccessKey("K2", Active)])]
  {
    var s := TwoUsers();
    var e := TwoEntities();
    var faults := map[1 := UpdateFault];
    var pairs := {("alice", "K1")};
    var done := ListedEntities(e)[..2];
    assert BatchPairs(s, done, faults) == pairs by {
      assert s[0].keys[0].id == "K1";
      assert IsFirstHolder(s, "K1", 0);
      FindOwnerFirstMatch(s, "K1", 0);
      assert done[..1] == [EntityMap(Some("K1"))];
      assert DisabledPair(s, Some("K1"), FaultAt(faults, 0)) == pairs;
      assert BatchPairs(s, done[..1], faults) == pairs;
      assert DisabledPair(s, Some("K2"), FaultAt(faults, 1)) == {};
    }
    assert Handler(e, s, faults, topic).store == DisableKeys(s, pairs) by {
      SecondUpdateFailsScenario(topic);
    }
    assert DisableKeys(s, pairs) == [User("alice", [AccessKey("K1", Inactive)]), User("bob", [AccessKey("K2", Active)])] by {
      var alice := DisableUserKeys(s[0], pairs);
      var bob := DisableUserKeys(s[1], pairs);
      assert alice.keys == [AccessKey("K1", Inactive)];
      assert bob.keys == [AccessKey("K2", Active)] by {
        assert ("bob", "K2") !in pairs;
      }
      assert DisableKeys(s, pairs) == [alice, bob];
    }
  }

  /** An event without detail: nothing to do, normal return. */
  lemma MissingDetailScenario(s: Store, faults: map<nat, Fault>, topic: string)
    ensures Handler(EventMap(None), s, faults, topic) == Invocation(s, [], false)
  {
  }
}
