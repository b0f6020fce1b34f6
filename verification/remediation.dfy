/** lambda_handler: one invocation over one inbound event. The batch of
    affected entities is folded left to right; each entity yields exactly one
    outcome, failures inside the per-entity step are contained, and failures
    outside it abort the rest of the batch. */
module Remediation {
  import opened Iam
  import opened OwnerResolver

  /** Subject line of every notification. */
  const Subject: string := "[보안 알림] IAM Access Key 자동 비활성화 완료"

  const MessagePrefix: string := "경고: 유출된 Access Key "
  const MessageMiddle: string := " (사용자: "
  const MessageSuffix: string := ")가 비활성화되었습니다."

  /** Body of the notification, also written to the log on success. */
  function Message(keyId: string, userName: string): string {
    MessagePrefix + keyId + MessageMiddle + userName + MessageSuffix
  }

  /** t occurs in s as a contiguous piece. */
  predicate Contains(s: string, t: string) {
    exists i | 0 <= i <= |s| - |t| :: OccursAt(s, t, i)
  }

  predicate OccursAt(s: string, t: string, i: int)
    requires 0 <= i <= |s| - |t|
  {
    s[i..i + |t|] == t
  }

  /** The message names both the key and its owner. */
  lemma MessageNamesKeyAndUser(keyId: string, userName: string)
    ensures Contains(Message(keyId, userName), keyId)
    ensures Contains(Message(keyId, userName), userName)
  {
    var m := Message(keyId, userName);
    var a := |MessagePrefix|;
    assert OccursAt(m, keyId, a);
    var b := a + |keyId| + |MessageMiddle|;
    assert OccursAt(m, userName, b);
  }

  datatype Notification = Notification(topic: string, subject: string, message: string)

  /** One element of affectedEntities. */
  datatype Entity =
    | EntityMap(entityValue: Option<string>)  // a mapping; None when entityValue is absent
    | NotAMapping                             // anything else: entity.get raises

  /** The value stored under affectedEntities. */
  datatype Entities =
    | EntityList(items: seq<Entity>)
    | FalsyValue     // null, {}, "", 0 or false: `not affected_entities` holds
    | TruthyNonList  // non-empty mapping or string, non-zero number: iterating raises

  datatype Detail =
    | DetailMap(affectedEntities: Option<Entities>)  // None when the key is absent
    | DetailNotMapping                              // includes null: detail.get raises

  datatype Event =
    | EventMap(detail: Option<Detail>)  // None when the key is absent
    | EventNotMapping                   // event.get raises

  /** What the external calls do for the entity at a given batch position:
      get_user_name_by_key raises, update_access_key raises, sns.publish
      raises, or nothing fails. */
  datatype Fault = NoFault | ResolveFault | UpdateFault | PublishFault

  function FaultAt(faults: map<nat, Fault>, j: nat): Fault {
    if j in faults then faults[j] else NoFault
  }

  /** The one observable result of one entity. */
  datatype Outcome =
    | Notified(keyId: string, userName: string, note: Notification)
    | NotFound(queried: Option<string>)  // the "no such user" error log
    /** The caught-exception error log. When sns.publish is what raised,
        the key was already disabled and its success message already
        logged: disabledLog carries that message, and is None otherwise. */
    | Failed(queried: Option<string>, disabledLog: Option<string>)
  {
    /** The access key id the outcome is attributed to. */
    function Key(): Option<string> {
      if Notified? then Some(keyId) else queried
    }
  }

  datatype Step = Step(store: Store, outcome: Outcome)

  /** The owner the handler acts on: the resolver's answer, kept only when it
      is truthy. A missing entityValue is compared with every key id and
      matches none. */
  function ActingOwner(s: Store, keyId: Option<string>): (r: Option<string>)
    ensures r.Some? <==>
      keyId.Some? && StoreHolds(s, keyId.value) && FindOwner(s, keyId.value).value != ""
    ensures r.Some? ==> exists i :: IsFirstHolder(s, keyId.value, i) && s[i].name == r.value && r.value != ""
  {
    match keyId
    case None => None
    case Some(id) =>
      match FindOwner(s, id)
      case None => None
      case Some(name) => if name != "" then Some(name) else None
  }

  lemma ActingOwnerSameShape(s: Store, t: Store, keyId: Option<string>)
    requires SameShape(s, t)
    ensures ActingOwner(s, keyId) == ActingOwner(t, keyId)
  {
    if keyId.Some? {
      FindOwnerSameShape(s, t, keyId.value);
    }
  }

  /** update_access_key accepts the (owner, key) pair the resolver found. */
  lemma OwnerUpdateAccepted(s: Store, keyId: Option<string>)
    requires ActingOwner(s, keyId).Some?
    ensures keyId.Some?
    ensures UpdateAccessKey(s, ActingOwner(s, keyId).value, keyId.value, Inactive).Some?
  {
    var i :| IsFirstHolder(s, keyId.value, i) && FindOwner(s, keyId.value).value == s[i].name;
  }

  /** The (user, key id) pair that one entity's update_access_key call sets
      to Inactive: none when resolving or updating fails or no owner is found. */
  function DisabledPair(s: Store, keyId: Option<string>, fault: Fault): set<(string, string)> {
    if fault.ResolveFault? || fault.UpdateFault? then {}
    else
      match keyId
      case None => {}
      case Some(id) =>
        match ActingOwner(s, keyId)
        case None => {}
        case Some(owner) => {(owner, id)}
  }

  /** A disabled pair is the queried key id and the owner the resolver named. */
  lemma DisabledPairOwner(s: Store, keyId: Option<string>, fault: Fault, pair: (string, string))
    requires pair in DisabledPair(s, keyId, fault)
    ensures keyId == Some(pair.1)
    ensures FindOwner(s, pair.1) == Some(pair.0)
    ensures !fault.ResolveFault? && !fault.UpdateFault?
  {
  }

  lemma DisabledPairSameShape(s: Store, t: Store, keyId: Option<string>, fault: Fault)
    requires SameShape(s, t)
    ensures DisabledPair(s, keyId, fault) == DisabledPair(t, keyId, fault)
  {
    ActingOwnerSameShape(s, t, keyId);
  }

  /** The outcome of an entity depends on the store only through its user
      names and key ids. */
  lemma ProcessKeySameShapeOutcome(s: Store, t: Store, keyId: Option<string>, fault: Fault, topic: string)
    requires SameShape(s, t)
    ensures ProcessKey(s, keyId, fault, topic).outcome == ProcessKey(t, keyId, fault, topic).outcome
  {
    ActingOwnerSameShape(s, t, keyId);
  }

  /** The body of the inner try for one access key id. */
  function ProcessKey(s: Store, keyId: Option<string>, fault: Fault, topic: string): (r: Step)
    ensures r.store == DisableKeys(s, DisabledPair(s, keyId, fault))
    ensures r.outcome.Key() == keyId
    ensures r.outcome.Notified? <==> fault.NoFault? && ActingOwner(s, keyId).Some?
    ensures r.outcome.NotFound? <==> !fault.ResolveFault? && ActingOwner(s, keyId).None?
    ensures r.outcome.Notified? ==>
      && ActingOwner(s, keyId) == Some(r.outcome.userName)
      && r.outcome.note == Notification(topic, Subject, Message(r.outcome.keyId, r.outcome.userName))
    ensures r.outcome.Failed? ==>
      (r.outcome.disabledLog.Some? <==> fault.PublishFault? && ActingOwner(s, keyId).Some?)
    ensures r.outcome.Failed? && r.outcome.disabledLog.Some? ==>
      && keyId.Some?
      && ActingOwner(s, keyId).Some?
      && r.outcome.disabledLog.value == Message(keyId.value, ActingOwner(s, keyId).value)
  {
    var owner := ActingOwner(s, keyId);
    if fault.ResolveFault? then
      NothingDisabled(s);
      Step(s, Failed(keyId, None))
    else if owner.None? then
      NothingDisabled(s);
      Step(s, NotFound(keyId))
    else if fault.UpdateFault? then
      NothingDisabled(s);
      Step(s, Failed(keyId, None))
    else
      var updated := UpdateAccessKey(s, owner.value, keyId.value, Inactive);
      OwnerUpdateAccepted(s, keyId);
      UpdateIsDisableKeys(s, owner.value, keyId.value);
      var message := Message(keyId.value, owner.value);
      if updated.None? then Step(s, Failed(keyId, None))
      else if fault.PublishFault? then Step(updated.value, Failed(keyId, Some(message)))
      else Step(updated.value, Notified(keyId.value, owner.value, Notification(topic, Subject, message)))
  }

  /** Processing the same key id again, on the store the first run left,
      changes nothing further and yields the same outcome again. */
  lemma ProcessKeyIdempotent(s: Store, keyId: Option<string>, fault: Fault, topic: string)
    ensures var r := ProcessKey(s, keyId, fault, topic);
      ProcessKey(r.store, keyId, fault, topic) == r
  {
    var r := ProcessKey(s, keyId, fault, topic);
    var pairs := DisabledPair(s, keyId, fault);
    DisableKeysFrame(s, pairs);
    DisabledPairSameShape(s, r.store, keyId, fault);
    ProcessKeySameShapeOutcome(s, r.store, keyId, fault, topic);
    DisableKeysIdempotent(s, pairs);
  }

  lemma NothingDisabled(s: Store)
    ensures DisableKeys(s, {}) == s
  {
    DisableKeysFrame(s, {});
    ShapeAndStatusDetermine(DisableKeys(s, {}), s);
  }

  /** Outcome of the whole invocation: the store as left behind, the
      outcomes of the entities processed, and whether the handler raised. */
  datatype Invocation = Invocation(store: Store, outcomes: seq<Outcome>, raised: bool)

  /** The (user, key id) pairs disabled by the processed part of a batch. */
  function BatchPairs(s: Store, done: seq<Entity>, faults: map<nat, Fault>): set<(string, string)> {
    if |done| == 0 then {}
    else
      var n := |done| - 1;
      BatchPairs(s, done[..n], faults) +
        (if done[n].EntityMap? then DisabledPair(s, done[n].entityValue, FaultAt(faults, n)) else {})
  }

  /** One iteration of the for-loop: a raised invocation stays raised; an
      entity that is not a mapping raises; any other entity adds exactly one
      outcome. */
  function Extend(prev: Invocation, entity: Entity, fault: Fault, topic: string): (r: Invocation)
    ensures r.raised <==> prev.raised || entity.NotAMapping?
    ensures |r.outcomes| == (if r.raised then |prev.outcomes| else |prev.outcomes| + 1)
    ensures forall j | 0 <= j < |prev.outcomes| :: r.outcomes[j] == prev.outcomes[j]
    ensures prev.raised || entity.NotAMapping? ==> r.store == prev.store
  {
    if prev.raised then prev
    else
      match entity
      case NotAMapping => Invocation(prev.store, prev.outcomes, true)
      case EntityMap(keyId) =>
        var step := ProcessKey(prev.store, keyId, fault, topic);
        Invocation(step.store, prev.outcomes + [step.outcome], false)
  }

  /** The for-loop over affected_entities as a fold over the batch: one
      outcome per entity, until an entity that is not a mapping raises. */
  function RunBatch(s: Store, items: seq<Entity>, faults: map<nat, Fault>, topic: string): (r: Invocation)
    ensures r.raised <==> exists j | 0 <= j < |items| :: items[j].NotAMapping?
    ensures |r.outcomes| <= |items|
    ensures !r.raised ==> |r.outcomes| == |items|
    ensures r.raised ==> |r.outcomes| < |items| && items[|r.outcomes|].NotAMapping?
    ensures forall j | 0 <= j < |r.outcomes| :: items[j].EntityMap?
  {
    if |items| == 0 then Invocation(s, [], false)
    else
      var n := |items| - 1;
      var prev := RunBatch(s, items[..n], faults, topic);
      assert forall j | 0 <= j < n :: items[..n][j] == items[j];
      Extend(prev, items[n], FaultAt(faults, n), topic)
  }

  /** Each outcome of the batch is the outcome its entity would have on the
      store the batch started from, with its own fault: neither the failures
      nor the updates of earlier entities change it. */
  lemma {:induction false} RunBatchOutcomes(s: Store, items: seq<Entity>, faults: map<nat, Fault>, topic: string)
    ensures var r := RunBatch(s, items, faults, topic);
      forall j | 0 <= j < |r.outcomes| ::
        r.outcomes[j] == ProcessKey(s, items[j].entityValue, FaultAt(faults, j), topic).outcome
  {
    if |items| > 0 {
      var n := |items| - 1;
      var prev := RunBatch(s, items[..n], faults, topic);
      var r := RunBatch(s, items, faults, topic);
      assert r == Extend(prev, items[n], FaultAt(faults, n), topic);
      RunBatchOutcomes(s, items[..n], faults, topic);
      if !prev.raised && items[n].EntityMap? {
        RunBatchStore(s, items[..n], faults, topic);
        assert items[..n][..|prev.outcomes|] == items[..n];
        RunBatchStep(s, items, faults, topic, prev.store);
      }
      forall j | 0 <= j < |r.outcomes|
        ensures r.outcomes[j] == ProcessKey(s, items[j].entityValue, FaultAt(faults, j), topic).outcome
      {
        if j < |prev.outcomes| {
          assert items[..n][j] == items[j];
          assert r.outcomes[j] == prev.outcomes[j];
          assert prev.outcomes[j] == ProcessKey(s, items[..n][j].entityValue, FaultAt(faults, j), topic).outcome;
        } else {
          assert j == n && !prev.raised && items[n].EntityMap?;
          assert r.outcomes[j] == ProcessKey(prev.store, items[n].entityValue, FaultAt(faults, n), topic).outcome;
        }
      }
    }
  }

  /** The store after the batch is the reference effect of the pairs the
      processed entities disabled. */
  lemma {:induction false} RunBatchStore(s: Store, items: seq<Entity>, faults: map<nat, Fault>, topic: string)
    ensures var r := RunBatch(s, items, faults, topic);
      r.store == DisableKeys(s, BatchPairs(s, items[..|r.outcomes|], faults))
  {
    if |items| == 0 {
      NothingDisabled(s);
    } else {
      var n := |items| - 1;
      var prev := RunBatch(s, items[..n], faults, topic);
      RunBatchStore(s, items[..n], faults, topic);
      assert items[..n][..|prev.outcomes|] == items[..|prev.outcomes|];
      if !prev.raised && items[n].EntityMap? {
        RunBatchStep(s, items, faults, topic, prev.store);
        assert items[..|items|] == items;
      }
    }
  }

  /** One more entity keeps the fold's invariant. */
  lemma RunBatchStep(s: Store, items: seq<Entity>, faults: map<nat, Fault>, topic: string, t: Store)
    requires |items| > 0 && items[|items| - 1].EntityMap?
    requires t == DisableKeys(s, BatchPairs(s, items[..|items| - 1], faults))
    ensures var step := ProcessKey(t, items[|items| - 1].entityValue, FaultAt(faults, |items| - 1), topic);
      && step.outcome == ProcessKey(s, items[|items| - 1].entityValue, FaultAt(faults, |items| - 1), topic).outcome
      && step.store == DisableKeys(s, BatchPairs(s, items, faults))
  {
    var n := |items| - 1;
    var keyId, f := items[n].entityValue, FaultAt(faults, n);
    DisableKeysFrame(s, BatchPairs(s, items[..n], faults));
    ActingOwnerSameShape(s, t, keyId);
    DisabledPairSameShape(s, t, keyId, f);
    DisableKeysCompose(s, BatchPairs(s, items[..n], faults), DisabledPair(s, keyId, f));
  }

  /** The value of event["detail"]["affectedEntities"], when both lookups
      find a mapping and a value. */
  function AffectedEntities(e: Event): Option<Entities> {
    match e
    case EventMap(Some(DetailMap(Some(v)))) => Some(v)
    case _ => None
  }

  /** The event is rejected before any entity is looked at: event.get or
      detail.get raises, or iterating affectedEntities yields no mapping. */
  predicate MalformedEvent(e: Event): (b: bool)
    ensures b ==> ListedEntities(e) == []
  {
    || e.EventNotMapping?
    || (e.EventMap? && e.detail.Some? && e.detail.value.DetailNotMapping?)
    || AffectedEntities(e) == Some(TruthyNonList)
  }

  /** The entities the for-loop iterates over. */
  function ListedEntities(e: Event): seq<Entity> {
    match AffectedEntities(e)
    case Some(EntityList(items)) => items
    case _ => []
  }

  /** The four event shapes that mean "nothing to disable": no detail, no
      affectedEntities, a falsy value, or an empty list. */
  predicate NothingListed(e: Event): (b: bool)
    ensures b <==> !MalformedEvent(e) && ListedEntities(e) == []
  {
    || e == EventMap(None)
    || e == EventMap(Some(DetailMap(None)))
    || e == EventMap(Some(DetailMap(Some(FalsyValue))))
    || e == EventMap(Some(DetailMap(Some(EntityList([])))))
  }

  /** lambda_handler(event, context): the outer try around the loop. */
  function Handler(e: Event, s: Store, faults: map<nat, Fault>, topic: string): (r: Invocation)
    ensures NothingListed(e) ==> r == Invocation(s, [], false)
    ensures MalformedEvent(e) ==> r == Invocation(s, [], true)
    ensures r.raised <==>
      MalformedEvent(e) || exists j | 0 <= j < |ListedEntities(e)| :: ListedEntities(e)[j].NotAMapping?
    ensures !r.raised ==> |r.outcomes| == |ListedEntities(e)|
    ensures |r.outcomes| <= |ListedEntities(e)|
    ensures forall j | 0 <= j < |r.outcomes| ::
      && ListedEntities(e)[j].EntityMap?
      && r.outcomes[j] == ProcessKey(s, ListedEntities(e)[j].entityValue, FaultAt(faults, j), topic).outcome
    ensures r.store == DisableKeys(s, BatchPairs(s, ListedEntities(e)[..|r.outcomes|], faults))
  {
    if MalformedEvent(e) then
      NothingDisabled(s);
      Invocation(s, [], true)
    else
      var items := ListedEntities(e);
      if |items| == 0 then
        NothingDisabled(s);
        Invocation(s, [], false)
      else
        RunBatchOutcomes(s, items, faults, topic);
        RunBatchStore(s, items, faults, topic);
        RunBatch(s, items, faults, topic)
  }

  /** A pair is disabled by the batch exactly when some processed entity
      disabled it. */
  lemma {:induction false} BatchPairsMember(s: Store, done: seq<Entity>, faults: map<nat, Fault>, pair: (string, string))
    ensures pair in BatchPairs(s, done, faults) <==>
      exists j | 0 <= j < |done| ::
        done[j].EntityMap? && pair in DisabledPair(s, done[j].entityValue, FaultAt(faults, j))
  {
    if |done| > 0 {
      var n := |done| - 1;
      BatchPairsMember(s, done[..n], faults, pair);
      assert forall j | 0 <= j < n :: done[..n][j] == done[j];
    }
  }

  lemma {:induction false} BatchPairsSameShape(s: Store, t: Store, done: seq<Entity>, faults: map<nat, Fault>)
    requires SameShape(s, t)
    ensures BatchPairs(s, done, faults) == BatchPairs(t, done, faults)
  {
    if |done| > 0 {
      var n := |done| - 1;
      BatchPairsSameShape(s, t, done[..n], faults);
      if done[n].EntityMap? {
        DisabledPairSameShape(s, t, done[n].entityValue, FaultAt(faults, n));
      }
    }
  }

  /** Failures inside the per-entity try are contained: when every entity is
      a mapping, the invocation returns normally with one outcome per entity,
      attributed to that entity's key id, whatever the external calls do. */
  lemma HandlerContainsFailures(e: Event, s: Store, faults: map<nat, Fault>, topic: string)
    requires !MalformedEvent(e)
    requires forall j | 0 <= j < |ListedEntities(e)| :: ListedEntities(e)[j].EntityMap?
    ensures var r := Handler(e, s, faults, topic);
      && !r.raised
      && |r.outcomes| == |ListedEntities(e)|
      && forall j | 0 <= j < |r.outcomes| :: r.outcomes[j].Key() == ListedEntities(e)[j].entityValue
  {
  }

  /** An entity's outcome depends on its own fault only: changing what the
      external calls do for other entities leaves it as it is. */
  lemma HandlerFaultIsolation(e: Event, s: Store, f1: map<nat, Fault>, f2: map<nat, Fault>, topic: string, j: nat)
    requires FaultAt(f1, j) == FaultAt(f2, j)
    ensures var r1, r2 := Handler(e, s, f1, topic), Handler(e, s, f2, topic);
      && r1.raised == r2.raised
      && |r1.outcomes| == |r2.outcomes|
      && (j < |r1.outcomes| ==> r1.outcomes[j] == r2.outcomes[j])
  {
    var r1, r2 := Handler(e, s, f1, topic), Handler(e, s, f2, topic);
    ProcessedCountUnique(ListedEntities(e), |r1.outcomes|, |r2.outcomes|);
  }

  /** The number of processed entities is fixed by the batch: all of them, or
      those before the first entity that is not a mapping. */
  lemma ProcessedCountUnique(items: seq<Entity>, m: int, n: int)
    requires 0 <= m <= |items| && 0 <= n <= |items|
    requires forall j | 0 <= j < m :: items[j].EntityMap?
    requires forall j | 0 <= j < n :: items[j].EntityMap?
    requires m == |items| || items[m].NotAMapping?
    requires n == |items| || items[n].NotAMapping?
    ensures m == n
  {
  }

  /** A failure outside the inner try aborts the batch: the first entity that
      is not a mapping makes the invocation raise, after the entities before
      it were fully processed and before any later one is looked at. */
  lemma HandlerAbortsAtNonMapping(e: Event, s: Store, faults: map<nat, Fault>, topic: string, k: nat)
    requires !MalformedEvent(e)
    requires k < |ListedEntities(e)| && ListedEntities(e)[k].NotAMapping?
    requires forall j | 0 <= j < k :: ListedEntities(e)[j].EntityMap?
    ensures var r := Handler(e, s, faults, topic);
      && r.raised
      && |r.outcomes| == k
      && r.store == DisableKeys(s, BatchPairs(s, ListedEntities(e)[..k], faults))
  {
    var r := Handler(e, s, faults, topic);
    ProcessedCountUnique(ListedEntities(e), k, |r.outcomes|);
  }

  /** Running the same event again on the store it left behind reproduces
      the same invocation: the keys are already Inactive, so the store does
      not change, and every notification is issued again, not suppressed. */
  lemma HandlerIdempotent(e: Event, s: Store, faults: map<nat, Fault>, topic: string)
    ensures var r := Handler(e, s, faults, topic);
      Handler(e, r.store, faults, topic) == r
  {
    var r := Handler(e, s, faults, topic);
    var r2 := Handler(e, r.store, faults, topic);
    var items := ListedEntities(e);
    ProcessedCountUnique(items, |r.outcomes|, |r2.outcomes|);
    var pairs := BatchPairs(s, items[..|r.outcomes|], faults);
    DisableKeysFrame(s, pairs);
    BatchPairsSameShape(s, r.store, items[..|r.outcomes|], faults);
    DisableKeysIdempotent(s, pairs);
    forall j | 0 <= j < |r.outcomes|
      ensures r2.outcomes[j] == r.outcomes[j]
    {
      ProcessKeySameShapeOutcome(s, r.store, items[j].entityValue, FaultAt(faults, j), topic);
    }
    assert r2.outcomes == r.outcomes;
  }

  /** Only keys named in the batch change, each only to Inactive, and only
      on the user the resolver named for that key id; an Inactive key is
      never re-activated. */
  lemma HandlerFrame(e: Event, s: Store, faults: map<nat, Fault>, topic: string, i: int, k: int)
    requires 0 <= i < |s| && 0 <= k < |s[i].keys|
    ensures var r := Handler(e, s, faults, topic);
      && SameShape(s, r.store)
      && (r.store[i].keys[k] != s[i].keys[k] ==>
        && r.store[i].keys[k].status == Inactive
        && FindOwner(s, s[i].keys[k].id) == Some(s[i].name)
        && exists j | 0 <= j < |r.outcomes| :: ListedEntities(e)[j] == EntityMap(Some(s[i].keys[k].id)))
      && (s[i].keys[k].status == Inactive ==> r.store[i].keys[k].status == Inactive)
  {
    var r := Handler(e, s, faults, topic);
    var done := ListedEntities(e)[..|r.outcomes|];
    var pairs := BatchPairs(s, done, faults);
    DisableKeysFrame(s, pairs);
    var pair := (s[i].name, s[i].keys[k].id);
    BatchPairsMember(s, done, faults, pair);
    if r.store[i].keys[k] != s[i].keys[k] {
      assert r.store[i].keys[k].id == s[i].keys[k].id;
      assert pair in pairs;
      var j :| 0 <= j < |done| && done[j].EntityMap? && pair in DisabledPair(s, done[j].entityValue, FaultAt(faults, j));
      DisabledPairOwner(s, done[j].entityValue, FaultAt(faults, j), pair);
      assert ListedEntities(e)[j] == done[j];
    }
  }

  /** A processed entity is notified exactly when nothing fails for it and
      its key id resolves to a named user. A Notified outcome is one
      notification on the configured topic with the fixed subject and a
      message naming key and user, and by the end of the invocation that
      user's key is Inactive. */
  lemma NotifiedOutcome(e: Event, s: Store, faults: map<nat, Fault>, topic: string, j: nat)
    requires !MalformedEvent(e)
    requires j < |ListedEntities(e)|
    requires forall i | 0 <= i <= j :: ListedEntities(e)[i].EntityMap?
    ensures var r := Handler(e, s, faults, topic);
      var keyId := ListedEntities(e)[j].entityValue;
      && j < |r.outcomes|
      && (r.outcomes[j].Notified? <==> FaultAt(faults, j).NoFault? && ActingOwner(s, keyId).Some?)
      && (r.outcomes[j].Notified? ==>
        var o := r.outcomes[j];
        && keyId == Some(o.keyId)
        && FindOwner(s, o.keyId) == Some(o.userName)
        && o.note == Notification(topic, Subject, Message(o.keyId, o.userName))
        && Contains(o.note.message, o.keyId)
        && Contains(o.note.message, o.userName)
        && forall i, k | 0 <= i < |s| && 0 <= k < |s[i].keys| && s[i].name == o.userName && s[i].keys[k].id == o.keyId ::
          r.store[i].keys[k].status == Inactive)
  {
    var r := Handler(e, s, faults, topic);
    var items := ListedEntities(e);
    var o := r.outcomes[j];
    if o.Notified? {
      var done := items[..|r.outcomes|];
      var pairs := BatchPairs(s, done, faults);
      MessageNamesKeyAndUser(o.keyId, o.userName);
      DisableKeysFrame(s, pairs);
      assert done[j] == items[j];
      BatchPairsMember(s, done, faults, (o.userName, o.keyId));
      assert (o.userName, o.keyId) in pairs;
    }
  }
}
