# Leaked access-key remediation, modelled in Dafny

The program modelled here is one AWS Lambda handler (`lambda.py`). It receives an AWS Health
event that lists leaked IAM access keys. For each key id it does three things:

- it finds the owning IAM user by scanning every user and every access key
  (`get_user_name_by_key`);
- it sets that key to `Inactive` (`update_access_key`);
- it publishes a notice to an SNS topic.

Failures for one key are logged and skipped. Failures outside the per-key `try`
are logged and re-raised.

This project models that logic over an in-memory identity store:

- `iam.dfy` (module `Iam`): users, access keys, the store as the `list_users`
  pages concatenated (`Flatten`), and the `update_access_key` write. It also
  has `DisableKeys`, a reference definition of "these (user, key id) pairs
  become Inactive, nothing else changes". The handler's effect is proved equal
  to it.
- `owner_resolver.dfy` (module `OwnerResolver`): `get_user_name_by_key`.
  `FindOwner` is the first-match search over the flattened listing.
  `GetUserNameByKey` keeps the source's three nested loops (pages, users, keys)
  and is proved to compute the same answer.
- `remediation.dfy` (module `Remediation`): `lambda_handler` as a fold over the
  batch. `ProcessKey` is the body of the inner `try`. `RunBatch` is the
  `for` loop. `Handler` is the outer `try` with the empty-batch short circuit.
  Each processed entity appends exactly one outcome: `Notified`, `NotFound` or
  `Failed`. An invocation ends with the store it leaves behind, the outcomes,
  and whether it raised.
- `scenarios.dfy` (module `Scenarios`): small worked invocations. They cover a
  leaked key of `alice`, an unknown key, a second key whose update fails, and
  an event without `detail`.

External calls become inputs:

- The store is a value.
- The SNS topic is a parameter.
- What `get_user_name_by_key`, `update_access_key` and `sns.publish` do for the
  entity at batch position `j` is a `Fault` read from a `map<nat, Fault>`
  (absent means nothing fails).

The Python event is modelled by its observable shape:

- The event, `detail` and each entity are either mappings or "not a mapping".
  On a non-mapping, `.get` raises.
- `affectedEntities` is a list, a falsy value (`None`, `{}`, `""`, `0`), or a
  truthy non-list. Iterating a truthy non-list raises at its first element, or
  immediately.

Behaviours of the code that are easy to misread:

- A missing `detail` does not raise. `event.get('detail', {})`
  defaults it, so the handler logs "nothing to disable" and returns normally.
  Only a `detail` (or event) that is present but not a mapping raises.
- The owner check is Python truthiness (`if user_name:`). A user whose name is
  the empty string is treated as not found. `ActingOwner` models this. IAM user
  names are never empty, so in practice it is the plain `None` check.
- A missing `entityValue` is not rejected. `access_key_id` becomes `None`, the
  scan compares every key id with `None`, finds nothing, and the entity is
  logged as not found (`NotFound(None)`).
- The handler does not require or check that key ids are unique across users.
  When several users hold an id, the first in enumeration order wins
  (`FindOwnerFirstMatch`). The order-independence of the answer
  (`FindOwnerOrderIndependent`) needs that premise explicitly.
- A publish failure comes after the update and after the success message was
  logged. The key stays disabled. The outcome is `Failed`, and its
  `disabledLog` carries the success message already logged (see
  `ProcessKey`). On that path one key id produces both a success log and an
  error log.

## Model

| member | source | states |
|---|---|---|
| Iam.Flatten | lambda.py:71-73 | every user of every page is in the flattened listing, and nothing else is |
| Iam.FlattenConcat | lambda.py:71-73 | reading the pages in two runs gives the same listing as reading them in one run |
| Iam.UpdateAccessKey | lambda.py:45-49 | the update is accepted exactly when a user of that name holds the key id. It then keeps every name and key id, gives that user's key the new status, and leaves every other key's status as it was |
| Iam.UpdateNoOpWhenAlreadySet | lambda.py:45-49 | disabling a key that is already Inactive is accepted and leaves the store unchanged |
| Iam.UpdateIdempotent | lambda.py:45-49 | applying the same update twice gives the same store as applying it once |
| Iam.UpdateIsDisableKeys | lambda.py:45-49 | an accepted update to Inactive equals the reference effect for its single (user, key id) pair |
| Iam.DisableKeysFrame | lambda.py:44-49 | the reference effect keeps every name and key id; listed pairs become Inactive and all other statuses are unchanged |
| Iam.DisableKeysCompose | lambda.py:25-49 | disabling one set of pairs and then another equals disabling their union |
| Iam.DisableKeysIdempotent | lambda.py:44-49 | disabling the same pairs a second time changes nothing |
| OwnerResolver.ScanKeys | lambda.py:76-78 | the key-list scan succeeds exactly when some key record carries the queried id |
| OwnerResolver.FindOwner | lambda.py:69-79 | the result is None exactly when no user holds the id. Otherwise it is the name of the first user, in enumeration order, who holds it |
| OwnerResolver.FindOwnerFirstMatch | lambda.py:72-78 | when several users hold the id, the first holder's name is returned |
| OwnerResolver.FindOwnerConcat | lambda.py:71-78 | searching a concatenated listing searches the first part, and the second part only when the first has no holder |
| OwnerResolver.FindOwnerSameShape | lambda.py:73-78 | the answer depends only on user names and key ids, not on key statuses |
| OwnerResolver.FindOwnerFoundAnyOrder | lambda.py:72-79 | whether the id is found does not depend on the order in which users are enumerated |
| OwnerResolver.FindOwnerOrderIndependent | lambda.py:72-78 | when only one user name holds the id, the answer does not depend on the enumeration order |
| OwnerResolver.GetUserNameByKey | lambda.py:69-79 | the nested page, user and key loops return the first holder's name, or None exactly when no user on any page holds the id |
| Remediation.MessageNamesKeyAndUser | lambda.py:50 | the notification message contains both the access key id and the user name |
| Remediation.ActingOwner | lambda.py:42-44 | the owner acted on is present exactly when a key id was given, some user holds it, and the first holder's name is non-empty (Python truthiness of `user_name`). It is then that first holder's name |
| Remediation.OwnerUpdateAccepted | lambda.py:42-49 | update_access_key accepts the user the resolver found for the key |
| Remediation.DisabledPairOwner | lambda.py:42-49 | a disabled pair is the queried key id plus the user the resolver named, and neither the lookup nor the update failed |
| Remediation.ProcessKey | lambda.py:35-63 | see the rows below this table |
| Remediation.ProcessKeyIdempotent | lambda.py:44-58 | processing the same key again on the resulting store yields the same store and the same outcome; the notification is issued again |
| Remediation.ProcessKeySameShapeOutcome | lambda.py:42-60 | an entity's outcome does not depend on key statuses, so it does not depend on earlier disables |
| Remediation.Extend | lambda.py:25-63 | one loop iteration: a raised run stays raised; a non-mapping entity raises; a mapping entity adds exactly one outcome and keeps the earlier ones |
| Remediation.RunBatch | lambda.py:25-26 | the loop raises exactly when some entity is not a mapping. It then stops at the first one, and every entity before it was processed. Otherwise there is one outcome per entity |
| Remediation.RunBatchOutcomes | lambda.py:25-63 | outcome j equals what entity j alone would yield on the starting store with its own fault |
| Remediation.RunBatchStore | lambda.py:25-49 | the final store is the reference effect of the pairs disabled by the processed entities |
| Remediation.BatchPairsMember | lambda.py:25-49 | a pair is disabled by the batch exactly when some processed entity disabled it |
| Remediation.MalformedEvent | lambda.py:18-25 | an event rejected before any entity is looked at (`event.get` or `detail.get` on a non-mapping, or iterating a truthy non-list) lists no entity to process |
| Remediation.NothingListed | lambda.py:18-23 | the four "nothing to disable" shapes (no `detail`, no `affectedEntities`, a falsy value, an empty list) are exactly the events that are not malformed and list no entity |
| Remediation.Handler | lambda.py:15-67 | see the rows below this table |
| Remediation.HandlerContainsFailures | lambda.py:25-63 | if every entity is a mapping, the invocation returns normally with one outcome per entity, attributed to that entity's key id, whatever the external calls do |
| Remediation.HandlerFaultIsolation | lambda.py:35-63 | an entity's outcome, the number of outcomes and whether the run raises do not depend on failures at other entities |
| Remediation.HandlerAbortsAtNonMapping | lambda.py:25-67 | a non-mapping entity at position k makes the invocation raise with exactly k outcomes. Only the first k entities' disables take effect |
| Remediation.HandlerIdempotent | lambda.py:44-58 | running the same event again on the store it left behind gives the same store and the same outcomes, notifications included |
| Remediation.HandlerFrame | lambda.py:44-49 | only keys named by a processed entity change, only to Inactive, and only on the user the resolver named for that id; an Inactive key is never re-activated |
| Remediation.NotifiedOutcome | lambda.py:35-58 | a processed entity is notified exactly when nothing fails and its key id resolves to a named user. Then the outcome names that key and user, and its one notification goes to the configured topic, with the fixed subject and a message that contains both. That key is Inactive afterwards |
| Scenarios.LeakedKeyScenario | lambda.py:42-58 | alice's leaked key gives one notification naming key and user. The key ends Inactive and the invocation returns normally |
| Scenarios.UnknownKeyScenario | lambda.py:59-60 | an unknown key gives one not-found outcome, no notification, an unchanged store and a normal return |
| Scenarios.SecondUpdateFailsScenario | lambda.py:35-63 | when the second key's update fails, the first key is still notified and the second key only fails. The invocation returns normally |
| Scenarios.SecondUpdateFailsStore | lambda.py:45-49 | in that invocation only alice's key ends Inactive; the failed update leaves bob's key Active |
| Scenarios.MissingDetailScenario | lambda.py:18-23 | an event without `detail` returns normally and changes nothing |

`Remediation.ProcessKey` states:

- The store after the step is the reference effect of at most one (owner, key id) pair.
- The outcome is attributed to the queried key id.
- The outcome is `Notified` exactly when nothing fails and a truthy owner is found.
- The outcome is `NotFound` exactly when the lookup succeeds but finds no truthy owner.
- A notification goes to the configured topic, with the fixed subject and a message built from the key id and the owner.
- On publish failure the disable is kept, and the `Failed` outcome carries the success message already logged (`disabledLog`). Every other `Failed` outcome has no `disabledLog`.

`Remediation.Handler` states:

- No `detail`, no `affectedEntities`, a falsy value or an empty list returns normally, with the store unchanged and no outcomes.
- A non-mapping event, a non-mapping `detail` or a truthy non-list raises with nothing done.
- Otherwise the invocation raises exactly when some listed entity is not a mapping.
- Each outcome is that entity's own outcome.
- The final store is the reference effect of the processed entities.

## Left out

- boto3 and the AWS services are not modelled. The store is an immutable value. `sns.publish` appears only as the `Notification` inside a `Notified` outcome. Their failures are the `Fault` oracle, not exceptions.
- Pagination mechanics are not modelled. The `list_users` pages are an input sequence, and reading them is assumed lossless.
- `list_access_keys` is not a separate call. Each user carries its key list.
- Concurrent mutation of the store during a scan is not modelled. Every scan sees one stable snapshot.
- Log records are not modelled beyond the outcomes that stand for them. `Notified` stands for the success log. `NotFound` stands for the not-found error log. `Failed` stands for the caught-exception error log, and on the publish-failure path its `disabledLog` also holds the success log written before it. Error outcomes carry the key id, not the exception text. The Korean log wording is kept only for the SNS subject and message.
- The hardcoded topic ARN is not modelled. The topic is a parameter.
- The Lambda `context` argument is not modelled, because the handler never reads it.
- Non-string `entityValue` values, such as numbers, are not modelled. An entity carries an optional string.
- The exception object that `raise e` propagates is not modelled. It is reduced to the `raised` flag.
- Exceptions raised inside the `except` handlers themselves, or by the logger, are not modelled.
- Where a lookup fails in the middle of the scan is not modelled. The scan has no side effects, so a failing lookup is one `ResolveFault`.
- `update_access_key` rejecting a (user, key) pair is modelled by `UpdateAccessKey` returning `None`. In the handler it cannot happen, because the pair comes from the resolver (`OwnerUpdateAccepted`). A service-side rejection is an `UpdateFault`.
