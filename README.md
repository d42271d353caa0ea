# create-dynamo-lambda, modelled in Dafny

The repository is a small event handler that makes sure a DynamoDB table
exists. It is given an event with a `tableName`. It probes the table's status.
If the table is absent it creates it. It then polls until the table is
`ACTIVE`: attempts 0 to 20, so at most 21 polls, 5 seconds apart. It then
reads back the table's ARN and returns the event with a `tableArn` field added.
The part worth verifying is the reconciliation state machine. This model covers
it in two layers:

- **Specification functions** (`reconciliation.dfy`, `invocation.dfy`). These
  are pure functions of an *oracle*, the datatype `Remote.Oracle`. Describe call
  number n gets the reply `describe(n)`. Create call number n gets the reply
  `create(n)`. `clientError` says whether building the client fails. Each
  function starts at describe call `k` and also returns `next`: it made the
  describe calls `k` to `next - 1`. It also returns the table names it passed
  to create calls, so the contracts can count remote calls.
- **The program** (`remote.dfy`, `index.dfy`). `Remote.Service` is the database
  client as a class. It holds the oracle, a describe-call counter and a log of
  create requests, and each call takes the oracle's next reply. Every function
  of `index.py` that calls the client is a method of the module `Index` that
  calls it in the same order, with the same branches. `get_retries`, which only
  returns the constant 20, is the function `Reconciliation.GetRetries`. Each method is proved to return exactly
  what its specification function gives for the client's state before the call,
  and to leave the counter and log where that function says. `Index.Handler`
  updates the caller's `Event` object in place, as `set_` does.

Errors form one datatype, `Reconciliation.Error`. A client exception is passed
on unchanged as `ServiceError(fault)`. The fixed-text exceptions of the source
("Table is inaccessible to delete.", the missing-ARN message, the blank-name
message) are their own variants. The timeout carries
`(tableName, desiredStatus, currentTime, maxTime)`.

## Notes on the source's behaviour

- The timeout error reports `currentTime` = 21 and `maxTime` = 20, because
  `wait_on_desired_status` gives up when the counter exceeds 20
  (index.py:129-131).
- `get_table_arn` passes a describe exception on unchanged (index.py:185-186).
  Only a response without an ARN has its own error (`MissingArn`).
- The waiter probes at most 21 times: attempts 0 to 20.

## Model

| member | source | states |
|---|---|---|
| Reconciliation.GetRetries | index.py:7-8 | the waiter's attempt budget is 20 |
| Invocation.ReadTableName | index.py:189-190 | the name is blank exactly when `tableName` is missing, null or empty. A non-empty string names the table. Any other value is not a string |
| Reconciliation.Classify | index.py:17-25 | a not-found exception gives success with `DOESNOTEXIST`; any other exception gives failure carrying that exception; a response gives success with its status. Failure happens exactly for the non-not-found exceptions |
| Reconciliation.Wait | index.py:127-142 | out of budget: timeout with no probe. Otherwise 1 to `maxTime - currentTime + 1` probes, and every probe before the last returned a status other than the desired one. Success returns the desired status, which the last probe saw. A non-timeout error is the last probe's own error. A timeout comes after the whole budget, ends on a mismatch and reports attempt `maxTime + 1` |
| Reconciliation.WaitStopsAtFirstDecisiveProbe | index.py:133-138 | the first probe in the budget that fails or sees the desired status decides the wait. The waiter returns that probe's classification after exactly `j + 1` probes. An error ends the wait whatever the attempt counter is, so probe errors use up no retries |
| Reconciliation.WaitTimesOut | index.py:127-142 | if every probe in the budget is a mismatch, the waiter fails with `Timeout(name, desired, maxTime + 1, maxTime)` after `maxTime - currentTime + 1` probes |
| Reconciliation.Reconcile | index.py:144-175 | 1 to 22 probes. One create call for this table exactly when the first probe found no table, none otherwise. Success only after a probe saw `ACTIVE`. An error is a client exception, the 21-of-20 timeout, or `Inaccessible` |
| Reconciliation.ReconcileWhenActive | index.py:150-152 | first probe `ACTIVE`: success, one probe, no create call, no waiting |
| Reconciliation.ReconcileWhenAbsent | index.py:154-165 | first probe `DOESNOTEXIST`: exactly one create call. A failed create returns its exception without waiting. Otherwise the result is the waiter's result for `ACTIVE` with budget 20 from attempt 0, after one probe plus the waiter's probes |
| Reconciliation.ReconcileWhenCreating | index.py:167-173 | first probe `CREATING`: no create call; the result and probes are the waiter's, plus the first probe |
| Reconciliation.ReconcileWhenInaccessible | index.py:175 | any other probed status: fails with `Inaccessible` after one probe. It neither creates nor waits |
| Reconciliation.ReconcileWhenProbeFails | index.py:145-148 | a failing first probe: its error is returned before any branch runs. One probe, no create call |
| Reconciliation.ReconcileTimeoutLaw | index.py:129-131 | if the table is being created, or absent and its create accepted, and none of the next 21 probes sees `ACTIVE`: fails with `Timeout(name, "ACTIVE", 21, 20)` after 22 probes |
| Reconciliation.ReconcileSucceedsOnceActive | index.py:137-138 | in the same situations, if the waiter's probe `j` (with `j` at most 20) is the first to see `ACTIVE`: success after `j + 2` probes |
| Reconciliation.SecondReconcileCreatesNothing | index.py:144-152 | idempotence: after a success, on a service that never reports an `ACTIVE` table in another status later, a later reconciliation makes no create call and one probe. It only succeeds or passes on a client exception |
| Reconciliation.TableArn | index.py:177-186 | success exactly when the response carries an ARN other than the `???` sentinel, and then yields it. A missing ARN, or the sentinel itself, gives `MissingArn`. An exception, including not-found, is passed on unchanged |
| Invocation.Handle | index.py:188-212 | at most 23 probes and at most one create call. Success only for a valid table name and a built client, after at least two describe calls, the second-to-last of which saw `ACTIVE`. The output is then the input event with `tableArn` set to the ARN from the last describe reply |
| Invocation.HandleRejectsBlankName | index.py:189-193 | the result is `BlankTableName` exactly when `tableName` is missing, null or empty. Then no remote call is made |
| Invocation.HandleClientUnavailable | index.py:195-198 | for a non-blank name, a client that cannot be built fails the call before any remote call |
| Invocation.HandleSuccessSetsOnlyArn | index.py:205-212 | on success the output has the input's keys plus `tableArn`, every other field unchanged. `tableArn` is the last reply's ARN, never `???` |
| Invocation.HandleMissingArnIsDistinct | index.py:180-182 | `MissingArn` arises exactly when the name is valid, the client was built, reconciliation succeeded, and the final describe reply has no ARN |
| Invocation.HandlePassesReconcileOn | index.py:200-208 | with a valid name and a built client: the handler makes exactly the reconciler's create calls. It returns the reconciler's error unchanged, with the same probes. After a success it makes one more describe call. That call's exception or missing ARN is the handler's error; otherwise the output is the event with `tableArn` set to that call's ARN |
| Invocation.HandleCreatesOnlyWhenAbsent | index.py:154-155 | the handler sends a create request exactly when the name is valid, the client is built and the first probe finds no table. It then sends exactly one, for this table |
| Invocation.HandleProbeFaultFailsAtOnce | index.py:145-148 | a first probe that raises anything but not-found fails the routine with that cause, after one describe call and no create call |
| Invocation.HandleWhenActive | index.py:150-152 | a table found `ACTIVE` at once: no create call, two describe calls, and the result is what the second one says about the ARN (the event with `tableArn` set, or that call's error) |
| Invocation.HandleTimeoutLaw | index.py:160-163 | if the table is being created or accepted for creation, and none of the 21 polls sees `ACTIVE`, the routine fails with `Timeout(name, "ACTIVE", 21, 20)` after 22 describe calls |
| Invocation.HandleTwiceCreatesOnce | index.py:200-203 | a second invocation for the same table, after a success, on a service that keeps `ACTIVE` tables `ACTIVE`: no create call, at most two probes, failure only by a client exception or a missing ARN |
| Invocation.OrdersScenario | index.py:188-212 | `orders` is absent, then `CREATING` at the first poll, then `ACTIVE`. The result is the event with `tableArn = arn:svc:table/orders`, after 4 probes and one create call, for `orders` |
| Remote.Service.DescribeTable | index.py:19 | returns the oracle's reply for the current describe-call number and advances the counter; the create log is unchanged |
| Remote.Service.CreateTable | index.py:29 | returns the oracle's reply for the current create-call number and appends the table name to the create log |
| Index.GetDynamo | index.py:10-15 | fails, with the cause, exactly when building the client fails |
| Index.GetTableStatus | index.py:17-25 | one describe call; the result is `Classify` of its reply |
| Index.CreateTable | index.py:27-124 | one create call, logged with the table name; the result is its verdict |
| Index.WaitOnDesiredStatus | index.py:127-142 | the recursive waiter returns `Wait`'s result and makes `Wait`'s number of probes, with no create call |
| Index.AttemptCreateTable | index.py:144-175 | returns `Reconcile`'s result, making its probes and exactly its create calls |
| Index.GetTableArn | index.py:177-186 | one describe call; the result is `TableArn` of its reply |
| Index.Handler | index.py:188-212 | makes `Handle`'s remote calls. On success it sets `tableArn` on the caller's event in place and returns that same object. On failure the event is untouched and `Handle`'s error is returned |
| Index.ProvisionNamedTable | index.py:200-212 | the part of `handler` after validation and client construction: the same contract as `Index.Handler`, for a valid name and a built client |

## Left out

- The table schema passed to `create_table` (attribute definitions, key schema, the three secondary indexes, capacities) is static configuration. A create call is an opaque accept-or-fail reply of the oracle.
- `sleep(5)` between attempts and all `print` logging have no observable effect in the model.
- `boto3.client('dynamodb')` is not modelled. Its possible failure is the oracle's `clientError`.
- pydash `get`/`set_` path semantics are not modelled. The keys `tableName` and `tableArn` contain no dots, so they are direct map lookup and update.
- Exception objects and `Template` message formatting are not modelled. Errors are the `Error` datatype.
- The `__main__` block is not modelled.
- The oracle's replies do not depend on the table name sent. Each oracle describes the one table being provisioned.
- A describe response without a `TableStatus` is not modelled: a status is always a string. In the source such a `None` status would be reported as inaccessible by `attempt_create_table`, and would make the waiter's progress message raise a `TypeError`.
- Event values other than strings and null are collapsed into `Value.Other`. The source accepts such a `tableName` and passes it to `describe_table`. There, the client library's own parameter validation raises. The model takes this as given (`Fault.ParamValidation`, with no request sent). It is not derived from any code in the repository.
- Invocation.HandleTwiceCreatesOnce: does not promise that the second invocation succeeds, because its describe calls may still fail or omit the ARN.
