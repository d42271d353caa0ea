/** The reconciliation state machine of the provisioning routine, as pure
    functions of the oracle: status classification, the bounded waiter, the
    reconciler's four-way decision and the ARN lookup. Each function starts at
    describe call `k` and says where it leaves off (`next`, the index of the
    first describe call it does not make) and which create calls it makes. */
module Reconciliation {
  import opened Wrappers
  import opened Remote

  const Active := "ACTIVE"
  const Creating := "CREATING"
  /** The status the prober reports for a table the service does not have. */
  const DoesNotExist := "DOESNOTEXIST"
  /** The default a describe response without an ARN is read as. */
  const ArnSentinel := "???"

  /** get_retries: the waiter's attempt budget. */
  function GetRetries(): (n: int)
    ensures n == 20
  {
    20
  }

  datatype Error =
    | ServiceError(fault: Fault)        // an exception from a client call, passed on unchanged
    | ClientUnavailable(cause: string)  // building the client failed
    | Timeout(tableName: string, desiredStatus: string, currentTime: int, maxTime: int)
    | Inaccessible                      // "Table is inaccessible to delete."
    | MissingArn                        // "Describe table failed to give us an Arn in the result."
    | BlankTableName                    // "tableName not found in event or it was blank"

  /** get_table_status: a not-found exception is a successful `DOESNOTEXIST`,
      any other exception a failure, a response its reported status. */
  function Classify(reply: DescribeReply): (r: Result<string, Error>)
    ensures r.Err? <==> reply.DescribeFault? && reply.fault != ResourceNotFound
    ensures r.Err? ==> r.error == ServiceError(reply.fault)
    ensures reply.Table? ==> r == Ok(reply.status)
    ensures reply == DescribeFault(ResourceNotFound) ==> r == Ok(DoesNotExist)
  {
    match reply
    case Table(status, _) => Ok(status)
    case DescribeFault(ResourceNotFound) => Ok(DoesNotExist)
    case DescribeFault(f) => Err(ServiceError(f))
  }

  /** A probe that neither failed nor reached `desired`: it costs one attempt. */
  predicate Mismatch(reply: DescribeReply, desired: string) {
    Classify(reply).Ok? && Classify(reply).value != desired
  }

  /** A verdict, and `next`: the describe calls made are `k` to `next - 1`. */
  datatype Waited = Waited(result: Result<string, Error>, next: nat)

  /** wait_on_desired_status, starting at describe call `k`: out of budget, it
      fails without probing; otherwise it probes once and stops on a probe
      error or on `desired`, and else tries again with the next attempt. */
  function Wait(o: Oracle, k: nat, name: string, desired: string, maxTime: int, currentTime: int): (w: Waited)
    decreases maxTime - currentTime + 1
    ensures currentTime > maxTime ==> w == Waited(Err(Timeout(name, desired, currentTime, maxTime)), k)
    ensures currentTime <= maxTime ==> k + 1 <= w.next <= k + maxTime - currentTime + 1
    ensures forall i: nat {:trigger Mismatch(o.describe(i), desired)} :: k <= i < w.next - 1 ==> Mismatch(o.describe(i), desired)
    ensures w.result.Ok? ==> w.result.value == desired
    ensures w.result.Err? && !w.result.error.Timeout? ==>
              w.next > k && Classify(o.describe(w.next - 1)) == w.result
    ensures w.result.Err? && w.result.error.Timeout? && currentTime <= maxTime ==>
              && w.next == k + maxTime - currentTime + 1
              && Mismatch(o.describe(w.next - 1), desired)
              && w.result.error == Timeout(name, desired, maxTime + 1, maxTime)
    ensures w.result.Ok? ==> w.next > k && Classify(o.describe(w.next - 1)) == Ok(desired)
  {
    if currentTime > maxTime then
      Waited(Err(Timeout(name, desired, currentTime, maxTime)), k)
    else
      match Classify(o.describe(k))
      case Err(e) => Waited(Err(e), k + 1)
      case Ok(status) =>
        if status == desired then Waited(Ok(status), k + 1)
        else Wait(o, k + 1, name, desired, maxTime, currentTime + 1)
  }

  /** The waiter is decided by the first probe within the budget that is not a
      mismatch: it returns exactly that probe's classification (an error
      unchanged, or the desired status), after exactly `j + 1` probes. A probe
      error ends the wait whatever attempt it came at. */
  lemma {:induction false} WaitStopsAtFirstDecisiveProbe(
    o: Oracle, k: nat, name: string, desired: string, maxTime: int, currentTime: int, j: nat)
    requires currentTime + j <= maxTime
    requires forall i: nat :: k <= i < k + j ==> Mismatch(o.describe(i), desired)
    requires !Mismatch(o.describe(k + j), desired)
    ensures Wait(o, k, name, desired, maxTime, currentTime) == Waited(Classify(o.describe(k + j)), k + j + 1)
    decreases j
  {
    if j > 0 {
      assert Mismatch(o.describe(k), desired);
      WaitStopsAtFirstDecisiveProbe(o, k + 1, name, desired, maxTime, currentTime + 1, j - 1);
    }
  }

  /** When every probe of the budget is a mismatch, the waiter fails with the
      timeout error after `maxTime - currentTime + 1` probes, reporting
      `maxTime + 1` as the attempt it gave up at. */
  lemma {:induction false} WaitTimesOut(
    o: Oracle, k: nat, name: string, desired: string, maxTime: int, currentTime: int)
    requires currentTime <= maxTime
    requires forall i: nat :: k <= i <= k + (maxTime - currentTime) ==> Mismatch(o.describe(i), desired)
    ensures Wait(o, k, name, desired, maxTime, currentTime)
         == Waited(Err(Timeout(name, desired, maxTime + 1, maxTime)), k + maxTime - currentTime + 1)
    decreases maxTime - currentTime
  {
    assert Mismatch(o.describe(k), desired);
    if currentTime < maxTime {
      WaitTimesOut(o, k + 1, name, desired, maxTime, currentTime + 1);
    }
  }

  datatype Reconciled = Reconciled(result: Result<(), Error>, next: nat, creates: seq<string>)

  /** The waiter's verdict without its status value. */
  function Succeeded(waited: Result<string, Error>): (r: Result<(), Error>) {
    if waited.Ok? then Ok(()) else Err(waited.error)
  }

  /** The waiter as the reconciler runs it: for `ACTIVE`, with the full budget,
      from attempt 0. */
  function WaitUntilActive(o: Oracle, k: nat, name: string): (w: Waited) {
    Wait(o, k, name, Active, GetRetries(), 0)
  }

  /** attempt_create_table, starting at describe call `k` and create call `c`:
      probe once, then succeed, create and wait, wait, or fail. It creates
      exactly when the probe found no table, never probes more than 22 times,
      and succeeds only once a probe has seen the table `ACTIVE`. */
  function Reconcile(o: Oracle, k: nat, c: nat, name: string): (r: Reconciled)
    ensures k + 1 <= r.next <= k + GetRetries() + 2
    ensures r.creates == if Classify(o.describe(k)) == Ok(DoesNotExist) then [name] else []
    ensures r.result.Ok? ==> Classify(o.describe(r.next - 1)) == Ok(Active)
    ensures r.result.Err? ==>
              || r.result.error.ServiceError?
              || r.result.error == Timeout(name, Active, GetRetries() + 1, GetRetries())
              || r.result.error == Inaccessible
  {
    match Classify(o.describe(k))
    case Err(e) => Reconciled(Err(e), k + 1, [])
    case Ok(status) =>
      if status == Active then Reconciled(Ok(()), k + 1, [])
      else if status == DoesNotExist then
        match o.create(c)
        case CreateFault(f) => Reconciled(Err(ServiceError(f)), k + 1, [name])
        case CreateAccepted =>
          var w := WaitUntilActive(o, k + 1, name);
          Reconciled(Succeeded(w.result), w.next, [name])
      else if status == Creating then
        var w := WaitUntilActive(o, k + 1, name);
        Reconciled(Succeeded(w.result), w.next, [])
      else Reconciled(Err(Inaccessible), k + 1, [])
  }

  lemma ReconcileWhenActive(o: Oracle, k: nat, c: nat, name: string)
    requires Classify(o.describe(k)) == Ok(Active)
    ensures Reconcile(o, k, c, name) == Reconciled(Ok(()), k + 1, [])
  {
  }

  lemma ReconcileWhenAbsent(o: Oracle, k: nat, c: nat, name: string)
    requires Classify(o.describe(k)) == Ok(DoesNotExist)
    ensures Reconcile(o, k, c, name).creates == [name]
    ensures o.create(c).CreateFault? ==>
              Reconcile(o, k, c, name) == Reconciled(Err(ServiceError(o.create(c).fault)), k + 1, [name])
    ensures o.create(c).CreateAccepted? ==>
              var w := WaitUntilActive(o, k + 1, name);
              Reconcile(o, k, c, name) == Reconciled(Succeeded(w.result), w.next, [name])
  {
  }

  lemma ReconcileWhenCreating(o: Oracle, k: nat, c: nat, name: string)
    requires Classify(o.describe(k)) == Ok(Creating)
    ensures var w := WaitUntilActive(o, k + 1, name);
            Reconcile(o, k, c, name) == Reconciled(Succeeded(w.result), w.next, [])
  {
  }

  lemma ReconcileWhenInaccessible(o: Oracle, k: nat, c: nat, name: string)
    requires Classify(o.describe(k)).Ok?
    requires Classify(o.describe(k)).value !in {Active, DoesNotExist, Creating}
    ensures Reconcile(o, k, c, name) == Reconciled(Err(Inaccessible), k + 1, [])
  {
  }

  lemma ReconcileWhenProbeFails(o: Oracle, k: nat, c: nat, name: string)
    requires Classify(o.describe(k)).Err?
    ensures Reconcile(o, k, c, name) == Reconciled(Err(ServiceError(o.describe(k).fault)), k + 1, [])
  {
  }

  /** The reconciler waits only after finding the table being created, or
      after finding it absent and having its create request accepted. */
  predicate WaitsAfterFirstProbe(o: Oracle, k: nat, c: nat) {
    || Classify(o.describe(k)) == Ok(Creating)
    || (Classify(o.describe(k)) == Ok(DoesNotExist) && o.create(c).CreateAccepted?)
  }

  /** Timeout law: if none of the waiter's 21 probes sees `ACTIVE`, the
      reconciler fails reporting attempt 21 of 20, after 22 probes in all. */
  lemma ReconcileTimeoutLaw(o: Oracle, k: nat, c: nat, name: string)
    requires WaitsAfterFirstProbe(o, k, c)
    requires forall i: nat :: k + 1 <= i <= k + 21 ==> Mismatch(o.describe(i), Active)
    ensures Reconcile(o, k, c, name).result == Err(Timeout(name, Active, 21, 20))
    ensures Reconcile(o, k, c, name).next == k + 22
  {
    WaitTimesOut(o, k + 1, name, Active, GetRetries(), 0);
    var w := WaitUntilActive(o, k + 1, name);
    assert w == Waited(Err(Timeout(name, Active, 21, 20)), k + 22);
    assert Succeeded(w.result) == Err(Timeout(name, Active, 21, 20));
  }

  /** If the table shows up `ACTIVE` at the waiter's probe `j` (counted from
      0), the reconciler succeeds after `j + 2` probes. */
  lemma ReconcileSucceedsOnceActive(o: Oracle, k: nat, c: nat, name: string, j: nat)
    requires WaitsAfterFirstProbe(o, k, c)
    requires j <= GetRetries()
    requires forall i: nat :: k + 1 <= i < k + 1 + j ==> Mismatch(o.describe(i), Active)
    requires Classify(o.describe(k + 1 + j)) == Ok(Active)
    ensures Reconcile(o, k, c, name).result == Ok(())
    ensures Reconcile(o, k, c, name).next == k + j + 2
  {
    WaitStopsAtFirstDecisiveProbe(o, k + 1, name, Active, GetRetries(), 0, j);
  }

  /** A table reported `ACTIVE` at describe call `i` is, at a later call
      `j`, reported `ACTIVE` again or the probe fails. */
  predicate StaysActive(o: Oracle, i: nat, j: nat) {
    i <= j && Classify(o.describe(i)) == Ok(Active) ==>
      Classify(o.describe(j)) == Ok(Active) || Classify(o.describe(j)).Err?
  }

  /** A service on which a table, once reported `ACTIVE`, is never reported
      in another status later (probes may still fail). */
  ghost predicate ActiveIsStable(o: Oracle) {
    forall i: nat, j: nat {:trigger StaysActive(o, i, j)} :: StaysActive(o, i, j)
  }

  /** Idempotence: after a successful reconciliation, a later one on a service
      that keeps the table `ACTIVE` makes no create call, probes once and can
      only succeed or pass on a probe error. */
  lemma SecondReconcileCreatesNothing(o: Oracle, k: nat, c: nat, name: string, k2: nat, c2: nat)
    requires Reconcile(o, k, c, name).result.Ok?
    requires k2 >= Reconcile(o, k, c, name).next
    requires ActiveIsStable(o)
    ensures Reconcile(o, k2, c2, name).creates == []
    ensures Reconcile(o, k2, c2, name).next == k2 + 1
    ensures Reconcile(o, k2, c2, name).result.Ok? || Reconcile(o, k2, c2, name).result.error.ServiceError?
  {
    var seen := Reconcile(o, k, c, name).next - 1;
    assert Classify(o.describe(seen)) == Ok(Active);
    assert StaysActive(o, seen, k2);
    if Classify(o.describe(k2)).Err? {
      ReconcileWhenProbeFails(o, k2, c2, name);
    } else {
      ReconcileWhenActive(o, k2, c2, name);
    }
  }

  /** get_table_arn's reading of one describe reply: the ARN, with an absent
      ARN (read as the sentinel) a failure of its own; any exception, the
      not-found one included, is passed on unchanged. */
  function TableArn(reply: DescribeReply): (r: Result<string, Error>)
    ensures r.Ok? <==> reply.Table? && reply.arn.Some? && reply.arn.value != ArnSentinel
    ensures r.Ok? ==> r.value == reply.arn.value
    ensures r == Err(MissingArn) <==> reply.Table? && (reply.arn.None? || reply.arn.value == ArnSentinel)
    ensures reply.DescribeFault? ==> r == Err(ServiceError(reply.fault))
  {
    match reply
    case Table(_, arnField) =>
      var arn := arnField.GetOr(ArnSentinel);
      if arn == ArnSentinel then Err(MissingArn) else Ok(arn)
    case DescribeFault(f) => Err(ServiceError(f))
  }
}
