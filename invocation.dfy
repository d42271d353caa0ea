/** The entry point of the provisioning routine as a pure function of the
    oracle and the caller's event: validate `tableName`, build the client,
    reconcile, read back the ARN and add it to the event as `tableArn`. */
module Invocation {
  import opened Wrappers
  import opened Remote
  import opened Reconciliation

  /** A value in the caller's event. `Other` stands for every value that is
      neither a string nor null (numbers, booleans, lists, objects), by its
      JSON text. */
  datatype Value = Null | Str(s: string) | Other(json: string)

  type EventFields = map<string, Value>

  const TableNameKey := "tableName"
  const TableArnKey := "tableArn"

  /** What the handler makes of the event's `tableName`: missing, null or the
      empty string is blank; a non-empty string names the table; any other
      value passes the check but is not a string. */
  datatype TableNameField = Blank | Named(name: string) | NotAString

  function ReadTableName(event: EventFields): (f: TableNameField)
    ensures f == Blank <==>
              TableNameKey !in event || event[TableNameKey] == Null || event[TableNameKey] == Str("")
    ensures f.Named? ==> TableNameKey in event && event[TableNameKey] == Str(f.name) && f.name != ""
    ensures f == NotAString <==> TableNameKey in event && event[TableNameKey].Other?
  {
    if TableNameKey !in event then Blank
    else
      match event[TableNameKey]
      case Null => Blank
      case Str(s) => if s == "" then Blank else Named(s)
      case Other(_) => NotAString
  }

  datatype Handled = Handled(result: Result<EventFields, Error>, next: nat, creates: seq<string>)

  /** handler, starting at describe call `k` and create call `c`. A
      non-string table name gets past validation and client construction, and
      the client library then rejects it in the first describe call, before any
      request is sent. */
  function Handle(o: Oracle, event: EventFields, k: nat, c: nat): (h: Handled)
    ensures k <= h.next <= k + GetRetries() + 3 && |h.creates| <= 1
    ensures h.result.Ok? ==>
              && ReadTableName(event).Named?
              && o.clientError.None?
              && h.next >= k + 2
              && Classify(o.describe(h.next - 2)) == Ok(Active)
              && var arn := TableArn(o.describe(h.next - 1));
                 arn.Ok? && h.result.value == event[TableArnKey := Str(arn.value)]
  {
    var field := ReadTableName(event);
    if field.Blank? then Handled(Err(BlankTableName), k, [])
    else if o.clientError.Some? then Handled(Err(ClientUnavailable(o.clientError.value)), k, [])
    else if field.NotAString? then Handled(Err(ServiceError(ParamValidation)), k, [])
    else
      var rc := Reconcile(o, k, c, field.name);
      if rc.result.Err? then Handled(Err(rc.result.error), rc.next, rc.creates)
      else
        match TableArn(o.describe(rc.next))
        case Err(e) => Handled(Err(e), rc.next + 1, rc.creates)
        case Ok(arn) => Handled(Ok(event[TableArnKey := Str(arn)]), rc.next + 1, rc.creates)
  }

  /** A missing, null or empty `tableName` fails with its own error, and only
      then: no client is built and no remote call is made. */
  lemma HandleRejectsBlankName(o: Oracle, event: EventFields, k: nat, c: nat)
    ensures Handle(o, event, k, c).result == Err(BlankTableName)
        <==> TableNameKey !in event || event[TableNameKey] == Null || event[TableNameKey] == Str("")
    ensures Handle(o, event, k, c).result == Err(BlankTableName) ==>
              Handle(o, event, k, c).next == k && Handle(o, event, k, c).creates == []
  {
  }

  /** A failure to build the client is raised before any remote call. */
  lemma HandleClientUnavailable(o: Oracle, event: EventFields, k: nat, c: nat)
    requires ReadTableName(event) != Blank
    requires o.clientError.Some?
    ensures Handle(o, event, k, c) == Handled(Err(ClientUnavailable(o.clientError.value)), k, [])
  {
  }

  /** On success the returned event is the input with `tableArn` set to the
      ARN of the last describe reply, and nothing else changed. */
  lemma HandleSuccessSetsOnlyArn(o: Oracle, event: EventFields, k: nat, c: nat)
    requires Handle(o, event, k, c).result.Ok?
    ensures var h := Handle(o, event, k, c);
            var out := h.result.value;
            && out.Keys == event.Keys + {TableArnKey}
            && (forall key :: key in event && key != TableArnKey ==> key in out && out[key] == event[key])
            && h.next > k
            && var reply := o.describe(h.next - 1);
               && reply.Table? && reply.arn.Some? && reply.arn.value != ArnSentinel
               && TableArnKey in out && out[TableArnKey] == Str(reply.arn.value)
  {
    var h := Handle(o, event, k, c);
    var arn := TableArn(o.describe(h.next - 1));
    assert arn.Ok? && h.result.value == event[TableArnKey := Str(arn.value)];
  }

  /** A describe reply without an ARN is a failure of its own kind, and it
      arises only after reconciliation has succeeded. */
  lemma HandleMissingArnIsDistinct(o: Oracle, event: EventFields, k: nat, c: nat)
    ensures Handle(o, event, k, c).result == Err(MissingArn) <==>
              && ReadTableName(event).Named?
              && o.clientError.None?
              && var rc := Reconcile(o, k, c, ReadTableName(event).name);
                 rc.result.Ok? && TableArn(o.describe(rc.next)) == Err(MissingArn)
  {
  }

  /** Once the name is valid and the client is built, the handler makes the
      reconciler's create calls, surfaces the reconciler's error unchanged,
      and otherwise makes one more describe call, whose failure it surfaces. */
  lemma HandlePassesReconcileOn(o: Oracle, event: EventFields, k: nat, c: nat)
    requires ReadTableName(event).Named?
    requires o.clientError.None?
    ensures var rc := Reconcile(o, k, c, ReadTableName(event).name);
            var h := Handle(o, event, k, c);
            && h.creates == rc.creates
            && (rc.result.Err? ==> h == Handled(Err(rc.result.error), rc.next, rc.creates))
            && (rc.result.Ok? ==> h.next == rc.next + 1)
            && (rc.result.Ok? && TableArn(o.describe(rc.next)).Err? ==>
                  h.result == Err(TableArn(o.describe(rc.next)).error))
            && (rc.result.Ok? && o.describe(rc.next).DescribeFault? ==>
                  h.result == Err(ServiceError(o.describe(rc.next).fault)))
            && (rc.result.Ok? && TableArn(o.describe(rc.next)).Ok? ==>
                  h.result == Ok(event[TableArnKey := Str(TableArn(o.describe(rc.next)).value)]))
  {
  }

  /** The handler sends a create request, exactly one and for this table,
      exactly when the name is valid, the client is built and the first probe
      finds no table. */
  lemma HandleCreatesOnlyWhenAbsent(o: Oracle, event: EventFields, k: nat, c: nat)
    ensures Handle(o, event, k, c).creates != [] <==>
              && ReadTableName(event).Named?
              && o.clientError.None?
              && Classify(o.describe(k)) == Ok(DoesNotExist)
    ensures Handle(o, event, k, c).creates != [] ==>
              Handle(o, event, k, c).creates == [ReadTableName(event).name]
  {
    if ReadTableName(event).Named? && o.clientError.None? {
      HandlePassesReconcileOn(o, event, k, c);
    }
  }

  /** A failing first probe (permission denied, throttling, ...) fails the
      routine at once with that cause: one describe call, no create, no wait. */
  lemma HandleProbeFaultFailsAtOnce(o: Oracle, event: EventFields, k: nat, c: nat)
    requires ReadTableName(event).Named?
    requires o.clientError.None?
    requires o.describe(k).DescribeFault? && o.describe(k).fault != ResourceNotFound
    ensures Handle(o, event, k, c) == Handled(Err(ServiceError(o.describe(k).fault)), k + 1, [])
  {
    ReconcileWhenProbeFails(o, k, c, ReadTableName(event).name);
  }

  /** A table found `ACTIVE` at once is not created: the handler makes two
      describe calls and returns what the second one says about the ARN. */
  lemma HandleWhenActive(o: Oracle, event: EventFields, k: nat, c: nat)
    requires ReadTableName(event).Named?
    requires o.clientError.None?
    requires Classify(o.describe(k)) == Ok(Active)
    ensures var h := Handle(o, event, k, c);
            var arn := TableArn(o.describe(k + 1));
            && h.creates == [] && h.next == k + 2
            && (arn.Ok? ==> h.result == Ok(event[TableArnKey := Str(arn.value)]))
            && (arn.Err? ==> h.result == Err(arn.error))
  {
    ReconcileWhenActive(o, k, c, ReadTableName(event).name);
  }

  /** Timeout law at the entry point: if the table is being created, or absent
      with its create accepted, and none of the 21 polls sees `ACTIVE`, the
      routine fails reporting attempt 21 of 20 after 22 describe calls. */
  lemma HandleTimeoutLaw(o: Oracle, event: EventFields, k: nat, c: nat)
    requires ReadTableName(event).Named?
    requires o.clientError.None?
    requires WaitsAfterFirstProbe(o, k, c)
    requires forall i: nat :: k + 1 <= i <= k + 21 ==> Mismatch(o.describe(i), Active)
    ensures Handle(o, event, k, c).result == Err(Timeout(ReadTableName(event).name, Active, 21, 20))
    ensures Handle(o, event, k, c).next == k + 22
  {
    ReconcileTimeoutLaw(o, k, c, ReadTableName(event).name);
    HandlePassesReconcileOn(o, event, k, c);
  }

  /** Idempotence: invoking the handler again, for the same table, after a
      success, on a service that keeps the table `ACTIVE`, sends no create
      request and makes at most two describe calls; it can fail only on a
      describe error or a missing ARN. */
  lemma HandleTwiceCreatesOnce(o: Oracle, event: EventFields, k: nat, c: nat, again: EventFields)
    requires Handle(o, event, k, c).result.Ok?
    requires ReadTableName(again) == ReadTableName(event)
    requires ActiveIsStable(o)
    ensures var h := Handle(o, event, k, c);
            var h2 := Handle(o, again, h.next, c + |h.creates|);
            && h2.creates == []
            && h2.next <= h.next + 2
            && (h2.result.Err? ==> h2.result.error.ServiceError? || h2.result.error == MissingArn)
  {
    var h := Handle(o, event, k, c);
    var k2, c2 := h.next, c + |h.creates|;
    assert StaysActive(o, h.next - 2, k2);
    if Classify(o.describe(k2)).Err? {
      HandleProbeFaultFailsAtOnce(o, again, k2, c2);
    } else {
      HandleWhenActive(o, again, k2, c2);
    }
  }

  /** A service on which `orders` does not exist, is `CREATING` at the first
      poll and `ACTIVE` from the second, with ARN `arn:svc:table/orders`. */
  function OrdersService(): (o: Oracle) {
    Oracle(
      None,
      (n: nat) =>
        if n == 0 then DescribeFault(ResourceNotFound)
        else if n == 1 then Table(Creating, None)
        else Table(Active, Some("arn:svc:table/orders")),
      (n: nat) => CreateAccepted)
  }

  /** The routine creates `orders` once, polls twice, reads the ARN and
      returns the event with `tableArn` added: four describe calls in all. */
  lemma OrdersScenario()
    ensures Handle(OrdersService(), map[TableNameKey := Str("orders")], 0, 0)
         == Handled(Ok(map[TableNameKey := Str("orders"), TableArnKey := Str("arn:svc:table/orders")]),
                    4, ["orders"])
  {
    ReconcileSucceedsOnceActive(OrdersService(), 0, 0, "orders", 1);
  }
}
