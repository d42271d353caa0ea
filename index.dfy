/** The provisioning routine as the program runs it: each function of the
    handler module becomes a method that calls the database client (which
    consumes the oracle's replies) and is proved to do exactly what the
    corresponding specification function of `Reconciliation` or `Invocation`
    says, from the client's state before the call. */
module Index {
  import opened Wrappers
  import opened Remote
  import opened Reconciliation
  import opened Invocation

  /** The caller's event dictionary, which the handler updates in place. */
  class Event {
    var fields: EventFields

    constructor (fields: EventFields)
      ensures this.fields == fields
    {
      this.fields := fields;
    }
  }

  /** get_dynamo: building the client fails exactly when the environment says so. */
  method GetDynamo(svc: Service) returns (r: Result<(), Error>)
    ensures r.Err? <==> svc.oracle.clientError.Some?
    ensures r.Err? ==> r.error == ClientUnavailable(svc.oracle.clientError.value)
  {
    match svc.oracle.clientError
    case Some(cause) => r := Err(ClientUnavailable(cause));
    case None => r := Ok(());
  }

  /** get_table_status: one describe call, classified. */
  method GetTableStatus(svc: Service, name: string) returns (r: Result<string, Error>)
    modifies svc
    ensures r == Classify(svc.oracle.describe(old(svc.probes)))
    ensures svc.probes == old(svc.probes) + 1 && svc.created == old(svc.created)
  {
    var reply := svc.DescribeTable(name);
    match reply
    case Table(status, _) => r := Ok(status);
    case DescribeFault(ResourceNotFound) => r := Ok(DoesNotExist);
    case DescribeFault(f) => r := Err(ServiceError(f));
  }

  /** create_table: one create call; the table's schema is not modelled. */
  method CreateTable(svc: Service, name: string) returns (r: Result<(), Error>)
    modifies svc
    ensures var reply := svc.oracle.create(|old(svc.created)|);
            r == if reply.CreateFault? then Err(ServiceError(reply.fault)) else Ok(())
    ensures svc.created == old(svc.created) + [name] && svc.probes == old(svc.probes)
  {
    var reply := svc.CreateTable(name);
    match reply
    case CreateAccepted => r := Ok(());
    case CreateFault(f) => r := Err(ServiceError(f));
  }

  /** wait_on_desired_status, by tail recursion on the attempt counter. */
  method WaitOnDesiredStatus(svc: Service, name: string, desired: string, maxTime: int, currentTime: int)
    returns (r: Result<string, Error>)
    modifies svc
    decreases maxTime - currentTime + 1
    ensures var w := Wait(svc.oracle, old(svc.probes), name, desired, maxTime, currentTime);
            r == w.result && svc.probes == w.next
    ensures svc.created == old(svc.created)
  {
    if currentTime > maxTime {
      return Err(Timeout(name, desired, currentTime, maxTime));
    }
    var status := GetTableStatus(svc, name);
    if status.Err? {
      return Err(status.error);
    }
    if status.value == desired {
      return Ok(status.value);
    }
    r := WaitOnDesiredStatus(svc, name, desired, maxTime, currentTime + 1);
  }

  /** attempt_create_table. */
  method AttemptCreateTable(svc: Service, name: string) returns (r: Result<(), Error>)
    modifies svc
    ensures var rc := Reconcile(svc.oracle, old(svc.probes), |old(svc.created)|, name);
            && r == rc.result
            && svc.probes == rc.next
            && svc.created == old(svc.created) + rc.creates
  {
    var status := GetTableStatus(svc, name);
    if status.Err? {
      return Err(status.error);
    }
    if status.value == Active {
      return Ok(());
    }
    if status.value == DoesNotExist {
      var created := CreateTable(svc, name);
      if created.Err? {
        return Err(created.error);
      }
      var waited := WaitOnDesiredStatus(svc, name, Active, GetRetries(), 0);
      if waited.Err? {
        return Err(waited.error);
      }
      return Ok(());
    }
    if status.value == Creating {
      var waited := WaitOnDesiredStatus(svc, name, Active, GetRetries(), 0);
      if waited.Err? {
        return Err(waited.error);
      }
      return Ok(());
    }
    return Err(Inaccessible);
  }

  /** get_table_arn: one describe call, read for its ARN. */
  method GetTableArn(svc: Service, name: string) returns (r: Result<string, Error>)
    modifies svc
    ensures r == TableArn(svc.oracle.describe(old(svc.probes)))
    ensures svc.probes == old(svc.probes) + 1 && svc.created == old(svc.created)
  {
    var reply := svc.DescribeTable(name);
    match reply
    case Table(_, arnField) =>
      var arn := arnField.GetOr(ArnSentinel);
      if arn == ArnSentinel {
        return Err(MissingArn);
      }
      r := Ok(arn);
    case DescribeFault(f) => r := Err(ServiceError(f));
  }

  /** handler: on success the caller's own event gains `tableArn` and is
      returned; on failure the event is left as it was and the error raised. */
  method Handler(svc: Service, event: Event) returns (r: Result<Event, Error>)
    modifies svc, event
    ensures var h := Handle(svc.oracle, old(event.fields), old(svc.probes), |old(svc.created)|);
            && svc.probes == h.next
            && svc.created == old(svc.created) + h.creates
            && (h.result.Ok? ==> r == Ok(event) && event.fields == h.result.value)
            && (h.result.Err? ==> r == Err(h.result.error) && event.fields == old(event.fields))
  {
    var field := ReadTableName(event.fields);
    if field.Blank? {
      return Err(BlankTableName);
    }
    var connected := GetDynamo(svc);
    if connected.Err? {
      return Err(connected.error);
    }
    if field.NotAString? {
      // The client library refuses a non-string TableName in the first
      // describe call, before any request is sent; get_table_status passes
      // that exception on.
      return Err(ServiceError(ParamValidation));
    }
    r := ProvisionNamedTable(svc, event, field.name);
  }

  /** The rest of handler, once the name is known and the client built:
      reconcile, read the ARN and set it on the event. */
  method ProvisionNamedTable(svc: Service, event: Event, name: string) returns (r: Result<Event, Error>)
    requires ReadTableName(event.fields) == Named(name) && svc.oracle.clientError.None?
    modifies svc, event
    ensures var h := Handle(svc.oracle, old(event.fields), old(svc.probes), |old(svc.created)|);
            && svc.probes == h.next
            && svc.created == old(svc.created) + h.creates
            && (h.result.Ok? ==> r == Ok(event) && event.fields == h.result.value)
            && (h.result.Err? ==> r == Err(h.result.error) && event.fields == old(event.fields))
  {
    ghost var k := svc.probes;
    ghost var rc := Reconcile(svc.oracle, k, |svc.created|, name);
    HandlePassesReconcileOn(svc.oracle, event.fields, k, |svc.created|);
    var reconciled := AttemptCreateTable(svc, name);
    if reconciled.Err? {
      return Err(reconciled.error);
    }
    var arn := GetTableArn(svc, name);
    assert arn == TableArn(svc.oracle.describe(rc.next));
    if arn.Err? {
      return Err(arn.error);
    }
    event.fields := event.fields[TableArnKey := Str(arn.value)];
    return Ok(event);
  }
}
