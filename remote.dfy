/** The managed table service, seen from the provisioning routine: an oracle
    that answers the n-th describe call and the n-th create call, and a client
    object that consumes those answers one call at a time and logs every create
    request it sends. */
module Remote {
  import opened Wrappers

  /** An exception raised by a call on the database client. */
  datatype Fault =
    | ResourceNotFound          // the service has no table of that name
    | ParamValidation           // the client library refused a parameter before sending the request
    | OtherFault(cause: string) // anything else: access denied, throttling, a network fault, ...

  /** What one describe-table call yields: the table's status and, when the
      response carries one, its resource identifier (ARN); or an exception. */
  datatype DescribeReply =
    | Table(status: string, arn: Option<string>)
    | DescribeFault(fault: Fault)

  /** What one create-table call yields: the request was accepted (creation
      goes on asynchronously), or an exception. */
  datatype CreateReply = CreateAccepted | CreateFault(fault: Fault)

  /** The environment of one or more invocations.  `clientError` says whether
      building the client fails (and with what cause); `describe(n)` and
      `create(n)` are the replies to the n-th describe and the n-th create
      call, counted from 0.  All non-determinism of the routine lives here. */
  datatype Oracle = Oracle(
    clientError: Option<string>,
    describe: nat -> DescribeReply,
    create: nat -> CreateReply)

  /** The database client: each call consumes the oracle's next reply. */
  class Service {
    const oracle: Oracle
    /** Number of describe calls made so far. */
    var probes: nat
    /** The table names passed to create calls so far, in order. */
    var created: seq<string>

    constructor (oracle: Oracle)
      ensures this.oracle == oracle && probes == 0 && created == []
    {
      this.oracle := oracle;
      probes := 0;
      created := [];
    }

    method DescribeTable(name: string) returns (reply: DescribeReply)
      modifies this
      ensures reply == oracle.describe(old(probes))
      ensures probes == old(probes) + 1 && created == old(created)
    {
      reply := oracle.describe(probes);
      probes := probes + 1;
    }

    method CreateTable(name: string) returns (reply: CreateReply)
      modifies this
      ensures reply == oracle.create(|old(created)|)
      ensures created == old(created) + [name] && probes == old(probes)
    {
      reply := oracle.create(|created|);
      created := created + [name];
    }
  }
}
