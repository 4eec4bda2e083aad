/**
 * The decision logic of the queue consumer (consumer.go) as pure functions:
 * the health filter over a registry scan, the worker selection `switch`, the
 * chain of early returns in handleBusinessLogic and processMessage, and the
 * effect of a whole received batch. The imperative consumer in module Consumer
 * is proved to behave exactly as these functions say.
 */
module Pipeline {
  import opened Wrappers
  import opened Payload
  import opened Registry
  import opened LambdaInvoke

  /** The integrity function every decoded message is first sent to. */
  const IntegrityLambda: string := "arn:aws:lambda:us-east-1:652276263254:function:validacionDatos-py"

  /** The only integrity status code that accepts a message. */
  const AcceptedStatus: int := 200

  /** A received queue message; each pointer field of the SDK type may be nil. */
  datatype Message = Message(messageId: Option<string>, receiptHandle: Option<string>, body: Option<string>)

  /** rand.Intn: for every positive bound n, a draw in [0, n). */
  type Intn = f: nat -> nat | forall n: nat :: 0 < n ==> f(n) < n
    witness (n: nat) => 0

  /** One registry row, paired with the outcome of attributevalue.UnmarshalMap on it. */
  type Row = Option<Lambda>

  /** The registry Scan call: an error, or the rows in scan order. */
  datatype ScanReply = ScanError | Rows(items: seq<Row>)

  /**
   * What the outside world answers during one pass of the pipeline over one message:
   * json.Unmarshal of a body into `any`; the Lambda service's reply to the integrity
   * call and, separately, its reply to the worker call (two network calls, so the
   * second may fail even where the first succeeded, whatever function it names);
   * json.Unmarshal of the integrity reply into LambdaResponse; the registry scan;
   * and the random source.
   */
  datatype Services = Services(
    parse: string -> Option<Json>,
    integrity: Json -> InvokeReply,
    worker: (string, Json) -> InvokeReply,
    decodeVerdict: string -> Option<LambdaResponse>,
    scan: ScanReply,
    intn: Intn)

  /** One Invoke request sent to the Lambda service: the function and the payload. */
  datatype Call = Call(functionName: string, payload: Json)

  /** Why handleBusinessLogic returned an error. */
  datatype BusinessError =
    | IntegrityCallFailed(cause: InvokeError)
    | VerdictUndecodable
    | SignatureMismatch(verdict: LambdaResponse)
    | ScanFailed
    | RowUndecodable
    | NoHealthyWorkers
    | WorkerCallFailed(arn: string, cause: InvokeError)

  /** The fate of one delivery: dropped as poison, acknowledged, or left for redelivery. */
  datatype Disposition = Dropped | Acknowledged | Deferred(reason: BusinessError)

  /** The Invoke requests handleBusinessLogic issued, and the error it returned (None for nil). */
  datatype Pass = Pass(calls: seq<Call>, error: Option<BusinessError>)

  /** Everything processMessage does to the outside world for one message. */
  datatype Effect = Effect(disposition: Disposition, calls: seq<Call>, deletes: seq<string>)

  /** Everything pollMessages does for one received batch. */
  datatype Trace = Trace(dispositions: seq<Disposition>, calls: seq<Call>, deletes: seq<string>)

  // ---------------------------------------------------------------------------
  // Health filter (the registry loop) and its reference definition
  // ---------------------------------------------------------------------------

  /**
   * The registry loop read row by row: None as soon as any row fails to
   * unmarshal, otherwise the healthy rows appended in scan order.
   */
  function HealthyRows(rows: seq<Row>): (r: Option<seq<Lambda>>)
    ensures r.Some? ==> |r.value| <= |rows| && forall l :: l in r.value ==> IsHealthy(l)
  {
    if rows == [] then Some([])
    else
      match HealthyRows(rows[..|rows| - 1])
      case None => None
      case Some(kept) =>
        match rows[|rows| - 1]
        case None => None
        case Some(l) => Some(if IsHealthy(l) then kept + [l] else kept)
  }

  /** Reference filter, defined from the front: the healthy records of `ls`, in order. */
  function FilterHealthy(ls: seq<Lambda>): (r: seq<Lambda>)
    ensures |r| <= |ls|
    ensures forall l :: l in r <==> l in ls && IsHealthy(l)
  {
    if ls == [] then []
    else if IsHealthy(ls[0]) then [ls[0]] + FilterHealthy(ls[1..])
    else FilterHealthy(ls[1..])
  }

  /** The records of rows that all unmarshalled. */
  function Unwrapped(rows: seq<Row>): (ls: seq<Lambda>)
    requires forall i :: 0 <= i < |rows| ==> rows[i].Some?
    ensures |ls| == |rows| && forall i :: 0 <= i < |rows| ==> rows[i] == Some(ls[i])
  {
    seq(|rows|, i requires 0 <= i < |rows| => rows[i].value)
  }

  lemma {:induction false} FilterHealthyAppend(a: seq<Lambda>, b: seq<Lambda>)
    ensures FilterHealthy(a + b) == FilterHealthy(a) + FilterHealthy(b)
  {
    if a != [] {
      assert (a + b)[0] == a[0] && (a + b)[1..] == a[1..] + b;
      FilterHealthyAppend(a[1..], b);
    } else {
      assert a + b == b;
    }
  }

  /** Once a prefix of the scan has a row that fails to unmarshal, so does every extension. */
  lemma {:induction false} HealthyRowsFailurePersists(rows: seq<Row>, k: nat)
    requires k <= |rows|
    requires HealthyRows(rows[..k]) == None
    ensures HealthyRows(rows) == None
    decreases |rows| - k
  {
    if k < |rows| {
      assert rows[..k + 1][..k] == rows[..k];
      HealthyRowsFailurePersists(rows, k + 1);
    } else {
      assert rows[..k] == rows;
    }
  }

  /** The whole scan fails exactly when some row fails to unmarshal, healthy rows notwithstanding. */
  lemma {:induction false} HealthyRowsFailsIff(rows: seq<Row>)
    ensures HealthyRows(rows) == None <==> exists i :: 0 <= i < |rows| && rows[i] == None
  {
    if rows != [] {
      var init := rows[..|rows| - 1];
      HealthyRowsFailsIff(init);
      if HealthyRows(init) == None {
        var i :| 0 <= i < |init| && init[i] == None;
        assert rows[i] == None;
      } else if rows[|rows| - 1] != None {
        forall i | 0 <= i < |rows| ensures rows[i] != None {
          if i < |rows| - 1 { assert rows[i] == init[i]; }
        }
      }
    }
  }

  /** When every row unmarshals, the loop keeps exactly the healthy records, in scan order. */
  lemma {:induction false} HealthyRowsIsFilter(rows: seq<Row>)
    requires forall i :: 0 <= i < |rows| ==> rows[i].Some?
    ensures HealthyRows(rows) == Some(FilterHealthy(Unwrapped(rows)))
  {
    if rows != [] {
      var n := |rows|;
      var init := rows[..n - 1];
      var last := rows[n - 1].value;
      HealthyRowsIsFilter(init);
      assert Unwrapped(rows) == Unwrapped(init) + [last];
      FilterHealthyAppend(Unwrapped(init), [last]);
      if IsHealthy(last) {
        assert FilterHealthy([last]) == [last];
      } else {
        assert FilterHealthy([last]) == [];
        assert FilterHealthy(Unwrapped(init)) + [] == FilterHealthy(Unwrapped(init));
      }
    }
  }

  /** Every record the loop keeps is a healthy record the scan returned, and vice versa. */
  lemma HealthyRowsMembers(rows: seq<Row>)
    requires HealthyRows(rows).Some?
    ensures forall l :: l in HealthyRows(rows).value <==> Some(l) in rows && IsHealthy(l)
  {
    HealthyRowsFailsIff(rows);
    HealthyRowsIsFilter(rows);
    forall l ensures l in Unwrapped(rows) <==> Some(l) in rows {
      if Some(l) in rows {
        var i :| 0 <= i < |rows| && rows[i] == Some(l);
        assert Unwrapped(rows)[i] == l;
      }
    }
  }

  // ---------------------------------------------------------------------------
  // Selection
  // ---------------------------------------------------------------------------

  /**
   * The selection `switch`: no candidate selects nothing, a single candidate is
   * taken without drawing, several are chosen at a random index.
   */
  function Select(lambdas: seq<Lambda>, intn: Intn): (r: Option<Lambda>)
    ensures r.None? <==> |lambdas| == 0
    ensures |lambdas| == 1 ==> r == Some(lambdas[0])
    ensures r.Some? ==> exists k :: 0 <= k < |lambdas| && r.value == lambdas[k]
  {
    if |lambdas| == 0 then None
    else if |lambdas| == 1 then Some(lambdas[0])
    else Some(lambdas[intn(|lambdas|)])
  }

  /** No candidate is excluded: for each one, some random source selects it. */
  lemma SelectReachesEvery(lambdas: seq<Lambda>, k: nat)
    requires k < |lambdas|
    ensures exists intn: Intn :: Select(lambdas, intn) == Some(lambdas[k])
  {
    var n := |lambdas|;
    var pick: nat -> nat := (m: nat) => if m == n then k else 0;
    assert forall m: nat :: 0 < m ==> pick(m) < m;
    var intn: Intn := pick;
    assert Select(lambdas, intn) == Some(lambdas[k]);
  }

  // ---------------------------------------------------------------------------
  // handleBusinessLogic and processMessage
  // ---------------------------------------------------------------------------

  /** The integrity call succeeded, its reply unmarshalled and carried status 200. */
  predicate IntegrityAccepted(msg: Json, svc: Services)
  {
    match InvokeSync(svc.integrity(msg))
    case Failure(_) => false
    case Success(payload) =>
      match svc.decodeVerdict(payload)
      case None => false
      case Some(v) => v.statusCode == AcceptedStatus
  }

  /** `arn` belongs to a row of the scan that unmarshalled and is flagged healthy. */
  ghost predicate HealthyMember(arn: string, scan: ScanReply)
  {
    scan.Rows? && exists l :: Some(l) in scan.items && IsHealthy(l) && l.arn == arn
  }

  /**
   * handleBusinessLogic: the integrity call first, always with the decoded message;
   * a worker call only after the integrity gate passed, only to a healthy
   * registry member, and with the same decoded message; success only when that
   * worker call succeeded.
   */
  function BusinessLogic(msg: Json, svc: Services): (p: Pass)
    ensures 1 <= |p.calls| <= 2
    ensures p.calls[0] == Call(IntegrityLambda, msg)
    ensures !IntegrityAccepted(msg, svc) ==> |p.calls| == 1 && p.error.Some?
    ensures |p.calls| == 2 ==>
              IntegrityAccepted(msg, svc) && p.calls[1].payload == msg &&
              HealthyMember(p.calls[1].functionName, svc.scan)
    ensures p.error.None? <==>
              |p.calls| == 2 && InvokeSync(svc.worker(p.calls[1].functionName, msg)).Success?
  {
    var integrityCall := Call(IntegrityLambda, msg);
    match InvokeSync(svc.integrity(msg))
    case Failure(e) => Pass([integrityCall], Some(IntegrityCallFailed(e)))
    case Success(payload) =>
      match svc.decodeVerdict(payload)
      case None => Pass([integrityCall], Some(VerdictUndecodable))
      case Some(verdict) =>
        if verdict.statusCode != AcceptedStatus then Pass([integrityCall], Some(SignatureMismatch(verdict)))
        else
          match svc.scan
          case ScanError => Pass([integrityCall], Some(ScanFailed))
          case Rows(items) =>
            match HealthyRows(items)
            case None => Pass([integrityCall], Some(RowUndecodable))
            case Some(lambdas) =>
              match Select(lambdas, svc.intn)
              case None => Pass([integrityCall], Some(NoHealthyWorkers))
              case Some(w) =>
                HealthyRowsMembers(items);
                var workerCall := Call(w.arn, msg);
                match InvokeSync(svc.worker(w.arn, msg))
                case Failure(e) => Pass([integrityCall, workerCall], Some(WorkerCallFailed(w.arn, e)))
                case Success(_) => Pass([integrityCall, workerCall], None)
  }

  /** The body decoded as direct JSON; a nil body does not decode. */
  function Decode(m: Message, parse: string -> Option<Json>): Option<Json>
  {
    if m.body.None? then None else parse(m.body.value)
  }

  /** deleteMessage: one DeleteMessage request for the receipt handle, none when it is nil. */
  function DeleteRequests(m: Message): (ds: seq<string>)
    ensures |ds| <= 1
    ensures ds == [] <==> m.receiptHandle.None?
    ensures forall h :: h in ds ==> m.receiptHandle == Some(h)
  {
    if m.receiptHandle.None? then [] else [m.receiptHandle.value]
  }

  /**
   * processMessage: a message that does not decode is dropped (deleted) without
   * any call; otherwise it is deleted exactly when handleBusinessLogic returned nil,
   * and is otherwise left in the queue. At most one delete is issued per message.
   */
  function ProcessMessage(m: Message, svc: Services): (e: Effect)
    ensures |e.deletes| <= 1
    ensures e.deletes != [] <==> !e.disposition.Deferred? && m.receiptHandle.Some?
    ensures forall h :: h in e.deletes ==> m.receiptHandle == Some(h)
    ensures e.disposition == Dropped <==> Decode(m, svc.parse).None?
    ensures e.disposition == Dropped ==> e.calls == []
    ensures e.disposition == Acknowledged ==>
              |e.calls| == 2 && InvokeSync(svc.worker(e.calls[1].functionName, e.calls[1].payload)).Success?
    ensures e.disposition.Deferred? ==> e.deletes == []
  {
    match Decode(m, svc.parse)
    case None => Effect(Dropped, [], DeleteRequests(m))
    case Some(msg) =>
      var p := BusinessLogic(msg, svc);
      match p.error
      case Some(f) => Effect(Deferred(f), p.calls, [])
      case None => Effect(Acknowledged, p.calls, DeleteRequests(m))
  }

  /**
   * pollMessages' batch loop: the messages are processed one after another, in
   * receipt order, the k-th against what the world answers during its own pass.
   */
  function Batch(msgs: seq<Message>, world: nat -> Services): (t: Trace)
    ensures |t.dispositions| == |msgs|
  {
    if msgs == [] then Trace([], [], [])
    else
      var n := |msgs| - 1;
      var t := Batch(msgs[..n], world);
      var e := ProcessMessage(msgs[n], world(n));
      Trace(t.dispositions + [e.disposition], t.calls + e.calls, t.deletes + e.deletes)
  }

  /** Every message of the batch is processed exactly once, in receipt order. */
  lemma {:induction false} BatchProcessesEachOnce(msgs: seq<Message>, world: nat -> Services)
    ensures |Batch(msgs, world).dispositions| == |msgs|
    ensures forall k :: 0 <= k < |msgs| ==>
              Batch(msgs, world).dispositions[k] == ProcessMessage(msgs[k], world(k)).disposition
  {
    if msgs != [] {
      var n := |msgs| - 1;
      var init := msgs[..n];
      BatchProcessesEachOnce(init, world);
      var t := Batch(init, world);
      var e := ProcessMessage(msgs[n], world(n));
      assert Batch(msgs, world).dispositions == t.dispositions + [e.disposition];
      forall k | 0 <= k < |msgs|
        ensures Batch(msgs, world).dispositions[k] == ProcessMessage(msgs[k], world(k)).disposition
      {
        if k < n {
          assert init[k] == msgs[k];
        }
      }
    }
  }

  /** A batch issues at most one delete per message, and deletes only handles of its own messages. */
  lemma {:induction false} BatchDeletesReceived(msgs: seq<Message>, world: nat -> Services)
    ensures |Batch(msgs, world).deletes| <= |msgs|
    ensures forall h :: h in Batch(msgs, world).deletes ==> exists m :: m in msgs && m.receiptHandle == Some(h)
  {
    if msgs != [] {
      var n := |msgs| - 1;
      BatchDeletesReceived(msgs[..n], world);
      forall h | h in Batch(msgs, world).deletes
        ensures exists m :: m in msgs && m.receiptHandle == Some(h)
      {
        if h in Batch(msgs[..n], world).deletes {
          var m :| m in msgs[..n] && m.receiptHandle == Some(h);
          assert m in msgs;
        } else {
          assert msgs[n] in msgs;
        }
      }
    }
  }

  // ---------------------------------------------------------------------------
  // Properties of the pipeline
  // ---------------------------------------------------------------------------

  /** A poison message is deleted if it has a handle, and neither function is invoked for it. */
  lemma PoisonMessageDropped(m: Message, svc: Services)
    requires m.body.None? || svc.parse(m.body.value).None?
    ensures ProcessMessage(m, svc) == Effect(Dropped, [], DeleteRequests(m))
  {
  }

  /** A failed, undecodable or non-200 integrity verdict stops the pipeline before the registry. */
  lemma IntegrityRejectionDefers(m: Message, svc: Services)
    requires Decode(m, svc.parse).Some?
    requires !IntegrityAccepted(Decode(m, svc.parse).value, svc)
    ensures var e := ProcessMessage(m, svc);
            e.disposition.Deferred? && e.deletes == [] &&
            e.calls == [Call(IntegrityLambda, Decode(m, svc.parse).value)]
  {
  }

  /** One row that fails to unmarshal fails the whole pass, even when healthy rows exist. */
  lemma UndecodableRowDefers(m: Message, svc: Services, i: nat)
    requires Decode(m, svc.parse).Some? && IntegrityAccepted(Decode(m, svc.parse).value, svc)
    requires svc.scan.Rows? && i < |svc.scan.items| && svc.scan.items[i] == None
    ensures ProcessMessage(m, svc).disposition == Deferred(RowUndecodable)
    ensures |ProcessMessage(m, svc).calls| == 1 && ProcessMessage(m, svc).deletes == []
  {
    HealthyRowsFailsIff(svc.scan.items);
  }

  /** A scan whose rows all unmarshal but none is healthy: no worker is invoked and nothing is deleted. */
  lemma NoHealthyWorkerDefers(m: Message, svc: Services)
    requires Decode(m, svc.parse).Some? && IntegrityAccepted(Decode(m, svc.parse).value, svc)
    requires svc.scan.Rows?
    requires forall i :: 0 <= i < |svc.scan.items| ==> svc.scan.items[i].Some? && !IsHealthy(svc.scan.items[i].value)
    ensures ProcessMessage(m, svc).disposition == Deferred(NoHealthyWorkers)
    ensures |ProcessMessage(m, svc).calls| == 1 && ProcessMessage(m, svc).deletes == []
  {
    var rows := svc.scan.items;
    HealthyRowsIsFilter(rows);
  }

  /** With exactly one healthy row, that worker is invoked, with the decoded message. */
  lemma SingleHealthySelected(m: Message, svc: Services, l: Lambda)
    requires Decode(m, svc.parse).Some? && IntegrityAccepted(Decode(m, svc.parse).value, svc)
    requires svc.scan.Rows? && HealthyRows(svc.scan.items) == Some([l])
    ensures ProcessMessage(m, svc).calls ==
            [Call(IntegrityLambda, Decode(m, svc.parse).value), Call(l.arn, Decode(m, svc.parse).value)]
  {
  }

  /**
   * The message is acknowledged exactly when it decoded, the integrity gate
   * passed, the scan produced a non-empty healthy list, and the invocation of the
   * selected worker succeeded.
   */
  lemma AcknowledgedIff(m: Message, svc: Services)
    ensures ProcessMessage(m, svc).disposition == Acknowledged <==>
            Decode(m, svc.parse).Some? &&
            IntegrityAccepted(Decode(m, svc.parse).value, svc) &&
            svc.scan.Rows? && HealthyRows(svc.scan.items).Some? &&
            var w := Select(HealthyRows(svc.scan.items).value, svc.intn);
            w.Some? && InvokeSync(svc.worker(w.value.arn, Decode(m, svc.parse).value)).Success?
  {
  }

  /** A failed invocation of the selected worker leaves the message in the queue. */
  lemma WorkerFailureDefers(m: Message, svc: Services, w: Lambda)
    requires Decode(m, svc.parse).Some? && IntegrityAccepted(Decode(m, svc.parse).value, svc)
    requires svc.scan.Rows? && HealthyRows(svc.scan.items).Some?
    requires Select(HealthyRows(svc.scan.items).value, svc.intn) == Some(w)
    requires InvokeSync(svc.worker(w.arn, Decode(m, svc.parse).value)).Failure?
    ensures var e := ProcessMessage(m, svc);
            e.disposition == Deferred(WorkerCallFailed(w.arn, InvokeSync(svc.worker(w.arn, Decode(m, svc.parse).value)).error)) &&
            e.deletes == [] &&
            e.calls == [Call(IntegrityLambda, Decode(m, svc.parse).value), Call(w.arn, Decode(m, svc.parse).value)]
  {
  }

  /**
   * The worker call is a call of its own: even a healthy worker registered under the
   * integrity function's own ARN, whose integrity call just succeeded, can fail as a
   * worker, and the message then stays in the queue.
   */
  lemma SecondCallToSameFunctionMayFail(m: Message, svc: Services, l: Lambda)
    requires Decode(m, svc.parse).Some? && IntegrityAccepted(Decode(m, svc.parse).value, svc)
    requires l.arn == IntegrityLambda && IsHealthy(l) && svc.scan == Rows([Some(l)])
    requires svc.worker(IntegrityLambda, Decode(m, svc.parse).value) == TransportError
    ensures ProcessMessage(m, svc).disposition == Deferred(WorkerCallFailed(IntegrityLambda, InvokeFailed))
    ensures ProcessMessage(m, svc).deletes == []
  {
    var one := [Some(l)];
    assert one[..0] == [] && [] + [l] == [l];
    assert HealthyRows(svc.scan.items) == Some([l]);
  }

  // ---------------------------------------------------------------------------
  // Worked scenarios
  // ---------------------------------------------------------------------------

  const WorkerA: Lambda := Lambda("a", "arn:a", "https://a", Healthy, "A", "")
  const WorkerB: Lambda := Lambda("b", "arn:b", "https://b", Healthy, "B", "")
  const WorkerC: Lambda := Lambda("c", "arn:c", "https://c", Unhealthy, "C", "")

  /** An order message, with a registry of two healthy workers and one unhealthy one. */
  lemma ScenarioTwoHealthyOfThree(m: Message, svc: Services, order: Json)
    requires Decode(m, svc.parse) == Some(order)
    requires svc.integrity(order) == Reply(None, "{\"statusCode\":200,\"body\":\"ok\"}")
    requires svc.decodeVerdict("{\"statusCode\":200,\"body\":\"ok\"}") == Some(LambdaResponse(200, String("ok")))
    requires svc.scan == Rows([Some(WorkerA), Some(WorkerB), Some(WorkerC)])
    requires forall arn :: svc.worker(arn, order) == Reply(None, "{\"statusCode\":200}")
    ensures var e := ProcessMessage(m, svc);
            e.disposition == Acknowledged &&
            e.calls[1].functionName in {WorkerA.arn, WorkerB.arn} &&
            e.deletes == DeleteRequests(m)
  {
    var rows := svc.scan.items;
    var one, two := [Some(WorkerA)], [Some(WorkerA), Some(WorkerB)];
    assert one[..0] == [] && two[..1] == one && rows[..2] == two;
    assert [] + [WorkerA] == [WorkerA] && [WorkerA] + [WorkerB] == [WorkerA, WorkerB];
    assert HealthyRows(one) == Some([WorkerA]);
    assert HealthyRows(two) == Some([WorkerA, WorkerB]);
    assert HealthyRows(rows) == Some([WorkerA, WorkerB]);
  }

  /** The same message with a status 500 verdict is never deleted, and no worker is invoked. */
  lemma ScenarioVerdict500(m: Message, svc: Services, order: Json, body: Json)
    requires Decode(m, svc.parse) == Some(order)
    requires InvokeSync(svc.integrity(order)).Success?
    requires svc.decodeVerdict(InvokeSync(svc.integrity(order)).value) == Some(LambdaResponse(500, body))
    ensures ProcessMessage(m, svc).deletes == []
    ensures ProcessMessage(m, svc).disposition == Deferred(SignatureMismatch(LambdaResponse(500, body)))
    ensures ProcessMessage(m, svc).calls == [Call(IntegrityLambda, order)]
  {
  }

  /** A registry holding only unhealthy rows: never deleted, no worker invoked. */
  lemma ScenarioOnlyUnhealthy(m: Message, svc: Services)
    requires Decode(m, svc.parse).Some? && IntegrityAccepted(Decode(m, svc.parse).value, svc)
    requires svc.scan == Rows([Some(WorkerC), Some(WorkerC)])
    ensures ProcessMessage(m, svc).deletes == []
    ensures |ProcessMessage(m, svc).calls| == 1
  {
    NoHealthyWorkerDefers(m, svc);
  }
}
