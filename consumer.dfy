/**
 * The queue consumer (consumer.go) in its imperative form: an object that
 * polls, processes each received message step by step, invokes Lambda
 * functions and deletes messages. The consumer records every request it
 * sends to the outside world, so that what it does can be compared with the
 * decision functions of module Pipeline.
 */
module Consumer {
  import opened Wrappers
  import opened Payload
  import opened Registry
  import opened LambdaInvoke
  import opened Pipeline

  /** The fixed parameters of every ReceiveMessage request. */
  const MaxNumberOfMessages: nat := 10
  const WaitTimeSeconds: nat := 20
  const VisibilityTimeout: nat := 30

  datatype ReceiveRequest = ReceiveRequest(queueUrl: string, maxMessages: nat, waitSeconds: nat, visibilitySeconds: nat)

  /** What the queue answers to one ReceiveMessage request. */
  datatype ReceiveReply = ReceiveError | Received(messages: seq<Message>)

  /** One poll cycle: nothing is processed after a failed receive, otherwise the whole batch. */
  function Poll(reply: ReceiveReply, world: nat -> Services): Trace
  {
    match reply
    case ReceiveError => Trace([], [], [])
    case Received(msgs) => Batch(msgs, world)
  }

  /**
   * The first n poll cycles of the consume loop, the c-th cycle receiving
   * replies(c) and meeting the world worlds(c) while it processes that batch.
   */
  function Run(n: nat, replies: nat -> ReceiveReply, worlds: nat -> nat -> Services): Trace
  {
    if n == 0 then Trace([], [], [])
    else
      var t := Run(n - 1, replies, worlds);
      var p := Poll(replies(n - 1), worlds(n - 1));
      Trace(t.dispositions + p.dispositions, t.calls + p.calls, t.deletes + p.deletes)
  }

  /** Whatever the queue and the world answer, only handles of messages that were received get deleted. */
  lemma {:induction false} RunDeletesOnlyReceived(n: nat, replies: nat -> ReceiveReply, worlds: nat -> nat -> Services)
    ensures forall h :: h in Run(n, replies, worlds).deletes ==>
              exists c, m :: 0 <= c < n && replies(c).Received? && m in replies(c).messages && m.receiptHandle == Some(h)
  {
    if n > 0 {
      RunDeletesOnlyReceived(n - 1, replies, worlds);
      var reply := replies(n - 1);
      if reply.Received? {
        BatchDeletesReceived(reply.messages, worlds(n - 1));
      }
    }
  }

  /** Processing one more message of a batch extends the batch's trace by that message's effect. */
  lemma BatchStep(msgs: seq<Message>, i: nat, world: nat -> Services)
    requires i < |msgs|
    ensures var t, e := Batch(msgs[..i], world), Pipeline.ProcessMessage(msgs[i], world(i));
            Batch(msgs[..i + 1], world) == Trace(t.dispositions + [e.disposition], t.calls + e.calls, t.deletes + e.deletes)
  {
    assert msgs[..i + 1][..i] == msgs[..i];
  }

  /**
   * Regrouping of appended logs. Dafny knows this fact on its own; calling it in the
   * loops of Start and PollMessages only spares the solver a costly search for it.
   */
  lemma Associative<T>(a: seq<T>, b: seq<T>, c: seq<T>)
    ensures a + b + c == a + (b + c)
  {
  }

  /**
   * The registry loop: unmarshal each scanned row in turn, give up on the first
   * row that fails, append the healthy ones.
   */
  method CollectHealthy(items: seq<Row>) returns (lambdas: Option<seq<Lambda>>)
    ensures lambdas == HealthyRows(items)
    ensures lambdas.None? <==> exists i :: 0 <= i < |items| && items[i] == None
    ensures lambdas.Some? ==> forall l :: l in lambdas.value <==> Some(l) in items && IsHealthy(l)
  {
    HealthyRowsFailsIff(items);
    var kept: seq<Lambda> := [];
    var i := 0;
    while i < |items|
      invariant 0 <= i <= |items|
      invariant HealthyRows(items[..i]) == Some(kept)
    {
      assert items[..i + 1][..i] == items[..i];
      match items[i]
      case None =>
        HealthyRowsFailurePersists(items, i + 1);
        return None;
      case Some(l) =>
        if IsHealthy(l) {
          kept := kept + [l];
        }
        i := i + 1;
    }
    assert items[..i] == items;
    HealthyRowsMembers(items);
    return Some(kept);
  }

  class SQSConsumer {
    const queueUrl: string
    /** Every ReceiveMessage request sent, in order. */
    var receives: seq<ReceiveRequest>
    /** Every Lambda Invoke request sent, in order. */
    var invoked: seq<Call>
    /** The receipt handle of every DeleteMessage request sent, in order. */
    var deleted: seq<string>

    constructor (queueUrl: string)
      ensures this.queueUrl == queueUrl
      ensures receives == [] && invoked == [] && deleted == []
    {
      this.queueUrl := queueUrl;
      receives, invoked, deleted := [], [], [];
    }

    function Request(): (r: ReceiveRequest)
      ensures r.queueUrl == queueUrl && r.maxMessages == MaxNumberOfMessages
    {
      ReceiveRequest(queueUrl, MaxNumberOfMessages, WaitTimeSeconds, VisibilityTimeout)
    }

    /** The receive requests of n poll cycles. */
    function Requests(n: nat): (rs: seq<ReceiveRequest>)
      ensures |rs| == n && forall k :: 0 <= k < n ==> rs[k] == Request()
    {
      if n == 0 then [] else Requests(n - 1) + [Request()]
    }

    /** Start: poll until the context is cancelled, which it is observed to be after cancelAfter cycles. */
    method Start(cancelAfter: nat, replies: nat -> ReceiveReply, worlds: nat -> nat -> Services)
      modifies this`receives, this`invoked, this`deleted
      ensures receives == old(receives) + Requests(cancelAfter)
      ensures var t := Run(cancelAfter, replies, worlds);
              invoked == old(invoked) + t.calls && deleted == old(deleted) + t.deletes
    {
      var c := 0;
      while c < cancelAfter
        invariant 0 <= c <= cancelAfter
        invariant receives == old(receives) + Requests(c)
        invariant var t := Run(c, replies, worlds);
                  invoked == old(invoked) + t.calls && deleted == old(deleted) + t.deletes
      {
        ghost var before := Run(c, replies, worlds);
        ghost var p := Poll(replies(c), worlds(c));
        var _ := PollMessages(replies(c), worlds(c));
        Associative(old(receives), Requests(c), [Request()]);
        Associative(old(invoked), before.calls, p.calls);
        Associative(old(deleted), before.deletes, p.deletes);
        c := c + 1;
      }
    }

    /**
     * pollMessages: one receive request; after a failed receive nothing is
     * processed, otherwise every received message is processed once, in order.
     */
    method PollMessages(reply: ReceiveReply, world: nat -> Services) returns (ds: seq<Disposition>)
      modifies this`receives, this`invoked, this`deleted
      ensures receives == old(receives) + [Request()]
      ensures var t := Poll(reply, world);
              ds == t.dispositions && invoked == old(invoked) + t.calls && deleted == old(deleted) + t.deletes
      ensures reply.ReceiveError? ==> ds == [] && invoked == old(invoked) && deleted == old(deleted)
      ensures reply.Received? ==> |ds| == |reply.messages|
    {
      receives := receives + [Request()];
      ds := [];
      if reply.ReceiveError? {
        return;
      }
      var msgs := reply.messages;
      var i := 0;
      while i < |msgs|
        invariant 0 <= i <= |msgs|
        invariant receives == old(receives) + [Request()]
        invariant var t := Batch(msgs[..i], world);
                  ds == t.dispositions && invoked == old(invoked) + t.calls && deleted == old(deleted) + t.deletes
      {
        ghost var before := Batch(msgs[..i], world);
        ghost var e := Pipeline.ProcessMessage(msgs[i], world(i));
        BatchStep(msgs, i, world);
        var d := ProcessMessage(msgs[i], world(i));
        ds := ds + [d];
        Associative(old(invoked), before.calls, e.calls);
        Associative(old(deleted), before.deletes, e.deletes);
        i := i + 1;
      }
      assert msgs[..i] == msgs;
    }

    /**
     * processMessage: drop a message that does not decode, otherwise run the
     * business logic and delete the message only when it returned no error.
     */
    method ProcessMessage(m: Message, svc: Services) returns (d: Disposition)
      modifies this`invoked, this`deleted
      ensures var e := Pipeline.ProcessMessage(m, svc);
              d == e.disposition && invoked == old(invoked) + e.calls && deleted == old(deleted) + e.deletes
    {
      if m.body.None? {
        DeleteMessage(m);
        return Dropped;
      }
      var appMessage := svc.parse(m.body.value);
      if appMessage.None? {
        DeleteMessage(m);
        return Dropped;
      }
      var err := HandleBusinessLogic(appMessage.value, svc);
      if err.Some? {
        return Deferred(err.value);
      }
      DeleteMessage(m);
      return Acknowledged;
    }

    /**
     * handleBusinessLogic: the integrity gate, the registry scan and health
     * filter, the selection, and the invocation of the chosen worker.
     */
    method HandleBusinessLogic(msg: Json, svc: Services) returns (err: Option<BusinessError>)
      modifies this`invoked
      ensures invoked == old(invoked) + BusinessLogic(msg, svc).calls
      ensures err == BusinessLogic(msg, svc).error
    {
      var payload := InvokeLambda(IntegrityLambda, msg, svc.integrity(msg));
      if payload.Failure? {
        return Some(IntegrityCallFailed(payload.error));
      }
      var integrity := svc.decodeVerdict(payload.value);
      if integrity.None? {
        return Some(VerdictUndecodable);
      }
      if integrity.value.statusCode != AcceptedStatus {
        return Some(SignatureMismatch(integrity.value));
      }
      if svc.scan.ScanError? {
        return Some(ScanFailed);
      }
      var lambdas := CollectHealthy(svc.scan.items);
      if lambdas.None? {
        return Some(RowUndecodable);
      }
      var selected := Select(lambdas.value, svc.intn);
      if selected.None? {
        return Some(NoHealthyWorkers);
      }
      var response := InvokeLambda(selected.value.arn, msg, svc.worker(selected.value.arn, msg));
      if response.Failure? {
        return Some(WorkerCallFailed(selected.value.arn, response.error));
      }
      return None;
    }

    /** InvokeSync: send one Invoke request, which the service answers with `reply`, and classify the reply. */
    method InvokeLambda(functionName: string, payload: Json, reply: InvokeReply) returns (r: Result<string, InvokeError>)
      modifies this`invoked
      ensures invoked == old(invoked) + [Call(functionName, payload)]
      ensures r == InvokeSync(reply)
    {
      invoked := invoked + [Call(functionName, payload)];
      r := InvokeSync(reply);
    }

    /** deleteMessage: a DeleteMessage request for the receipt handle, skipped when it is nil. */
    method DeleteMessage(m: Message)
      modifies this`deleted
      ensures deleted == old(deleted) + DeleteRequests(m)
    {
      if m.receiptHandle.None? {
        return;
      }
      deleted := deleted + [m.receiptHandle.value];
    }
  }
}
