# Queue-driven Lambda dispatcher — a Dafny model of its consumer

The orchestrator reads messages from an SQS queue. For each message it:

1. decodes the body as JSON;
2. asks an integrity Lambda function whether the payload is genuine;
3. scans a DynamoDB registry of worker functions and keeps the rows flagged healthy;
4. picks one healthy worker (the only one, or one at a random index);
5. invokes that worker with the decoded payload;
6. deletes the message only when all of that succeeded.

A body that is nil or not JSON is treated as poison: it is deleted at once. Any other failure leaves the message in the queue for redelivery.

The model has six modules:

- `Wrappers`: `Option` and `Result`.
- `Payload`: the decoded JSON value tree. It is passed through the pipeline unchanged.
- `Registry`: the registry row (`Lambda`), its `Status` string, and `IsHealthy`. Only the exact string `"saludable"` is healthy.
- `LambdaInvoke`: the three-way outcome of `InvokeSync`, and the `LambdaResponse` verdict.
- `Pipeline`: the decision logic as pure functions, with the properties proved about it. It has the health filter over a scan (`HealthyRows`, with the reference filter `FilterHealthy`), the selection switch (`Select`), `handleBusinessLogic` (`BusinessLogic`), `processMessage` (`ProcessMessage`) and the batch (`Batch`).
- `Consumer`: the consumer as an object, `SQSConsumer`. It logs every request it sends: `receives` holds the ReceiveMessage requests, `invoked` the Lambda Invoke requests, and `deleted` the receipt handles passed to DeleteMessage. Its methods are the source's loops and early returns. Each method is proved to change these logs exactly as the `Pipeline` functions say. `CollectHealthy` is the registry loop that builds the healthy list with appends.

The outside world is a parameter, not code. The type `Services` holds what the world answers during one pass over one message:

- json.Unmarshal of the body;
- the Lambda service's reply to the integrity call, and separately its reply to the worker call for a given function and payload. These are two network calls, so the worker call can fail even when it names the integrity function itself;
- json.Unmarshal of the integrity reply into `LambdaResponse`;
- the registry scan. Each row comes paired with the outcome of attributevalue.UnmarshalMap on it.
- `rand.Intn`, as a function `Intn` that draws below every positive bound.

A batch meets one `Services` per message, `world(k)`. The whole consume loop meets one per cycle, `worlds(c)`.

## Model

| member | source | states |
|---|---|---|
| `LambdaInvoke.InvokeSync` | lambda.go:40-64 | success exactly when the transport succeeded and the reply carries no function error; the payload is then returned unchanged; a function error fails even on a good transport |
| `Pipeline.HealthyRows` | consumer.go:133-145 | the registry loop as a function: when it succeeds it keeps no more records than were scanned, all of them healthy; the full characterisation is carried by `HealthyRowsIsFilter`, `HealthyRowsFailsIff` and `HealthyRowsMembers` |
| `Pipeline.FilterHealthy` | consumer.go:142-144 | the reference filter keeps a record iff it is in the input and flagged healthy, and never grows the list |
| `Pipeline.HealthyRowsFailsIff` | consumer.go:133-141 | the registry loop fails iff some scanned row fails to unmarshal, whatever healthy rows there are |
| `Pipeline.HealthyRowsFailurePersists` | consumer.go:137-140 | once a prefix of the scan holds a row that fails to unmarshal, the whole loop fails |
| `Pipeline.HealthyRowsIsFilter` | consumer.go:131-145 | when every row unmarshals, the loop yields exactly the healthy records in scan order |
| `Pipeline.HealthyRowsMembers` | consumer.go:142-144 | a record is in the healthy list iff the scan returned it and its status is healthy |
| `Pipeline.Select` | consumer.go:151-159 | nothing is selected iff the list is empty; a single candidate is selected; otherwise the selection is one of the candidates |
| `Pipeline.SelectReachesEvery` | consumer.go:156-158 | with several candidates, each of them is selected by some random source |
| `Pipeline.IntegrityAccepted` | consumer.go:110-123 | the integrity gate: the integrity call succeeded, its reply unmarshalled and its status code is 200; what the gate decides is carried by `IntegrityRejectionDefers`, `BusinessLogic` and `AcknowledgedIff` |
| `Pipeline.BusinessLogic` | consumer.go:105-171 | the integrity function is called first with the decoded message; a worker is called only after the integrity gate passed, only if it is a healthy registry member, and with the same decoded message; success iff that worker call succeeded |
| `Pipeline.Decode` | consumer.go:80-92 | body decoding: a nil body does not decode, otherwise json.Unmarshal decides; its consequences are carried by `PoisonMessageDropped` and `ProcessMessage` |
| `Pipeline.DeleteRequests` | consumer.go:173-182 | one delete request for the receipt handle, none iff the handle is nil |
| `Pipeline.ProcessMessage` | consumer.go:77-103 | at most one delete per message; a delete iff the message was not deferred and has a handle; dropped iff the body is nil or does not parse, with no calls; acknowledged only after a successful worker call |
| `Pipeline.Batch` | consumer.go:72-74 | one disposition per received message |
| `Pipeline.BatchProcessesEachOnce` | consumer.go:72-74 | the k-th disposition of a batch is that of processing the k-th message: each message once, in receipt order |
| `Pipeline.BatchDeletesReceived` | consumer.go:72-74 | a batch deletes at most one handle per message, and only handles of its own messages |
| `Pipeline.PoisonMessageDropped` | consumer.go:80-92 | a nil or unparsable body is dropped and deleted if it has a handle; neither the integrity function nor a worker is invoked |
| `Pipeline.IntegrityRejectionDefers` | consumer.go:110-123 | a failed integrity call, an undecodable verdict or a status other than 200 defers the message, deletes nothing and invokes only the integrity function |
| `Pipeline.UndecodableRowDefers` | consumer.go:137-140 | one registry row that fails to unmarshal defers the message with no worker call and no delete |
| `Pipeline.NoHealthyWorkerDefers` | consumer.go:151-153 | a scan with no healthy row defers the message before any worker call, and nothing is deleted |
| `Pipeline.SingleHealthySelected` | consumer.go:154-155 | with exactly one healthy row, that worker is invoked with the decoded message |
| `Pipeline.WorkerFailureDefers` | consumer.go:163-166 | a failed invocation of the selected worker defers the message with that worker's error; both calls were issued and nothing is deleted |
| `Pipeline.SecondCallToSameFunctionMayFail` | consumer.go:110-166 | the worker call is separate from the integrity call: a healthy worker registered under the integrity function's ARN can still fail as a worker, and the message is then not deleted |
| `Pipeline.AcknowledgedIff` | consumer.go:95-102 | acknowledged iff the body decoded, the integrity gate passed, the healthy list is non-empty and the selected worker's invocation succeeded |
| `Pipeline.ScenarioTwoHealthyOfThree` | consumer.go:105-171 | two healthy workers and one unhealthy one: the worker invoked is one of the two healthy ones, and the message is acknowledged |
| `Pipeline.ScenarioVerdict500` | consumer.go:121-123 | a status 500 verdict: never deleted, no worker invoked |
| `Pipeline.ScenarioOnlyUnhealthy` | consumer.go:142-153 | a registry of unhealthy rows only: never deleted, no worker invoked |
| `Consumer.Poll` | consumer.go:66-74 | one poll cycle: nothing after a receive error, otherwise the whole batch; the consumer's behaviour against it is stated by `SQSConsumer.PollMessages` |
| `Consumer.Run` | consumer.go:47-55 | the first n poll cycles in order; what it guarantees is carried by `RunDeletesOnlyReceived` and `SQSConsumer.Start` |
| `Consumer.RunDeletesOnlyReceived` | consumer.go:47-55 | over any number of poll cycles, every deleted handle belongs to a message that some successful receive returned |
| `Consumer.CollectHealthy` | consumer.go:131-145 | the loop returns the specified healthy list; it fails iff a row fails to unmarshal; otherwise it holds exactly the healthy scanned records |
| `Consumer.SQSConsumer.constructor` | consumer.go:36-41 | a consumer for the queue URL with no requests sent |
| `Consumer.SQSConsumer.Request` | consumer.go:59-64 | each receive asks the consumer's queue for at most 10 messages |
| `Consumer.SQSConsumer.Start` | consumer.go:44-56 | one receive request per poll cycle until cancellation; the invoke and delete logs grow by the run's calls and deletes |
| `Consumer.SQSConsumer.PollMessages` | consumer.go:58-75 | one receive request; after a receive error nothing is processed or deleted; otherwise the batch is processed as specified |
| `Consumer.SQSConsumer.ProcessMessage` | consumer.go:77-103 | the disposition, the invoke requests and the delete requests are those of the specified per-message pipeline |
| `Consumer.SQSConsumer.HandleBusinessLogic` | consumer.go:105-171 | the invoke requests and the returned error are those of the specified business logic |
| `Consumer.SQSConsumer.InvokeLambda` | lambda.go:40-64 | exactly one Invoke request is sent, and its reply is classified as `InvokeSync` says |
| `Consumer.SQSConsumer.DeleteMessage` | consumer.go:173-191 | a delete request is sent for the receipt handle; none is sent when the handle is nil |

## Left out

- Construction of the AWS clients and loading of their configuration (`NewSQSConsumer`, `NewDynamoDBClient`, `NewLambdaClient`) are foreign calls. main.go also calls `NewSQSConsumer` with two arguments where consumer.go declares four. Only a constructor taking the queue URL is modelled.
- The DynamoDB wrappers in dynamodb.go (`GetItem`, `Query`, `Scan`, `PutItem`, `UpdateItem`, `DeleteItem`) are not modelled. Only the row shape and the health flag are. The scan is an input.
- The other Lambda wrappers in lambda.go (`InvokeAsync`, `InvokeDryRun`, `InvokeSyncWithResponse`) are not on the consumer's path.
- main.go and health.go are not part of this model: environment variables, signal handling, goroutines and the HTTP liveness endpoint.
- Context cancellation is modelled only as the number of poll cycles after which the context is observed done.
- Timing is left out: the long-poll wait and the visibility timeout are kept only as request constants. The 5-second sleep after a receive error is not modelled, nor is redelivery by the queue.
- Logging is left out. That includes the message id, which is only logged.
- The reply to DeleteMessage is only logged in the source, so the model records issued delete requests and ignores their outcome.
- JSON decoding is left out. json.Unmarshal of a body and of the integrity reply, and attributevalue.UnmarshalMap of a registry row, are outcomes supplied by `Services`. Go's JSON and attribute-value rules are not modelled.
- `InvokeLambda`: the `json.Marshal` step inside InvokeSync is not modelled. It cannot fail on a value produced by json.Unmarshal.
- Payload bytes are modelled as strings.
- `Pipeline.SelectReachesEvery`: random selection is proved only to reach every candidate and nothing else. Uniform frequency over repeated draws is a statistical property of math/rand, not of this code.
- Message bodies are parsed only as direct JSON, as consumer.go:87-88 does. Some deployments wrap the body in a notification envelope whose `Message` field holds the payload; this code never unwraps one, so neither does the model.
- A message without a receipt handle is never deleted: deleteMessage only skips the delete (consumer.go:174-177), and the message comes back after its visibility timeout. The model does the same.
