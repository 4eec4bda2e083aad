/**
 * The worker registry's row shape (dynamodb.go): one record per worker function,
 * with a health flag that is maintained by others and only read by the consumer.
 */
module Registry {

  /** The health flag is a free-form string attribute; two values are named. */
  type Status = string

  const Healthy: Status := "saludable"
  const Unhealthy: Status := "fallando"

  /** A registry row as attributevalue.UnmarshalMap fills it. */
  datatype Lambda = Lambda(
    id: string,
    arn: string,
    url: string,
    status: Status,
    name: string,
    lastHeartBeat: string)

  /** Only the exact string of `Healthy` counts; "fallando" and every other string do not. */
  predicate IsHealthy(l: Lambda)
  {
    l.status == Healthy
  }
}
