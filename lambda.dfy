/** What both handlers share: the bucket they use and the shape of the result
    they hand back to the function host. */
module Lambda {

  /** The bucket both handlers hard-code. */
  const BucketName: string := "my-lambda-stack"

  const StatusOk: int := 200

  /** The dictionary `{"statusCode": ..., "body": ...}` a handler returns. */
  datatype Response = Response(statusCode: int, body: string)
}
