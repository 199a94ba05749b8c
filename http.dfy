/** What a gin handler of this service writes back: a status code and the
    one key of the JSON body that matters to the caller. */
module Http {

  datatype Body =
    | ErrorBody(error: string)       // gin.H{"error": ..., ...}
    | MessageBody(message: string)   // gin.H{"message": ..., ...}
    | DataBody(key: string)          // gin.H{key: <records>}

  datatype Reply = Reply(status: int, body: Body)

  const InvalidPayload: Reply := Reply(400, ErrorBody("Invalid request payload"))
}
