/** What a route handler sends back: a success status with a body, or an error status with its message. */
module Http {

  datatype Response<+T> = Ok(status: nat, body: T) | Error(status: nat, message: string)
}
