// gRPC status codes, as far as the driver returns them.
module Status {
  datatype Code =
    | InvalidArgument | NotFoundCode | AlreadyExists | FailedPrecondition | Aborted | Internal
    | Unavailable | PermissionDenied | Canceled | DeadlineExceeded | Unimplemented
}
