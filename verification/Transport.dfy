// The network between the driver and the Linode API: any call may fail, with or
// without having taken effect.
module Transport {
  import opened Wrappers
  import opened LinodeContract

  // What can go wrong on the way to the API, apart from the API's own errors.
  datatype Fault = Unauthorized | TemporarilyUnavailable | BrokenTransport | ContextCanceled | ContextExpired

  datatype ClientError = Api(error: ApiError) | Network(fault: Fault)

  // The fate of one API call. A lost reply hides a call that took effect.
  datatype Delivery = Delivered | RequestLost(fault: Fault) | ReplyLost(fault: Fault)

  function Received<T>(d: Delivery, reply: Reply<T>): Result<T, ClientError> {
    if !d.Delivered? then Failure(Network(d.fault))
    else
      match reply
      case Success(value) => Success(value)
      case Failure(error) => Failure(Api(error))
  }

  function Effect<T>(d: Delivery, b: Backend, outcome: (Backend, Reply<T>)): Backend {
    if d.RequestLost? then b else outcome.0
  }

  // The fates of successive calls; calls beyond the list are delivered.

  function Next(net: seq<Delivery>): Delivery {
    if net == [] then Delivered else net[0]
  }

  function Later(net: seq<Delivery>): seq<Delivery> {
    if net == [] then [] else net[1..]
  }
}
