/** Shared value types of the BTC rate service: optional values, results and
    the replies the service's endpoints give back to their callers. */
module Common {

  datatype Option<T> = None | Some(value: T)

  datatype Result<T, E> = Success(value: T) | Failure(error: E)

  /** What an endpoint answers. Each alternative carries the HTTP status given
      by StatusCode; ThirdPartyUnavailable names the upstream URL that failed,
      as the 503 detail message does. */
  datatype Reply =
    | EmailAdded                         // {"info": "email added"}
    | AlreadySubscribed                  // 409, "such email address already subscribed"
    | NoSubscribersFile                  // 405, "No subscribed email addresses"
    | ThirdPartyUnavailable(url: string) // 503, "Failed to fetch info from <url>"
    | EmailsSent                         // 200, "emails have been sent"

  function StatusCode(reply: Reply): int
  {
    match reply
    case EmailAdded => 200
    case AlreadySubscribed => 409
    case NoSubscribersFile => 405
    case ThirdPartyUnavailable(_) => 503
    case EmailsSent => 200
  }
}
