/** Values shared by every module: optional values, the exceptions the Python
    code raises or catches, and the outcome of a call into the GitHub client or
    the HTTP library, which the model receives as an oracle. */
module Outcomes {

  datatype Option<+T> = None | Some(value: T)

  /** A `github.GithubException`: the HTTP status, the `message` entry of its
      `data` payload when there is one, and whether PyGithub raised the
      `UnknownObjectException` subclass (its 404 "not found" case). */
  datatype GithubError = GithubError(status: int, message: Option<string>, unknownObject: bool)

  /** The Python exceptions that the modelled code raises or lets through. */
  datatype Exception =
    | Github(error: GithubError)
    | KeyError(key: string)
    | TypeError
    | AttributeError
    | IndexError
    | ValueError(reason: string)
    | HttpError(status: int)   // `requests.exceptions.HTTPError`, from `raise_for_status`
    | TransportError           // any other `requests.exceptions.RequestException`

  /** What a call into an external collaborator did: returned a value or raised. */
  datatype Call<+T> = Returned(value: T) | Raised(exc: Exception)

  /** `e.status` of a `GithubException`, or no status for any other exception. */
  predicate IsGithubStatus(exc: Exception, status: int)
  {
    exc.Github? && exc.error.status == status
  }

  /** `isinstance(e, requests.exceptions.RequestException)`. */
  predicate IsRequestException(exc: Exception)
  {
    exc.HttpError? || exc.TransportError?
  }

  /** `Response.raise_for_status` raises for client (4xx) and server (5xx) statuses. */
  predicate RaisesForStatus(status: int)
  {
    400 <= status < 600
  }
}
