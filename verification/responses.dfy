/** The replies the two servers' POST handlers can produce. */
module Responses {
  import opened Optional

  datatype Response =
    /** 400 `{ error: 'Missing input fields' }` */
    | MissingFields
    /** 404: the semester link `selector` is not on the portal page. */
    | NoSemesterLink(selector: string)
    /** 500 `{ error: 'General error: ...' }` from the outer catch. */
    | GeneralError
    /** 500: merging failed; the rolls not found are still reported. */
    | MergeFailed(notFound: seq<string>)
    /** 200 `{ downloadURL, notFound }` */
    | Merged(downloadURL: string, notFound: seq<string>)
    /** The handler's promise rejects outside every try block and nothing
        answers the request. This assumes Express 4, which does not catch a
        rejected async handler, and a process that survives the unhandled
        rejection. */
    | NoReply

  /** The HTTP status sent, None when nothing is sent. */
  function Status(r: Response): Option<int> {
    match r
    case MissingFields => Some(400)
    case NoSemesterLink(_) => Some(404)
    case GeneralError => Some(500)
    case MergeFailed(_) => Some(500)
    case Merged(_, _) => Some(200)
    case NoReply => None
  }

  /** `response.ok` on the client: a status in 200..299. */
  predicate IsOk(r: Response) {
    Status(r).Some? && 200 <= Status(r).value <= 299
  }

  /** The reply together with what the handler did on the way: whether it
      launched a browser, and which rolls it asked the browser about. */
  datatype Handled = Handled(response: Response, launched: bool, lookedUp: seq<string>)
}
