/** The JSON responses the three serverless functions send. */
module Http {
  import opened Wrappers
  import opened Store

  datatype Body =
    | NoBody                                        // res.status(200).end()
    | Error(error: string, details: Option<string>) // { error, details? }
    | Uploaded(url: string)                         // { success: true, url }
    | Listed(images: seq<Row>, needsInit: bool)     // { success: true, images, needsInit? }
    | Initialized(message: string)                  // { success: true, message }

  datatype Response = Response(status: int, body: Body)

  /** The answer to a CORS preflight. */
  const Preflight: Response := Response(200, NoBody)

  const MethodNotAllowed: Response := Response(405, Error("Method not allowed", None))
}
