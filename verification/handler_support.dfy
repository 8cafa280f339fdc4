/**
 * What the two form handlers share: the request parameters they read, the
 * static resources they serve, and the errors that escape them.
 */
module HandlerSupport {
  import opened Outcomes
  import opened Responses

  /** The decoded query or form parameters of a request. */
  type Params = map<string, string>

  /** `isEmptyParams`. */
  predicate IsEmptyParams(params: Params) {
    |params| == 0
  }

  /** `getParam`.  The request class behind it is not part of this model;
      an absent key reads as the empty string here, and the with-parameters
      clauses of `LoginHandler.Handle` and `RegisterHandler.Handle` depend on
      this choice. */
  function GetParam(params: Params, key: string): string {
    if key in params then params[key] else ""
  }

  /** The class-path resources, by path, with their contents. */
  type Resources = map<string, string>

  const ResourcePrefix: string := "static/"

  /** Errors that leave a handler instead of a response. */
  datatype HandlerError =
    | ResourceNotFound(path: string)   // the class loader found nothing
    | AlreadyRegisteredUser            // the account is already saved

  /** `findResourceFile`: the contents of a resource, or the failure the
      Java code meets when the class loader returns no URL. */
  function FindResourceFile(resources: Resources, path: string): (r: Result<string, HandlerError>)
    ensures r.Success? <==> path in resources
    ensures r.Success? ==> r.value == resources[path]
    ensures r.Failure? ==> r.error == ResourceNotFound(path)
  {
    if path in resources then Success(resources[path]) else Failure(ResourceNotFound(path))
  }

  /** `findResourceFile` followed by `JwpHttpResponse.ok`: the page at
      `path` as a 200 response, or the failure to find it. */
  function ServePage(resources: Resources, path: string): (r: Result<Response, HandlerError>)
    ensures r.Success? <==> path in resources
    ensures r.Success? ==> r.value == Ok(resources[path])
    ensures r.Failure? ==> r.error == ResourceNotFound(path)
  {
    match FindResourceFile(resources, path)
    case Failure(e) => Failure(e)
    case Success(contents) => Success(Ok(contents))
  }

  /** Serving a page reads only the resource at its own path: two resource
      tables that agree there serve the same outcome. */
  lemma ServePageOnlyReadsPath(res1: Resources, res2: Resources, path: string)
    requires path in res1 <==> path in res2
    requires path in res1 ==> res1[path] == res2[path]
    ensures ServePage(res1, path) == ServePage(res2, path)
  {
  }
}
