/**
 * The request layer of the service: the routing switch from (path, verb)
 * to a handler, and what each handler answers and does to the user table.
 * HTTP and JSON are abstracted away: a request is its path, its method,
 * the `id` query value ("" when missing) and the parsed body (None when
 * the body is not a valid User), and a reply is a status code and a body.
 */
module Server {
  import opened Wrappers
  import opened Repository

  const MethodGet := "GET"
  const MethodPost := "POST"
  const MethodPut := "PUT"
  const MethodDelete := "DELETE"

  const StatusOK := 200
  const StatusCreated := 201
  const StatusNoContent := 204
  const StatusBadRequest := 400
  const StatusNotFound := 404
  const StatusMethodNotAllowed := 405

  /**
   * `path` is the request path as the server hands it to the handler:
   * already URL-decoded and normalized (so "//create" arrives as "/create").
   */
  datatype Request = Request(path: string, verb: string, id: string, body: Option<User>)

  /** A reply body: a plain-text message, one user as JSON, or a JSON array of users. */
  datatype Body = Text(message: string) | UserJson(user: User) | UserListJson(users: seq<User>)

  datatype Reply = Reply(status: int, body: Body)

  /** The table after a request together with the reply to it. */
  datatype Outcome = Outcome(users: map<string, User>, reply: Reply)

  datatype Route = CreateRoute | GetRoute | UpdateRoute | DeleteRoute | ListRoute

  /** Either a handler to run or a refusal sent back at once. */
  datatype Dispatched = Run(route: Route) | Reject(reply: Reply)

  /** A plain-text error reply. */
  function Error(message: string, status: int): Reply
  {
    Reply(status, Text(message))
  }

  const UnsupportedPath := Error("Unsupported path", StatusNotFound)
  const NotAllowed := Error("Method not allowed", StatusMethodNotAllowed)

  /** The routing table: each known path, the one method it accepts and its handler. */
  const RouteTable: map<string, (string, Route)> := map[
    "/create" := (MethodPost, CreateRoute),
    "/get" := (MethodGet, GetRoute),
    "/update" := (MethodPut, UpdateRoute),
    "/delete" := (MethodDelete, DeleteRoute),
    "/list" := (MethodGet, ListRoute)
  ]

  /**
   * The path switch with a method switch under each path. It follows the
   * routing table: unknown path gives 404, a known path with another
   * method gives 405, otherwise the path's handler runs.
   */
  function Dispatch(path: string, verb: string): (d: Dispatched)
    ensures d.Run? <==> path in RouteTable && verb == RouteTable[path].0
    ensures d.Run? ==> d.route == RouteTable[path].1
    ensures d == Reject(UnsupportedPath) <==> path !in RouteTable
    ensures d == Reject(NotAllowed) <==> path in RouteTable && verb != RouteTable[path].0
  {
    if path == "/create" then
      if verb == MethodPost then Run(CreateRoute) else Reject(NotAllowed)
    else if path == "/get" then
      if verb == MethodGet then Run(GetRoute) else Reject(NotAllowed)
    else if path == "/update" then
      if verb == MethodPut then Run(UpdateRoute) else Reject(NotAllowed)
    else if path == "/delete" then
      if verb == MethodDelete then Run(DeleteRoute) else Reject(NotAllowed)
    else if path == "/list" then
      if verb == MethodGet then Run(ListRoute) else Reject(NotAllowed)
    else
      Reject(UnsupportedPath)
  }

  /** POST /create: 400 and no change when the body does not parse, else 201 after storing under the body's own id. */
  function CreateUserOutcome(m: map<string, User>, body: Option<User>): (o: Outcome)
    ensures o.reply.status == StatusBadRequest <==> body.None?
    ensures o.reply.status == StatusBadRequest ==> o.users == m
    ensures o.reply.status != StatusBadRequest ==>
      o.reply.status == StatusCreated && o.users == Stored(m, body.value.id, body.value)
  {
    match body
    case None => Outcome(m, Error("Invalid request body", StatusBadRequest))
    case Some(user) => Outcome(Stored(m, user.id, user), Reply(StatusCreated, Text("User created successfully")))
  }

  /** GET /get: never changes the table; 400 for an empty id, 404 on a miss, else 200 with the stored record. */
  function GetUserOutcome(m: map<string, User>, id: string): (o: Outcome)
    ensures o.users == m
    ensures o.reply.status == StatusBadRequest <==> id == ""
    ensures o.reply.status == StatusNotFound <==> id != "" && id !in m
    ensures o.reply.status == StatusOK <==> id != "" && id in m
    ensures o.reply.status == StatusOK ==> o.reply.body == UserJson(m[id])
  {
    if id == "" then
      Outcome(m, Error("User ID not provided", StatusBadRequest))
    else if id !in m then
      Outcome(m, Error("User not found", StatusNotFound))
    else
      Outcome(m, Reply(StatusOK, UserJson(m[id])))
  }

  /**
   * PUT /update: 400 and no change when the body does not parse, else 200
   * after storing under the query id (empty or not), not under the body's id.
   */
  function UpdateUserOutcome(m: map<string, User>, id: string, body: Option<User>): (o: Outcome)
    ensures o.reply.status == StatusBadRequest <==> body.None?
    ensures o.reply.status == StatusBadRequest ==> o.users == m
    ensures o.reply.status != StatusBadRequest ==>
      o.reply.status == StatusOK && o.users == Stored(m, id, body.value)
  {
    match body
    case None => Outcome(m, Error("Invalid request body", StatusBadRequest))
    case Some(user) => Outcome(Stored(m, id, user), Reply(StatusOK, Text("User updated successfully")))
  }

  /** DELETE /delete: 204 whether or not `id` was stored; afterwards it is not. */
  function DeleteUserOutcome(m: map<string, User>, id: string): (o: Outcome)
    ensures o.reply.status == StatusNoContent
    ensures id !in o.users && o.users == Removed(m, id)
  {
    Outcome(Removed(m, id), Reply(StatusNoContent, Text("User deleted successfully")))
  }

  /** GET /list: 200 with one record per stored key, exactly the stored values, in range order `order`. */
  function ListUsersOutcome(m: map<string, User>, order: seq<string>): (o: Outcome)
    requires Enumerates(m, order)
    ensures o.users == m && o.reply.status == StatusOK && o.reply.body.UserListJson?
    ensures |o.reply.body.users| == |order| == |m|
    ensures forall i :: 0 <= i < |order| ==> o.reply.body.users[i] == m[order[i]]
    ensures forall u :: u in o.reply.body.users <==> u in m.Values
  {
    ListingLength(m, order);
    ListingMembers(m, order);
    Outcome(m, Reply(StatusOK, UserListJson(ValuesAt(m, order))))
  }

  /**
   * One request against table `m`: dispatch, then the chosen handler.
   * `order` is the order a range over the table would take; only /list uses it.
   */
  function Serve(m: map<string, User>, req: Request, order: seq<string>): (o: Outcome)
    requires Dispatch(req.path, req.verb) == Run(ListRoute) ==> Enumerates(m, order)
    ensures Dispatch(req.path, req.verb).Reject? ==> o == Outcome(m, Dispatch(req.path, req.verb).reply)
    ensures o.reply.status in {StatusOK, StatusCreated, StatusNoContent, StatusBadRequest, StatusNotFound, StatusMethodNotAllowed}
    ensures o.reply.status >= StatusBadRequest ==> o.users == m
    ensures o.users != m ==>
      Dispatch(req.path, req.verb) in {Run(CreateRoute), Run(UpdateRoute), Run(DeleteRoute)}
  {
    match Dispatch(req.path, req.verb)
    case Reject(reply) => Outcome(m, reply)
    case Run(route) =>
      match route
      case CreateRoute => CreateUserOutcome(m, req.body)
      case GetRoute => GetUserOutcome(m, req.id)
      case UpdateRoute => UpdateUserOutcome(m, req.id, req.body)
      case DeleteRoute => DeleteUserOutcome(m, req.id)
      case ListRoute => ListUsersOutcome(m, order)
  }
}
