/**
 * The five handlers and the request handler, working on the shared
 * repository object: each calls the repository's methods and builds the
 * reply, and is proved to do what the matching outcome in `Server` says.
 */
module Handlers {
  import opened Wrappers
  import opened Repository
  import opened Server

  method CreateUser(repo: UserRepository, body: Option<User>) returns (reply: Reply)
    modifies repo
    ensures Outcome(repo.users, reply) == CreateUserOutcome(old(repo.users), body)
  {
    if body.None? {
      return Error("Invalid request body", StatusBadRequest);
    }
    repo.Create(body.value);
    reply := Reply(StatusCreated, Text("User created successfully"));
  }

  method GetUser(repo: UserRepository, id: string) returns (reply: Reply)
    ensures Outcome(repo.users, reply) == GetUserOutcome(repo.users, id)
  {
    if id == "" {
      return Error("User ID not provided", StatusBadRequest);
    }
    var user, found := repo.Read(id);
    if !found {
      return Error("User not found", StatusNotFound);
    }
    reply := Reply(StatusOK, UserJson(user));
  }

  method UpdateUser(repo: UserRepository, id: string, body: Option<User>) returns (reply: Reply)
    modifies repo
    ensures Outcome(repo.users, reply) == UpdateUserOutcome(old(repo.users), id, body)
  {
    if body.None? {
      return Error("Invalid request body", StatusBadRequest);
    }
    repo.Update(id, body.value);
    reply := Reply(StatusOK, Text("User updated successfully"));
  }

  method DeleteUser(repo: UserRepository, id: string) returns (reply: Reply)
    modifies repo
    ensures Outcome(repo.users, reply) == DeleteUserOutcome(old(repo.users), id)
  {
    repo.Delete(id);
    reply := Reply(StatusNoContent, Text("User deleted successfully"));
  }

  /** `order` is the order in which the repository's range visited its keys. */
  method ListUsers(repo: UserRepository) returns (reply: Reply, ghost order: seq<string>)
    ensures Enumerates(repo.users, order)
    ensures Outcome(repo.users, reply) == ListUsersOutcome(repo.users, order)
    ensures reply.status == StatusOK && reply.body.UserListJson? && |reply.body.users| == |repo.users|
  {
    var users;
    users, order := repo.List();
    reply := Reply(StatusOK, UserListJson(users));
  }

  /**
   * Routes one request to its handler, or refuses it with 404 or 405.
   * The new table and the reply are those `Serve` gives for the old table.
   */
  method RequestHandler(repo: UserRepository, req: Request) returns (reply: Reply, ghost order: seq<string>)
    modifies repo
    ensures Dispatch(req.path, req.verb) == Run(ListRoute) ==> Enumerates(old(repo.users), order)
    ensures Outcome(repo.users, reply) == Serve(old(repo.users), req, order)
  {
    order := [];
    match Dispatch(req.path, req.verb) {
      case Reject(refusal) =>
        reply := refusal;
      case Run(CreateRoute) =>
        reply := CreateUser(repo, req.body);
      case Run(GetRoute) =>
        reply := GetUser(repo, req.id);
      case Run(UpdateRoute) =>
        reply := UpdateUser(repo, req.id, req.body);
      case Run(DeleteRoute) =>
        reply := DeleteUser(repo, req.id);
      case Run(ListRoute) =>
        reply, order := ListUsers(repo);
    }
  }
}
