# User CRUD service — Dafny model

This project models the core of a small Go HTTP service that keeps users in
memory and exposes create, get, update, delete and list over five routes.

- **Repository** (`repository.dfy`, module `Repository`): the `User` record
  (id, name, age) and the `UserRepository` class. The class holds the table
  from string id to `User` as a `map` field. Its methods `Create`, `Read`,
  `Update`, `Delete` and `List` change or read that field in place. `List`
  ranges over the keys in an order the table chooses. The ghost out-parameter
  `order` records that order, and `Enumerates` says it visits every key
  exactly once.
- **Request layer** (`server.dfy`, module `Server`): `Dispatch` is the
  path/method switch, checked against a routing table. Five pure outcome
  functions give, for each handler, the reply (status and body) and the new
  table. `Serve` composes them for one request. A request is abstracted to
  its path, its method, the `id` query value ("" when missing) and the
  parsed body (`None` when the body is not a valid user).
- **Handlers** (`handlers.dfy`, module `Handlers`): the five handlers and the
  request handler as methods on the shared repository object. Each is proved
  to produce exactly the outcome its pure function describes.
- **Properties** (`properties.dfy`, module `Properties`): facts about several
  requests in a row: delete is idempotent, create then get, update keyed by
  the query id, and a full create/get/update/get/delete/get round.

Design choices kept from the code:
- `Update` and `PUT /update` store under the query `id`, not under the body's
  own `id`, so a stored record's `id` can differ from its key.
- `PUT /update` and `DELETE /delete` do not check the id. An empty id updates
  or deletes the entry under "".
- `DELETE /delete` always answers 204 with the text body the code sets.
- `GET /get` and `GET /list` answer with the server's default status, 200.

## Model

| member | source | states |
|---|---|---|
| `Repository.Stored` | main.go:26 | storing under a key makes that key hold the record, adds only that key, and keeps every other entry |
| `Repository.Removed` | main.go:42 | deleting a key removes exactly that key (absent key: no change) and keeps every other entry |
| `Repository.UserRepository.constructor` | main.go:21-23 | a new repository holds no user |
| `Repository.UserRepository.Create` | main.go:25-27 | the table becomes the old one with `user` stored under `user.id`; nothing else changes |
| `Repository.UserRepository.Read` | main.go:29-35 | found is true exactly when the id is stored; then the stored record is returned, otherwise the zero user; the table is not changed |
| `Repository.UserRepository.Update` | main.go:37-39 | the table becomes the old one with `newUser` stored under the `id` argument (not `newUser.id`), the whole record replaced |
| `Repository.UserRepository.Delete` | main.go:41-43 | the table becomes the old one without `id`; no-op when absent |
| `Repository.UserRepository.List` | main.go:45-51 | the result holds the value of every key exactly once, in the range order `order`, so its length is the number of stored keys |
| `Repository.ListingLength` | main.go:45-51 | any listing in a range order has exactly as many elements as the table has keys |
| `Repository.ListingMembers` | main.go:45-51 | a listing contains a record exactly when the table stores it under some key |
| `Repository.RemovedIdempotent` | main.go:41-43 | deleting the same key twice is the same as deleting it once |
| `Repository.CreatedAllStoresEach` | main.go:25-27 | creating records with distinct ids in turn stores each under its id, adds no other key and keeps other entries |
| `Repository.ListAfterCreates` | main.go:45-51 | after creating records with distinct ids in an empty table, list returns exactly as many records as were created, and exactly those |
| `Server.Dispatch` | main.go:111-149 | the switch runs a handler exactly when the path is in the routing table and the method is that path's one method; an unknown path gives 404 "Unsupported path"; a known path with another method gives 405 "Method not allowed" |
| `Server.CreateUserOutcome` | main.go:54-63 | 400 exactly when the body does not parse, and then the table is unchanged; otherwise 201 with the user stored under its own id |
| `Server.GetUserOutcome` | main.go:65-79 | never changes the table; 400 exactly for an empty id; 404 exactly for a non-empty id that is not stored; 200 otherwise, with the stored record as body |
| `Server.UpdateUserOutcome` | main.go:81-91 | 400 exactly when the body does not parse, and then the table is unchanged; otherwise 200 with the body stored under the query id, even an empty one |
| `Server.DeleteUserOutcome` | main.go:93-98 | always 204; afterwards the id is absent and every other entry is kept |
| `Server.ListUsersOutcome` | main.go:100-105 | 200, table unchanged, body a list as long as the number of keys whose i-th record is the value of the i-th key the range visited (each key exactly once), so exactly the stored records with their multiplicities |
| `Server.Serve` | main.go:110-150 | a refused request changes nothing and gets the dispatcher's reply; every status is one of 200, 201, 204, 400, 404, 405; an error status leaves the table unchanged; only create, update and delete can change it |
| `Handlers.CreateUser` | main.go:54-63 | the new table and reply are those of `CreateUserOutcome` on the old table |
| `Handlers.GetUser` | main.go:65-79 | the reply is that of `GetUserOutcome`; the table is not changed |
| `Handlers.UpdateUser` | main.go:81-91 | the new table and reply are those of `UpdateUserOutcome` on the old table |
| `Handlers.DeleteUser` | main.go:93-98 | the new table and reply are those of `DeleteUserOutcome` on the old table |
| `Handlers.ListUsers` | main.go:100-105 | the reply is that of `ListUsersOutcome` for the order the range took: 200 with one record per stored key; the table is not changed |
| `Handlers.RequestHandler` | main.go:110-150 | the new table and reply are those of `Serve` on the old table |
| `Properties.DeleteTwiceIsDeleteOnce` | main.go:93-98 | a second DELETE of the same id leaves the table as the first left it and answers 204 again; the id is then absent |
| `Properties.CreateThenGet` | main.go:54-79 | after a create of `u`, a get of `u.id` returns `u` with 200, or 400 when `u.id` is empty, though the record is then stored under "" |
| `Properties.UpdateKeyedByQueryId` | main.go:81-91 | update replaces the whole record under the query id, leaves the entry under the body's own id as it was when the two differ, and, when the query id is non-empty, a later get of it returns the new record (an empty query id gets 400) |
| `Properties.CreateUpdateDeleteRound` | main.go:54-98 | create, get, update, get, delete, get of one record answer 201, 200 with it, 200, 200 with the new age, 204, 404 |

## Left out

- The fasthttp server, the port binding, `ListenAndServe` and `log.Fatal` (main.go:152-156): network I/O.
- JSON decoding and encoding. A parsed body is an `Option<User>`, and a reply body is an abstract value: a text message, one user, or a list of users. The ignored marshal errors are not modelled. Neither is the fact that an empty list marshals to `null`.
- URL decoding and path normalization: the request path is taken as already decoded and normalized, as the server passes it to the handler.
- Headers (`SetContentType`) and query-string parsing: the `id` is a given string, and "" stands for a missing id.
- Whether fasthttp writes the body of a 204 reply: the model keeps the body the handler sets.
- The concurrency of `sync.Map`: each operation is one atomic update of the map field, and operations run one after another. Concurrent creates are therefore modelled only as creates in sequence (`CreatedAllStoresEach`, `ListAfterCreates`).
- The order in which `Range` visits keys is not fixed. `List` returns it as a ghost `order`, and `Serve` takes it as a parameter.
- `User.age` is an unbounded integer. The 64-bit range of Go's `int` only matters to JSON decoding, which is left out.
