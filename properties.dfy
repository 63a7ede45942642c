/** Properties of sequences of requests served against the user table. */
module Properties {
  import opened Wrappers
  import opened Repository
  import opened Server

  /** A second DELETE of the same id changes nothing and answers 204 again; afterwards the id is absent. */
  lemma DeleteTwiceIsDeleteOnce(m: map<string, User>, id: string, body: Option<User>)
    ensures var req := Request("/delete", MethodDelete, id, body);
            var first := Serve(m, req, []);
            id !in first.users && Serve(first.users, req, []) == first
  {
  }

  /**
   * After POST /create with body `u`, GET /get?id=u.id returns `u` with 200,
   * unless `u.id` is empty: the record is then stored under "" and /get
   * refuses the empty id with 400 before looking it up.
   */
  lemma CreateThenGet(m: map<string, User>, u: User, queryId: string)
    ensures var created := Serve(m, Request("/create", MethodPost, queryId, Some(u)), []);
            var got := Serve(created.users, Request("/get", MethodGet, u.id, None), []);
            && created.reply.status == StatusCreated
            && u.id in created.users
            && got.reply == (if u.id == "" then Error("User ID not provided", StatusBadRequest)
                             else Reply(StatusOK, UserJson(u)))
  {
  }

  /**
   * PUT /update?id=`id` replaces the whole record under `id` by `u`, even
   * when `u.id` differs, and leaves the entry under `u.id` as it was;
   * a later GET of `id` returns `u` itself.
   */
  lemma UpdateKeyedByQueryId(m: map<string, User>, id: string, u: User)
    ensures var updated := Serve(m, Request("/update", MethodPut, id, Some(u)), []);
            && updated.reply.status == StatusOK
            && id in updated.users && updated.users[id] == u
            && (u.id != id ==> (u.id in updated.users <==> u.id in m))
            && (u.id != id && u.id in m ==> updated.users[u.id] == m[u.id])
            && (id != "" ==>
                  Serve(updated.users, Request("/get", MethodGet, id, None), []).reply == Reply(StatusOK, UserJson(u)))
  {
  }

  /**
   * The create, get, update, get, delete, get round of one record, from any
   * starting table: 201; 200 with the record; 200; 200 with the new age;
   * 204; 404.
   */
  lemma CreateUpdateDeleteRound(m: map<string, User>)
    ensures
      var eve := User("1", "Eve", 25);
      var older := User("1", "Eve", 26);
      var s1 := Serve(m, Request("/create", MethodPost, "", Some(eve)), []);
      var s2 := Serve(s1.users, Request("/get", MethodGet, "1", None), []);
      var s3 := Serve(s2.users, Request("/update", MethodPut, "1", Some(older)), []);
      var s4 := Serve(s3.users, Request("/get", MethodGet, "1", None), []);
      var s5 := Serve(s4.users, Request("/delete", MethodDelete, "1", None), []);
      var s6 := Serve(s5.users, Request("/get", MethodGet, "1", None), []);
      && s1.reply.status == StatusCreated
      && s2.reply == Reply(StatusOK, UserJson(eve))
      && s3.reply.status == StatusOK
      && s4.reply == Reply(StatusOK, UserJson(older))
      && s5.reply.status == StatusNoContent
      && s6.reply == Error("User not found", StatusNotFound)
      && s6.users == Removed(m, "1")
  {
  }
}
