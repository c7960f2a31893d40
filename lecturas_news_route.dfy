/** The news handlers under the readings section
    (src/app/api/lecturas/news/route.ts), over the store of `NewsStore`.
    Each handler is split in two: what it decides from the request (the
    reply and the one write it asks of the store, if any) and the handler
    itself, which carries the write out. The request's random id and the
    clock reading are parameters. */
module LecturasNewsRoute {
  import opened Wrappers
  import opened Sorting
  import opened Auth
  import opened NewsStore

  datatype Payload =
    | Failed(error: string)
    | Listed(data: seq<NewsItem>)
    | Added(id: string)
    | Done

  /** An HTTP status with its JSON body; `ok` is true exactly for 200. */
  datatype Reply = Reply(status: int, payload: Payload)

  /** The JSON body of a POST: each field present or absent. */
  datatype PostBody = PostBody(title: Option<string>, body: Option<string>, imageUrl: Option<string>)

  /** `!v` for a field that is a string or absent. */
  predicate Falsy(v: Option<string>) {
    v.None? || v.value == ""
  }

  /** The write a handler asks of the store. */
  datatype Write = NoWrite | Add(item: NewsItem) | Remove(id: string)

  /** The stored list after `w`, starting from `stored`: unchanged, or
      written back as the list read (absent reads as empty) with the item
      appended or the id filtered out. */
  function Applied(w: Write, stored: Option<seq<NewsItem>>): (r: Option<seq<NewsItem>>)
    ensures w.NoWrite? ==> r == stored
    ensures w.Add? ==> r.Some? && |r.value| == |stored.GetOr([])| + 1 && r.value[|r.value| - 1] == w.item
    ensures w.Remove? ==> r.Some? && forall k :: 0 <= k < |r.value| ==> r.value[k].id != w.id
  {
    match w
    case NoWrite => stored
    case Add(item) => Some(stored.GetOr([]) + [item])
    case Remove(id) => Some(RemoveId(stored.GetOr([]), id))
  }

  const Unauthorized := Reply(401, Failed("Unauthorized"))

  /** POST, decided: 401 for a non-admin before any field is read, 400
      when the title or the body is missing or empty, else one item
      appended with the request's id and time. */
  function PostDecision(admin: bool, req: PostBody, uuid: string, nowMs: int): (r: (Write, Reply))
    ensures !admin ==> r == (NoWrite, Unauthorized)
    ensures r.0.Add? <==> r.1.status == 200
    ensures r.1.status == 400 <==> admin && (Falsy(req.title) || Falsy(req.body))
    ensures r.0.Add? ==>
      && r.0.item == NewsItem(uuid, req.title.value, req.body.value, req.imageUrl, nowMs)
      && r.0.item.title != "" && r.0.item.body != ""
      && r.1.payload == Added(uuid)
  {
    if !admin then (NoWrite, Unauthorized)
    else if Falsy(req.title) || Falsy(req.body) then (NoWrite, Reply(400, Failed("Faltan campos")))
    else (Add(NewsItem(uuid, req.title.value, req.body.value, req.imageUrl, nowMs)), Reply(200, Added(uuid)))
  }

  /** DELETE, decided: 401 for a non-admin before the id is looked at,
      400 for a missing or empty id, else every item with the id removed. */
  function DeleteDecision(admin: bool, idParam: Option<string>): (r: (Write, Reply))
    ensures !admin ==> r == (NoWrite, Unauthorized)
    ensures r.0.Remove? <==> r.1.status == 200
    ensures r.1.status == 400 <==> admin && Falsy(idParam)
    ensures r.0.Remove? ==> idParam == Some(r.0.id) && r.0.id != "" && r.1.payload == Done
  {
    if !admin then (NoWrite, Unauthorized)
    else if Falsy(idParam) then (NoWrite, Reply(400, Failed("Falta id")))
    else (Remove(idParam.value), Reply(200, Done))
  }

  /** Authorisation comes first: a refused request gets the same answer
      and writes nothing, whatever its body or id. */
  lemma RefusedBeforeReading(req1: PostBody, req2: PostBody, uuid: string, nowMs: int,
                             id1: Option<string>, id2: Option<string>)
    ensures PostDecision(false, req1, uuid, nowMs) == PostDecision(false, req2, uuid, nowMs)
    ensures DeleteDecision(false, id1) == DeleteDecision(false, id2)
    ensures PostDecision(false, req1, uuid, nowMs).1.status == 401
    ensures DeleteDecision(false, id1).1.status == 401
  {
  }

  /** A deletion asked by an admin leaves no item with the id in the
      store and keeps every other item as often as it occurs; deleting twice is
      deleting once. */
  lemma DeleteRemovesExactly(stored: Option<seq<NewsItem>>, id: string, x: NewsItem)
    requires id != ""
    ensures var after := Applied(DeleteDecision(true, Some(id)).0, stored).value;
      && (forall k :: 0 <= k < |after| ==> after[k].id != id)
      && multiset(after)[x] == (if x.id == id then 0 else multiset(stored.GetOr([]))[x])
      && Applied(DeleteDecision(true, Some(id)).0, Some(after)) == Some(after)
  {
    var after := RemoveId(stored.GetOr([]), id);
    RemoveIdCounts(stored.GetOr([]), id, x);
    RemoveAbsentId(after, id);
  }

  /** GET: `{ok: true, data}` with the stored items newest first. */
  method Get(store: KvNewsStore) returns (r: Reply)
    ensures r.status == 200 && r.payload.Listed?
    ensures multiset(r.payload.data) == multiset(store.Current())
    ensures SortedBy(r.payload.data, Newer)
  {
    var data := store.ListNews();
    r := Reply(200, Listed(data));
  }

  /** POST: the guards in the order of the route, then one `addNews`. */
  method Post(store: KvNewsStore, authorization: Option<string>, adminEnv: Option<string>,
              req: PostBody, uuid: string, nowMs: int)
    returns (r: Reply)
    modifies store
    ensures var (w, reply) := PostDecision(IsAdmin(authorization, adminEnv), req, uuid, nowMs);
      r == reply && store.list == Applied(w, old(store.list))
  {
    if !IsAdmin(authorization, adminEnv) {
      return Unauthorized;
    }
    if Falsy(req.title) || Falsy(req.body) {
      return Reply(400, Failed("Faltan campos"));
    }
    store.AddNews(NewsItem(uuid, req.title.value, req.body.value, req.imageUrl, nowMs));
    r := Reply(200, Added(uuid));
  }

  /** DELETE: the guards in the order of the route, then one `deleteNews`. */
  method Delete(store: KvNewsStore, authorization: Option<string>, adminEnv: Option<string>,
                idParam: Option<string>)
    returns (r: Reply)
    modifies store
    ensures var (w, reply) := DeleteDecision(IsAdmin(authorization, adminEnv), idParam);
      r == reply && store.list == Applied(w, old(store.list))
  {
    if !IsAdmin(authorization, adminEnv) {
      return Unauthorized;
    }
    if Falsy(idParam) {
      return Reply(400, Failed("Falta id"));
    }
    store.DeleteNews(idParam.value);
    r := Reply(200, Done);
  }
}
