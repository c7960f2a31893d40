/** The blob-backed news endpoint (src/app/api/news/route.ts): GET lists
    the manifest newest first; POST (admin only) validates a form, derives
    the media keys and appends one item; DELETE (admin only) removes the
    first item with the given id. The manifest blob `news/news.json` is a
    field of the handler object; uploads of media files are reduced to the
    public URL the blob store gives a key (`urlOf`), and the clock to its
    two readings, the millisecond count and the ISO text. */
module NewsRoute {
  import opened Wrappers
  import opened Text
  import opened Sorting

  datatype NewsItem = NewsItem(
    id: string,
    title: string,
    body: string,
    imageUrl: Option<string>,
    videoUrl: Option<string>,
    createdAt: string,
    author: Option<string>)

  /** The manifest blob as `readManifest` finds it: no blob under the
      prefix, a download that fails or cannot be parsed, a JSON value that
      is not an array, or a stored list. */
  datatype Manifest = Absent | Unreadable | NotAnArray | Stored(items: seq<NewsItem>)

  /** `readManifest`: the stored list, or the empty list on any failure. */
  function ReadManifest(m: Manifest): seq<NewsItem> {
    if m.Stored? then m.items else []
  }

  /** Reading back what `writeManifest` stored gives the same list, and
      every failure reads as the empty list. */
  lemma ManifestRoundTrip(items: seq<NewsItem>, m: Manifest)
    ensures ReadManifest(Stored(items)) == items
    ensures !m.Stored? ==> ReadManifest(m) == []
  {
  }

  // ---------------------------------------------------------------------------
  // Authorisation

  /** The two headers the handlers read; `None` when absent. */
  datatype Headers = Headers(authorization: Option<string>, adminToken: Option<string>)

  /** The token of a request: `x-admin-token` when it is non-empty, else
      what follows `"Bearer "` in `authorization`, else the empty text. */
  function RequestToken(h: Headers): string {
    var hAuth := h.authorization.GetOr("");
    var hToken := h.adminToken.GetOr("");
    if hToken != "" then hToken
    else if StartsWith(hAuth, "Bearer ") then hAuth[7..]
    else ""
  }

  /** The guard of POST and DELETE: a configured token that the request carries. */
  predicate Authorized(adminToken: string, h: Headers) {
    adminToken != "" && RequestToken(h) == adminToken
  }

  /** Where the token comes from: the dedicated header wins; otherwise the
      whole remainder after the seven characters `"Bearer "`. */
  lemma TokenSources(h: Headers, t: string)
    ensures h.adminToken == Some(t) && t != "" ==> RequestToken(h) == t
    ensures h.adminToken.GetOr("") == "" && h.authorization == Some("Bearer " + t) ==>
      RequestToken(h) == t
    ensures h.adminToken.GetOr("") == "" && !StartsWith(h.authorization.GetOr(""), "Bearer ") ==>
      RequestToken(h) == ""
  {
    if h.adminToken.GetOr("") == "" && h.authorization == Some("Bearer " + t) {
      assert ("Bearer " + t)[7..] == t;
    }
  }

  /** Without a configured token every request is refused; with one, a
      request carrying no token is refused. */
  lemma NoTokenNoAccess(adminToken: string, h: Headers)
    ensures adminToken == "" ==> !Authorized(adminToken, h)
    ensures RequestToken(h) == "" ==> !Authorized(adminToken, h)
  {
  }

  // ---------------------------------------------------------------------------
  // POST

  /** An uploaded file: its name, its size in bytes and its MIME type. */
  datatype Upload = Upload(name: string, size: int, mimeType: string)

  /** The multipart form fields POST reads; `None` when a field is missing. */
  datatype PostForm = PostForm(
    title: Option<string>,
    body: Option<string>,
    author: Option<string>,
    image: Option<Upload>,
    video: Option<Upload>)

  /** The extension of an uploaded file: the lower-cased text after the
      last `'.'` of its name (the whole name when it has none), or
      `default` when that text is empty. */
  function Extension(name: string, default: string): (ext: string)
    ensures '.' !in default ==> '.' !in ext
  {
    var fields := Split(name, '.');
    var last := fields[|fields| - 1];
    var e := ToLower(if last != "" then last else default);
    assert '.' !in default ==> '.' !in e by {
      if '.' in e {
        var k :| 0 <= k < |e| && e[k] == '.';
        assert LowerChar((if last != "" then last else default)[k]) == '.';
      }
    }
    e
  }

  /** The extension is the lower-cased text after the last dot. */
  lemma ExtensionAfterLastDot(base: string, tail: string, default: string)
    requires '.' !in tail && tail != ""
    ensures Extension(base + "." + tail, default) == ToLower(tail)
  {
    SplitLastField(base, '.', tail);
    assert base + "." + tail == base + ['.'] + tail;
  }

  /** A name without dots is its own extension, lower-cased. */
  lemma ExtensionWithoutDot(name: string, default: string)
    requires '.' !in name && name != ""
    ensures Extension(name, default) == ToLower(name)
  {
  }

  /** A name ending in a dot, or an empty name, gets the default. */
  lemma ExtensionDefault(base: string, default: string)
    ensures Extension(base + ".", default) == ToLower(default)
    ensures Extension("", default) == ToLower(default)
  {
    SplitLastField(base, '.', "");
    assert base + "." == base + ['.'] + "";
  }

  /** The upload key of a media file of a news item. */
  function MediaKey(id: string, kind: string, ext: string): string {
    "news/" + id + "/" + kind + "." + ext
  }

  /** A file is uploaded when it is present and not empty. */
  predicate Uploaded(f: Option<Upload>) {
    f.Some? && f.value.size > 0
  }

  /** The trimmed text of a form field, empty when it is missing. */
  function Field(f: Option<string>): string {
    Trim(f.GetOr(""))
  }

  /** POST's validation: a title and a body that are not blank. */
  predicate ValidPost(form: PostForm) {
    Field(form.title) != "" && Field(form.body) != ""
  }

  /** The item POST creates: the id is the millisecond clock in decimal,
      each uploaded file is named by its key, the author defaults to
      `Admin`. */
  function NewItem(form: PostForm, nowMs: nat, isoNow: string, urlOf: string -> string): NewsItem {
    var id := NatToString(nowMs);
    var author := Field(form.author);
    NewsItem(
      id,
      Field(form.title),
      Field(form.body),
      if Uploaded(form.image) then Some(urlOf(MediaKey(id, "image", Extension(form.image.value.name, "jpg"))))
      else None,
      if Uploaded(form.video) then Some(urlOf(MediaKey(id, "video", Extension(form.video.value.name, "mp4"))))
      else None,
      isoNow,
      Some(if author != "" then author else "Admin"))
  }

  /** The new item carries the trimmed, non-blank title and body and a
      non-blank author; items created at different milliseconds have
      different ids. */
  lemma NewItemFields(form: PostForm, nowMs: nat, isoNow: string, urlOf: string -> string, laterMs: nat)
    requires ValidPost(form)
    ensures var item := NewItem(form, nowMs, isoNow, urlOf);
      && item.title != "" && Trimmed(item.title)
      && item.body != "" && Trimmed(item.body)
      && item.author.Some? && item.author.value != ""
      && (Field(form.author) == "" ==> item.author == Some("Admin"))
      && (item.imageUrl.Some? <==> Uploaded(form.image))
      && (nowMs != laterMs ==> item.id != NewItem(form, laterMs, isoNow, urlOf).id)
  {
    if NatToString(nowMs) == NatToString(laterMs) {
      NatToStringInjective(nowMs, laterMs);
    }
  }

  // ---------------------------------------------------------------------------
  // DELETE

  /** `items.findIndex(n => n.id === id)`: the first index holding `id`, or -1. */
  function FindIndex(items: seq<NewsItem>, id: string): (i: int)
    ensures -1 <= i < |items|
    ensures i >= 0 ==> items[i].id == id
    ensures forall k :: 0 <= k < |items| && (i == -1 || k < i) ==> items[k].id != id
  {
    if items == [] then -1
    else if items[0].id == id then 0
    else
      var j := FindIndex(items[1..], id);
      if j == -1 then -1 else j + 1
  }

  /** `items.splice(i, 1)`: the list without its item at `i`. */
  function RemoveAt(items: seq<NewsItem>, i: nat): seq<NewsItem>
    requires i < |items|
  {
    items[..i] + items[i + 1..]
  }

  /** The number of items holding `id`. */
  function CountId(items: seq<NewsItem>, id: string): nat {
    if items == [] then 0 else (if items[0].id == id then 1 else 0) + CountId(items[1..], id)
  }

  lemma {:induction false} CountIdAppend(a: seq<NewsItem>, b: seq<NewsItem>, id: string)
    ensures CountId(a + b, id) == CountId(a, id) + CountId(b, id)
  {
    if a != [] {
      assert (a + b)[1..] == a[1..] + b;
      CountIdAppend(a[1..], b, id);
    } else {
      assert a + b == b;
    }
  }

  /** Deleting at the first match removes exactly one item with the id,
      leaves the others in their order, and keeps every later duplicate. */
  lemma RemoveFirstMatch(items: seq<NewsItem>, id: string)
    requires FindIndex(items, id) >= 0
    ensures var i := FindIndex(items, id);
      && |RemoveAt(items, i)| == |items| - 1
      && CountId(RemoveAt(items, i), id) == CountId(items, id) - 1
      && multiset(RemoveAt(items, i)) + multiset{items[i]} == multiset(items)
  {
    var i := FindIndex(items, id);
    assert items == items[..i] + [items[i]] + items[i + 1..];
    CountIdAppend(items[..i] + [items[i]], items[i + 1..], id);
    CountIdAppend(items[..i], [items[i]], id);
    CountIdAppend(items[..i], items[i + 1..], id);
  }

  // ---------------------------------------------------------------------------
  // GET

  /** The GET comparator: `a` may come first when its `createdAt` text is
      not less than `b`'s. ISO timestamps compare as texts in time order. */
  predicate NewerIso(a: NewsItem, b: NewsItem) {
    !StrLess(a.createdAt, b.createdAt)
  }

  lemma NewerIsoIsTotalPreorder()
    ensures TotalPreorder(NewerIso)
  {
    forall a: NewsItem, b: NewsItem
      ensures NewerIso(a, b) || NewerIso(b, a)
    {
      StrLessTrichotomy(a.createdAt, b.createdAt);
    }
    forall a: NewsItem, b: NewsItem, c: NewsItem | NewerIso(a, b) && NewerIso(b, c)
      ensures NewerIso(a, c)
    {
      StrLessTrichotomy(a.createdAt, b.createdAt);
      StrLessTrichotomy(b.createdAt, c.createdAt);
      StrLessTrichotomy(a.createdAt, c.createdAt);
      if StrLess(b.createdAt, a.createdAt) && StrLess(c.createdAt, b.createdAt) {
        StrLessTrans(c.createdAt, b.createdAt, a.createdAt);
      }
    }
  }

  // ---------------------------------------------------------------------------
  // The handlers

  /** What a handler answers: the status and the JSON payload. */
  datatype Payload = Error(message: string) | Created(item: NewsItem) | Listed(items: seq<NewsItem>) | Done
  datatype Reply = Reply(status: nat, payload: Payload)

  class NewsHandlers {
    /** `NEWS_ADMIN_TOKEN`, or the empty text when it is unset. */
    const adminToken: string
    /** The manifest blob. */
    var manifest: Manifest

    constructor(adminEnv: Option<string>, stored: Manifest)
      ensures adminToken == adminEnv.GetOr("") && manifest == stored
    {
      adminToken := adminEnv.GetOr("");
      manifest := stored;
    }

    /** GET: the manifest's items, newest first. */
    method Get() returns (r: Reply)
      ensures r.status == 200 && r.payload.Listed?
      ensures multiset(r.payload.items) == multiset(ReadManifest(manifest))
      ensures SortedBy(r.payload.items, NewerIso)
    {
      var items := ReadManifest(manifest);
      NewerIsoIsTotalPreorder();
      SortBySorted(items, NewerIso);
      var sorted := SortBy(items, NewerIso);
      r := Reply(200, Listed(sorted));
    }

    /** POST: 401 unless authorised, 400 unless the title and body are not
      blank, else the new item appended to the manifest as read (an
      unreadable manifest is replaced by the one new item). */
    method Post(h: Headers, form: PostForm, nowMs: nat, isoNow: string, urlOf: string -> string)
      returns (r: Reply)
      modifies this
      ensures !Authorized(adminToken, h) ==>
        r == Reply(401, Error("Unauthorized")) && manifest == old(manifest)
      ensures Authorized(adminToken, h) && !ValidPost(form) ==>
        r == Reply(400, Error("title y body son requeridos")) && manifest == old(manifest)
      ensures Authorized(adminToken, h) && ValidPost(form) ==>
        var item := NewItem(form, nowMs, isoNow, urlOf);
        r == Reply(201, Created(item)) && manifest == Stored(old(ReadManifest(manifest)) + [item])
    {
      var token := RequestToken(h);
      if adminToken == "" || token != adminToken {
        return Reply(401, Error("Unauthorized"));
      }
      var title := Field(form.title);
      var body := Field(form.body);
      if title == "" || body == "" {
        return Reply(400, Error("title y body son requeridos"));
      }
      var nuevo := NewItem(form, nowMs, isoNow, urlOf);
      var items := ReadManifest(manifest);
      items := items + [nuevo];
      manifest := Stored(items);
      r := Reply(201, Created(nuevo));
    }

    /** DELETE: 401 unless authorised (before the id is looked at), 400 on
      a missing id, 404 when no item has it, else the first item with it
      removed. */
    method Delete(h: Headers, idParam: Option<string>) returns (r: Reply)
      modifies this
      ensures !Authorized(adminToken, h) ==>
        r == Reply(401, Error("Unauthorized")) && manifest == old(manifest)
      ensures Authorized(adminToken, h) && idParam.GetOr("") == "" ==>
        r == Reply(400, Error("Falta id")) && manifest == old(manifest)
      ensures var items, id := old(ReadManifest(manifest)), idParam.GetOr("");
        (Authorized(adminToken, h) && id != "" && FindIndex(items, id) == -1) ==>
        r == Reply(404, Error("No existe")) && manifest == old(manifest)
      ensures var items, id := old(ReadManifest(manifest)), idParam.GetOr("");
        (Authorized(adminToken, h) && id != "" && FindIndex(items, id) >= 0) ==>
        r == Reply(200, Done) && manifest == Stored(RemoveAt(items, FindIndex(items, id)))
    {
      var id := idParam.GetOr("");
      var token := RequestToken(h);
      if adminToken == "" || token != adminToken {
        return Reply(401, Error("Unauthorized"));
      }
      if id == "" {
        return Reply(400, Error("Falta id"));
      }
      var items := ReadManifest(manifest);
      var idx := FindIndex(items, id);
      if idx == -1 {
        return Reply(404, Error("No existe"));
      }
      items := RemoveAt(items, idx);
      manifest := Stored(items);
      r := Reply(200, Done);
    }
  }
}
