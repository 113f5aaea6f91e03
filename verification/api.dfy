/*
 * The browser's REST client (frontend/api.js): the option merge every request
 * goes through, the URL, method and body of each API function, and the
 * classification of a response into a value, `true`, or an error.
 * `fetch` itself is not modelled: a response is an input.
 */
module Api {
  import opened Base

  datatype Method = GET | POST | PUT | DELETE

  /** A JSON value as JSON.stringify writes it and res.json() reads it.
      `JTime(t)` stands for the ISO-8601 string Date.prototype.toISOString
      produces for the instant `t` (milliseconds since the epoch). */
  datatype Json =
    | JNull
    | JBool(b: bool)
    | JNum(n: int)
    | JStr(s: string)
    | JTime(t: int)
    | JArr(items: seq<Json>)
    | JObj(fields: map<string, Json>)

  /** JavaScript truthiness of a parsed JSON value. */
  predicate Truthy(j: Json) {
    match j
    case JNull => false
    case JBool(b) => b
    case JNum(n) => n != 0
    case JStr(s) => s != ""
    case JTime(_) => true
    case JArr(_) => true
    case JObj(_) => true
  }

  function NullableTime(t: Option<int>): (j: Json)
    ensures t.None? <==> j == JNull
  {
    match t
    case None => JNull
    case Some(v) => JTime(v)
  }

  // ---------------------------------------------------------------------------
  // apiFetch
  // ---------------------------------------------------------------------------

  /** The `options` object a caller hands to apiFetch, and the `config`
      object apiFetch hands to fetch. A missing `verb` (the `method` key) means GET. */
  datatype FetchOptions = FetchOptions(
    verb: Option<Method>,
    body: Option<Json>,
    headers: map<string, string>,
    credentials: Option<string>)

  datatype HttpRequest = HttpRequest(url: string, config: FetchOptions)

  const ContentType := "Content-Type"
  const JsonMediaType := "application/json"

  /** apiFetch: `{...options, ...defaultOptions}` where the defaults carry
      `credentials: 'include'` and a Content-Type header that the caller's
      own headers override. */
  function ApiFetch(url: string, options: FetchOptions): (r: HttpRequest)
    ensures r.url == url
    ensures r.config.credentials == Some("include")
    ensures r.config.verb == options.verb && r.config.body == options.body
    ensures ContentType in r.config.headers
    ensures ContentType !in options.headers ==> r.config.headers[ContentType] == JsonMediaType
    ensures forall h :: h in options.headers ==> h in r.config.headers && r.config.headers[h] == options.headers[h]
    ensures forall h :: h in r.config.headers ==> h == ContentType || h in options.headers
  {
    var defaults := map[ContentType := JsonMediaType];
    HttpRequest(url, options.(headers := defaults + options.headers, credentials := Some("include")))
  }

  // ---------------------------------------------------------------------------
  // handleResponse
  // ---------------------------------------------------------------------------

  /** What handleResponse reads of a fetch Response: the status, two headers,
      and the body parsed as JSON (`None` when it is not valid JSON, so that
      res.json() rejects). */
  datatype Response = Response(
    status: int,
    contentLength: Option<string>,
    contentType: Option<string>,
    json: Option<Json>)

  predicate IsOk(res: Response) {
    200 <= res.status <= 299
  }

  /** The argument of the `Error` handleResponse throws, or the error raised
      before it can build one. */
  datatype ApiError =
    | ErrorWith(message: Json)   // new Error(message)
    | BodyNotJson                // res.json() rejected on a 2xx JSON response
    | NullErrorBody              // the error body parsed to null: reading .message throws

  datatype ApiResult = Done | Value(body: Json) | Failed(error: ApiError)

  function StatusText(status: int): string {
    "Request failed with status " + IntToString(status)
  }

  /** The error a non-2xx response raises. `res.json().catch(() => ({}))`
      turns an unparsable body into an empty object. */
  function ErrorOf(res: Response): ApiError
  {
    match res.json
    case None => ErrorWith(JStr(StatusText(res.status)))
    case Some(JNull) => NullErrorBody
    case Some(JObj(fields)) =>
      if "message" in fields && Truthy(fields["message"]) then ErrorWith(fields["message"])
      else ErrorWith(JStr(StatusText(res.status)))
    case Some(_) => ErrorWith(JStr(StatusText(res.status)))
  }

  /** A 2xx response that announces a JSON body: neither 204 nor an explicit
      zero length, and a Content-Type naming application/json. */
  predicate AnnouncesJson(res: Response) {
    && res.status != 204 && res.contentLength != Some("0")
    && res.contentType.Some? && Contains(res.contentType.value, JsonMediaType)
  }

  /** handleResponse: a failing status always raises; a success yields the
      parsed body exactly when it announces JSON, raises when that body does
      not parse, and is `true` otherwise. */
  function HandleResponse(res: Response): (r: ApiResult)
    ensures r.Failed? <==> !IsOk(res) || (AnnouncesJson(res) && res.json.None?)
    ensures r.Value? <==> IsOk(res) && AnnouncesJson(res) && res.json.Some?
    ensures r.Value? ==> r.body == res.json.value
    ensures r.Done? <==> IsOk(res) && !AnnouncesJson(res)
    ensures r.Failed? ==> (r.error.BodyNotJson? <==> IsOk(res))
    ensures !IsOk(res) ==> r == Failed(ErrorOf(res))
  {
    if IsOk(res) then
      if res.status == 204 || res.contentLength == Some("0") then Done
      else if res.contentType.Some? && Contains(res.contentType.value, JsonMediaType) then
        (if res.json.Some? then Value(res.json.value) else Failed(BodyNotJson))
      else Done
    else Failed(ErrorOf(res))
  }

  /** A failing response reports the server's own `message` whenever it sent
      a truthy one, and otherwise the status line. */
  lemma ErrorMessageChoice(res: Response)
    requires !IsOk(res)
    ensures res.json.Some? && res.json.value.JObj? && "message" in res.json.value.fields
            && Truthy(res.json.value.fields["message"])
            ==> HandleResponse(res) == Failed(ErrorWith(res.json.value.fields["message"]))
    ensures (res.json.None? || (res.json.value.JObj? && ("message" !in res.json.value.fields
             || !Truthy(res.json.value.fields["message"]))))
            ==> HandleResponse(res) == Failed(ErrorWith(JStr(StatusText(res.status))))
  {
  }

  // ---------------------------------------------------------------------------
  // API functions
  // ---------------------------------------------------------------------------

  const ApiBaseUrl := "/api"
  const TasksUrl := "/api/tasks"
  const TaskUrlPrefix := "/api/tasks/"

  /** One call of an exported function of the client. */
  datatype ApiCall =
    | Login(username: string, password: string)
    | Register(username: string, password: string)
    | Logout
    | SendTestNotification
    | CheckAuthStatus
    | LoadDashboardTasks(limit: Option<int>, currentList: Option<string>)
    | LoadTasks
    | AddTask(title: string, priority: int, prioritySchedule: Option<int>,
             notificationDate: Option<int>, list: string)
    | DeleteTask(id: string)
    | UpdateTask(id: string, updates: Json)
    | SnoozeTask(id: string, duration: Json)
    | GetTask(id: string)
    | GetLists
    | AddList(listName: string)
    | DeleteList(listName: string)

  function TaskUrl(id: string): string {
    TaskUrlPrefix + id
  }

  /** The task id a `/api/tasks/<id>` URL addresses, if it has that shape. */
  function TaskIdOf(url: string): (r: Option<string>)
    ensures r.Some? ==> TaskUrl(r.value) == url
  {
    if |url| >= |TaskUrlPrefix| && url[..|TaskUrlPrefix|] == TaskUrlPrefix
    then
      assert TaskUrlPrefix + url[|TaskUrlPrefix|..] == url;
      Some(url[|TaskUrlPrefix|..])
    else None
  }

  function Credentials(username: string, password: string): Json {
    JObj(map["username" := JStr(username), "password" := JStr(password)])
  }

  function DashboardUrl(limit: Option<int>, list: Option<string>): string {
    var l := match limit case None => 3 case Some(n) => n;
    var name := match list case None => "home" case Some(s) => s;
    TasksUrl + "/dashboard?limit=" + IntToString(l) + "&list=" + name
  }

  function AddTaskBody(title: string, priority: int, prioritySchedule: Option<int>,
                       notificationDate: Option<int>, list: string): Json
  {
    JObj(map[
      "title" := JStr(title),
      "priority" := JNum(priority),
      "prioritySchedule" := NullableTime(prioritySchedule),
      "notificationDate" := NullableTime(notificationDate),
      "list" := JStr(list)])
  }

  function Options(m: Option<Method>, body: Option<Json>): FetchOptions {
    FetchOptions(m, body, map[], None)
  }

  /** The URL and the options each API function passes to apiFetch. */
  function CallOf(call: ApiCall): (r: (string, FetchOptions))
    ensures r.1.headers == map[] && r.1.credentials.None?
  {
    match call
    case Login(u, p) => (ApiBaseUrl + "/login", Options(Some(POST), Some(Credentials(u, p))))
    case Register(u, p) => (ApiBaseUrl + "/register", Options(Some(POST), Some(Credentials(u, p))))
    case Logout => (ApiBaseUrl + "/logout", Options(Some(POST), None))
    case SendTestNotification => (ApiBaseUrl + "/notifications/test", Options(Some(POST), None))
    case CheckAuthStatus => (ApiBaseUrl + "/user", Options(None, None))
    case LoadDashboardTasks(limit, list) => (DashboardUrl(limit, list), Options(None, None))
    case LoadTasks => (TasksUrl, Options(None, None))
    case AddTask(title, priority, ps, nd, list) =>
      (TasksUrl, Options(Some(POST), Some(AddTaskBody(title, priority, ps, nd, list))))
    case DeleteTask(id) => (TaskUrl(id), Options(Some(DELETE), None))
    case UpdateTask(id, updates) => (TaskUrl(id), Options(Some(PUT), Some(updates)))
    case SnoozeTask(id, duration) =>
      (TaskUrl(id) + "/snooze", Options(Some(POST), Some(JObj(map["duration" := duration]))))
    case GetTask(id) => (TaskUrl(id), Options(None, None))
    case GetLists => (ApiBaseUrl + "/lists", Options(None, None))
    case AddList(name) => (ApiBaseUrl + "/lists", Options(Some(POST), Some(JObj(map["listName" := JStr(name)]))))
    case DeleteList(name) => (ApiBaseUrl + "/lists/" + name, Options(Some(DELETE), None))
  }

  /** The request that reaches fetch for one API call. */
  function RequestOf(call: ApiCall): (r: HttpRequest)
    ensures r.config.credentials == Some("include")
    ensures r.config.headers == map[ContentType := JsonMediaType]
  {
    var (url, options) := CallOf(call);
    ApiFetch(url, options)
  }

  /** The method fetch uses: GET when none is given. */
  function EffectiveMethod(r: HttpRequest): Method {
    match r.config.verb
    case None => GET
    case Some(m) => m
  }

  /** The requests of the task mutations: their URL, method and body. The id
      of an update or delete is recoverable from its URL. */
  lemma TaskMutationRequests(id: string, updates: Json, duration: Json)
    ensures RequestOf(UpdateTask(id, updates)).url == TaskUrl(id)
    ensures EffectiveMethod(RequestOf(UpdateTask(id, updates))) == PUT
    ensures RequestOf(UpdateTask(id, updates)).config.body == Some(updates)
    ensures RequestOf(DeleteTask(id)).url == TaskUrl(id)
    ensures EffectiveMethod(RequestOf(DeleteTask(id))) == DELETE
    ensures RequestOf(DeleteTask(id)).config.body.None?
    ensures TaskIdOf(RequestOf(DeleteTask(id)).url) == Some(id)
    ensures TaskIdOf(RequestOf(UpdateTask(id, updates)).url) == Some(id)
    ensures RequestOf(SnoozeTask(id, duration)).url == TaskUrl(id) + "/snooze"
    ensures EffectiveMethod(RequestOf(SnoozeTask(id, duration))) == POST
    ensures RequestOf(SnoozeTask(id, duration)).config.body == Some(JObj(map["duration" := duration]))
  {
    assert (TaskUrlPrefix + id)[..|TaskUrlPrefix|] == TaskUrlPrefix;
    assert (TaskUrlPrefix + id)[|TaskUrlPrefix|..] == id;
  }

  /** addTask POSTs to /api/tasks a body holding exactly the five form fields. */
  lemma AddTaskRequest(title: string, priority: int, ps: Option<int>, nd: Option<int>, list: string)
    ensures var r := RequestOf(AddTask(title, priority, ps, nd, list));
      && r.url == TasksUrl && EffectiveMethod(r) == POST
      && r.config.body.Some? && r.config.body.value.JObj?
      && r.config.body.value.fields.Keys == {"title", "priority", "prioritySchedule", "notificationDate", "list"}
      && r.config.body.value.fields["title"] == JStr(title)
      && r.config.body.value.fields["priority"] == JNum(priority)
      && r.config.body.value.fields["prioritySchedule"] == NullableTime(ps)
      && r.config.body.value.fields["notificationDate"] == NullableTime(nd)
      && r.config.body.value.fields["list"] == JStr(list)
  {
  }

  /** The dashboard URL falls back to limit 3 and list 'home'. */
  lemma DashboardDefaults()
    ensures RequestOf(LoadDashboardTasks(None, None)).url == "/api/tasks/dashboard?limit=3&list=home"
    ensures EffectiveMethod(RequestOf(LoadDashboardTasks(None, None))) == GET
  {
    assert DashboardUrl(None, None) == DashboardUrl(Some(3), Some("home"));
    DefaultDashboardUrl();
  }

  /** The default dashboard URL, spelled out: the limit 3 is written as
      the numeral "3". */
  lemma DefaultDashboardUrl()
    ensures TasksUrl + "/dashboard?limit=" + IntToString(3) + "&list=" + "home" == "/api/tasks/dashboard?limit=3&list=home"
  {
    assert DigitChar(3) == '3';
    assert IntToString(3) == "3";
  }
}
