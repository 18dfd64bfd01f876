/**
 * src/middleware.js: the REST route table, the validation of the middleware
 * options, the handler table keyed by request types, and the dispatcher.
 */
module Middleware {
  import opened Wrappers
  import opened Values
  import opened Text
  import opened Actions
  import opened Reducers
  import opened Api
  import opened Routing

  /**
   * The `idPath` option: a value (a string, an array of strings, or anything
   * else), or a function, given here by the value its call returns (`output`).
   */
  datatype IdPath = IdValue(v: Value) | IdFunction(output: Value)

  /** `computeIdPathString`. */
  function ComputeIdPathString(idPath: IdPath): (r: Result<Value, Error>)
    ensures r.Failure? <==> idPath.IdValue? && !idPath.v.Str? && !idPath.v.Arr?
    ensures r.Failure? ==> r.error == InvalidIdPath
    ensures idPath.IdValue? && idPath.v.Str? ==> r == Success(idPath.v)
    ensures idPath.IdFunction? ==> r == Success(idPath.output)
  {
    match idPath
    case IdFunction(output) => Success(output)
    case IdValue(Str(s)) => Success(Str(s))
    case IdValue(Arr(items)) => Success(Str(JoinValues(items, '.')))
    case IdValue(_) => Failure(InvalidIdPath)
  }

  /** A path given as an array of names without dots splits back into those names. */
  lemma IdPathArraySplits(parts: seq<string>)
    requires |parts| >= 1
    requires forall i :: 0 <= i < |parts| ==> '.' !in parts[i]
    ensures
      var r := ComputeIdPathString(IdValue(Arr(seq(|parts|, i requires 0 <= i < |parts| => Str(parts[i])))));
      r.Success? && r.value.Str? && Split(r.value.s, '.') == parts
  {
    var items := seq(|parts|, i requires 0 <= i < |parts| => Str(parts[i]));
    var texts := seq(|items|, i requires 0 <= i < |items| =>
      if items[i].Undefined? || items[i].Null? then "" else ToText(items[i]));
    assert texts == parts;
    SplitJoin(parts, '.');
  }

  /** The `{method, route}` computed for a verb: the id path converted first, then the table. */
  function ComputeApiConfig(baseRoute: string, verb: string, idPath: IdPath): (r: Result<ApiConfig, Error>)
    ensures r.Success? <==> ComputeIdPathString(idPath).Success?
    ensures r.Failure? ==> r.error == InvalidIdPath
    ensures r.Success? ==>
              var withId := baseRoute + "/:" + ToText(ComputeIdPathString(idPath).value);
              && baseRoute <= r.value.route
              && r.value == (if verb == "findOne" then ApiConfig(Some("get"), withId)
                             else if verb == "create" then ApiConfig(Some("post"), baseRoute)
                             else if verb == "update" then ApiConfig(Some("put"), withId)
                             else if verb == "delete" then ApiConfig(Some("delete"), withId)
                             else ApiConfig(Some("get"), baseRoute))
  {
    var id :- ComputeIdPathString(idPath);
    var withId := baseRoute + "/:" + ToText(id);
    match verb
    case "findOne" => Success(ApiConfig(Some("get"), withId))
    case "create" => Success(ApiConfig(Some("post"), baseRoute))
    case "update" => Success(ApiConfig(Some("put"), withId))
    case "delete" => Success(ApiConfig(Some("delete"), withId))
    case _ => Success(ApiConfig(Some("get"), baseRoute))
  }

  /**
   * A findOne, update or delete request for the entity named by the value of
   * its `idPath` field goes to `baseRoute/` followed by that value, and `api`
   * throws when the payload has no truthy value there.
   */
  lemma IdRouteReachesEntity(baseRoute: string, verb: string, name: string, a: Action)
    requires verb == "findOne" || verb == "update" || verb == "delete"
    requires PlainRoute(baseRoute)
    requires |name| > 0 && forall i :: 0 <= i < |name| ==> IsParamChar(name[i])
    ensures
      var config := ComputeApiConfig(baseRoute, verb, IdValue(Str(name)));
      var request := ApiRequest(config.value, a);
      && config.Success?
      && (request.Success? <==> Truthy(ParamValue(a, name)))
      && (request.Failure? ==> request.error == UrlKeyMissing(name, a.actionType))
      && (request.Success? ==>
            && request.value.url == baseRoute + "/" + ToText(ParamValue(a, name))
            && request.value.data == (if verb == "update" then Some(a.payload) else None)
            && request.value.params == (if verb == "findOne" then Some(a.payload) else None))
  {
    var m := if verb == "findOne" then "get" else if verb == "update" then "put" else "delete";
    assert ToText(Str(name)) == name;
    assert ComputeApiConfig(baseRoute, verb, IdValue(Str(name))).value == ApiConfig(Some(m), baseRoute + "/:" + name);
    IdRouteRequest(baseRoute, name, m, a);
  }

  /** The request `api` builds on the route `base/:name` with one of the methods the table gives it. */
  lemma IdRouteRequest(baseRoute: string, name: string, m: string, a: Action)
    requires m == "get" || m == "put" || m == "delete"
    requires PlainRoute(baseRoute)
    requires |name| > 0 && forall i :: 0 <= i < |name| ==> IsParamChar(name[i])
    ensures
      var request := ApiRequest(ApiConfig(Some(m), baseRoute + "/:" + name), a);
      && (request.Success? <==> Truthy(ParamValue(a, name)))
      && (request.Failure? ==> request.error == UrlKeyMissing(name, a.actionType))
      && (request.Success? ==>
            && request.value.url == baseRoute + "/" + ToText(ParamValue(a, name))
            && request.value.data == (if m == "put" then Some(a.payload) else None)
            && request.value.params == (if m == "get" then Some(a.payload) else None))
  {
    SubstituteIdRoute(baseRoute, name, a);
    assert Lower("get") == "get" && Lower("put") == "put" && Lower("delete") == "delete";
  }

  /** find and create requests go to `baseRoute` itself, with the payload as query or body. */
  lemma CollectionRouteIsBase(baseRoute: string, verb: string, idPath: IdPath, a: Action)
    requires verb == "find" || verb == "create"
    requires PlainRoute(baseRoute)
    requires ComputeIdPathString(idPath).Success?
    ensures
      var request := ApiRequest(ComputeApiConfig(baseRoute, verb, idPath).value, a);
      && request.Success?
      && request.value.url == baseRoute
      && request.value.data == (if verb == "create" then Some(a.payload) else None)
      && request.value.params == (if verb == "find" then Some(a.payload) else None)
  {
    PlainRouteUnchanged(baseRoute, a);
    assert Lower("get") == "get" && Lower("post") == "post";
  }

  // ---------------------------------------------------------------- the middleware table

  /** The options the middleware is configured with; `None` stands for a missing option. */
  datatype Options = Options(actions: Option<ActionTable>, idPath: IdPath, baseRoute: Option<string>)

  /** What the handler of a request type closes over. */
  datatype RequestConfig = RequestConfig(actions: map<string, Creator>, apiConfig: ApiConfig, idPath: IdPath)

  type RequestHandlers = map<string, RequestConfig>

  const OptionKeys: seq<string> := ["actions", "idPath", "baseRoute"]

  /** `!!options[key]`. */
  predicate Present(options: Options, key: string) {
    if key == "actions" then options.actions.Some?
    else if key == "idPath" then options.idPath.IdFunction? || Truthy(options.idPath.v)
    else options.baseRoute.Some? && options.baseRoute.value != ""
  }

  /** The first of the required options that is missing, if any. */
  function MissingOption(options: Options): (r: Option<string>)
    ensures r.None? <==> forall i :: 0 <= i < |OptionKeys| ==> Present(options, OptionKeys[i])
    ensures r.Some? ==> r.value in OptionKeys && !Present(options, r.value)
  {
    assert OptionKeys[0] == "actions" && OptionKeys[1] == "idPath" && OptionKeys[2] == "baseRoute";
    if !Present(options, "actions") then Some("actions")
    else if !Present(options, "idPath") then Some("idPath")
    else if !Present(options, "baseRoute") then Some("baseRoute")
    else None
  }

  /** The handler the loop installs for one REST verb of the actions, keyed by its request type. */
  function VerbRequestHandler(actions: ActionTable, baseRoute: string, idPath: IdPath, name: string)
    : (r: Result<(string, RequestConfig), Error>)
    requires name in actions
    ensures r.Success? <==> Complete(actions[name]) && ComputeIdPathString(idPath).Success?
    ensures r.Success? ==>
              && actions[name].Group? && "request" in actions[name].creators
              && r.value.0 == actions[name].creators["request"].actionType
              && r.value.1 == RequestConfig(actions[name].creators,
                                            ComputeApiConfig(baseRoute, name, idPath).value, idPath)
  {
    var entry := actions[name];
    CompleteIff(entry);
    if Member(entry, "request").None? then Failure(ActionRequired("request", name))
    else if Member(entry, "success").None? then Failure(ActionRequired("success", name))
    else if Member(entry, "fail").None? then Failure(ActionRequired("fail", name))
    else
      var apiConfig :- ComputeApiConfig(baseRoute, name, idPath);
      Success((entry.creators["request"].actionType, RequestConfig(entry.creators, apiConfig, idPath)))
  }

  /** The loop gets past verb `v`: absent from the actions, or complete with a usable `idPath`. */
  predicate Passes(actions: ActionTable, idPath: IdPath, v: Verb) {
    VerbName(v) in actions ==> Complete(actions[VerbName(v)]) && ComputeIdPathString(idPath).Success?
  }

  /** The handlers installed once the loop has visited `verbs` (a later verb overwrites). */
  function HandlersFrom(actions: ActionTable, baseRoute: string, idPath: IdPath, verbs: seq<Verb>)
    : (r: Result<RequestHandlers, Error>)
    ensures r.Success? <==> forall i :: 0 <= i < |verbs| ==> Passes(actions, idPath, verbs[i])
    ensures r.Failure? ==>
              exists i :: 0 <= i < |verbs| && !Passes(actions, idPath, verbs[i])
                && (forall j :: 0 <= j < i ==> Passes(actions, idPath, verbs[j]))
                && r.error == VerbRequestHandler(actions, baseRoute, idPath, VerbName(verbs[i])).error
    ensures r.Success? ==>
              forall k :: k in r.value ==>
                exists v :: v in verbs && VerbName(v) in actions && actions[VerbName(v)].Group?
                  && "request" in actions[VerbName(v)].creators
                  && k == actions[VerbName(v)].creators["request"].actionType
    decreases |verbs|
  {
    if |verbs| == 0 then Success(map[])
    else
      var init := verbs[..|verbs| - 1];
      assert forall i :: 0 <= i < |init| ==> init[i] == verbs[i];
      var handlers :- HandlersFrom(actions, baseRoute, idPath, init);
      var name := VerbName(verbs[|verbs| - 1]);
      if name !in actions then Success(handlers)
      else
        var entry :- VerbRequestHandler(actions, baseRoute, idPath, name);
        Success(handlers[entry.0 := entry.1])
  }

  /**
   * Once the loop has visited `verbs` without throwing, each present verb's
   * request type is a key of the table, and it holds that verb's handler
   * unless a later present verb has the same request type.
   */
  lemma {:induction false} HandlersFromInstalls(actions: ActionTable, baseRoute: string, idPath: IdPath,
                                                verbs: seq<Verb>, i: nat)
    requires i < |verbs| && VerbName(verbs[i]) in actions
    requires HandlersFrom(actions, baseRoute, idPath, verbs).Success?
    ensures var h := HandlersFrom(actions, baseRoute, idPath, verbs).value;
            var entry := VerbRequestHandler(actions, baseRoute, idPath, VerbName(verbs[i]));
            && entry.Success? && entry.value.0 in h
            && ((forall j :: i < j < |verbs| && VerbName(verbs[j]) in actions ==>
                   VerbRequestHandler(actions, baseRoute, idPath, VerbName(verbs[j])).Failure?
                   || VerbRequestHandler(actions, baseRoute, idPath, VerbName(verbs[j])).value.0 != entry.value.0)
                ==> h[entry.value.0] == entry.value.1)
    decreases |verbs|
  {
    var init, last := verbs[..|verbs| - 1], verbs[|verbs| - 1];
    assert Passes(actions, idPath, verbs[i]);
    var h := HandlersFrom(actions, baseRoute, idPath, init).value;
    var entry := VerbRequestHandler(actions, baseRoute, idPath, VerbName(verbs[i]));
    if i < |verbs| - 1 {
      assert init[i] == verbs[i];
      HandlersFromInstalls(actions, baseRoute, idPath, init, i);
      if VerbName(last) in actions {
        var e := VerbRequestHandler(actions, baseRoute, idPath, VerbName(last));
        assert HandlersFrom(actions, baseRoute, idPath, verbs).value == h[e.value.0 := e.value.1];
      } else {
        assert HandlersFrom(actions, baseRoute, idPath, verbs).value == h;
      }
    }
  }

  /** The handler table `middleware(options)` builds, or the error it throws. */
  function MiddlewareHandlers(options: Options): (r: Result<RequestHandlers, Error>)
    ensures MissingOption(options).Some? ==> r == Failure(OptionRequired(MissingOption(options).value))
    ensures MissingOption(options).None? ==>
              r == HandlersFrom(options.actions.value, options.baseRoute.value, options.idPath, RestVerbs)
  {
    match MissingOption(options)
    case Some(key) => Failure(OptionRequired(key))
    case None => HandlersFrom(options.actions.value, options.baseRoute.value, options.idPath, RestVerbs)
  }

  method BuildMiddleware(options: Options) returns (r: Result<RequestHandlers, Error>)
    ensures r == MiddlewareHandlers(options)
  {
    for i := 0 to |OptionKeys|
      invariant forall j :: 0 <= j < i ==> Present(options, OptionKeys[j])
    {
      if !Present(options, OptionKeys[i]) {
        return Failure(OptionRequired(OptionKeys[i]));
      }
    }
    assert MissingOption(options).None?;
    var actions, baseRoute, idPath := options.actions.value, options.baseRoute.value, options.idPath;
    var handlers: RequestHandlers := map[];
    for i := 0 to |RestVerbs|
      invariant HandlersFrom(actions, baseRoute, idPath, RestVerbs[..i]) == Success(handlers)
    {
      assert RestVerbs[..i + 1][..i] == RestVerbs[..i];
      var name := VerbName(RestVerbs[i]);
      if name !in actions {
        continue;
      }
      var entry := VerbRequestHandler(actions, baseRoute, idPath, name);
      if entry.Failure? {
        r := Failure(entry.error);
        HandlersFailureSticks(actions, baseRoute, idPath, RestVerbs, i + 1);
        return;
      }
      handlers := handlers[entry.value.0 := entry.value.1];
    }
    assert RestVerbs[..|RestVerbs|] == RestVerbs;
    r := Success(handlers);
  }

  lemma {:induction false} HandlersFailureSticks(actions: ActionTable, baseRoute: string, idPath: IdPath,
                                                 verbs: seq<Verb>, k: nat)
    requires k <= |verbs|
    requires HandlersFrom(actions, baseRoute, idPath, verbs[..k]).Failure?
    ensures HandlersFrom(actions, baseRoute, idPath, verbs) == HandlersFrom(actions, baseRoute, idPath, verbs[..k])
    decreases |verbs| - k
  {
    if k < |verbs| {
      assert verbs[..k + 1][..k] == verbs[..k];
      HandlersFailureSticks(actions, baseRoute, idPath, verbs, k + 1);
    } else {
      assert verbs[..k] == verbs;
    }
  }

  /** The request handler of one configured verb of `createRestActions`. */
  lemma RestVerbRequestHandler(collection: string, names: seq<string>, baseRoute: string, idPath: IdPath, v: Verb)
    requires VerbName(v) in names
    requires ComputeIdPathString(idPath).Success?
    ensures
      var r := VerbRequestHandler(RestActions(collection, names), baseRoute, idPath, VerbName(v));
      && r.Success?
      && r.value.0 == RouteType(collection, v, Requested)
      && r.value.1 == RequestConfig(RequestActions(collection, VerbName(v)),
                                    ComputeApiConfig(baseRoute, VerbName(v), idPath).value, idPath)
  {
    CompleteIff(Group(RequestActions(collection, VerbName(v))));
  }

  /** The request type a verb's handler is installed under. */
  function RequestKey(collection: string): Verb -> string {
    v => RouteType(collection, v, Requested)
  }

  /** The configuration the handler of a verb carries. */
  function ConfigOf(collection: string, baseRoute: string, idPath: IdPath): Verb -> RequestConfig
    requires ComputeIdPathString(idPath).Success?
  {
    v => RequestConfig(RequestActions(collection, VerbName(v)),
                       ComputeApiConfig(baseRoute, VerbName(v), idPath).value, idPath)
  }

  /** `h` holds, under the key of each configured verb among `verbs`, that verb's configuration. */
  predicate Installs(h: RequestHandlers, key: Verb -> string, config: Verb -> RequestConfig,
                     verbs: seq<Verb>, names: seq<string>) {
    forall v :: v in verbs && VerbName(v) in names ==> key(v) in h && h[key(v)] == config(v)
  }

  lemma InstallsNext(h: RequestHandlers, key: Verb -> string, config: Verb -> RequestConfig,
                     init: seq<Verb>, last: Verb, names: seq<string>)
    requires Installs(h, key, config, init, names)
    requires forall v, w :: key(v) == key(w) ==> v == w
    ensures Installs(h[key(last) := config(last)], key, config, init + [last], names)
  {
    forall v | v in init + [last] && VerbName(v) in names
      ensures key(v) in h[key(last) := config(last)] && h[key(last) := config(last)][key(v)] == config(v)
    {
      if v != last {
        assert v in init;
      }
    }
  }

  lemma InstallsSkip(h: RequestHandlers, key: Verb -> string, config: Verb -> RequestConfig,
                     init: seq<Verb>, last: Verb, names: seq<string>)
    requires Installs(h, key, config, init, names) && VerbName(last) !in names
    ensures Installs(h, key, config, init + [last], names)
  {
  }

  lemma RequestKeyInjective(collection: string)
    ensures forall v, w :: RequestKey(collection)(v) == RequestKey(collection)(w) ==> v == w
  {
    forall v, w | RequestKey(collection)(v) == RequestKey(collection)(w) ensures v == w {
      RouteTypeInjective(collection, v, Requested, w, Requested);
    }
  }

  /** One more verb of `createRestActions` in the loop: its handler goes in under its request type. */
  lemma HandlersFromStep(collection: string, names: seq<string>, baseRoute: string, idPath: IdPath,
                         init: seq<Verb>, last: Verb)
    requires ComputeIdPathString(idPath).Success?
    requires HandlersFrom(RestActions(collection, names), baseRoute, idPath, init).Success?
    ensures
      var h := HandlersFrom(RestActions(collection, names), baseRoute, idPath, init).value;
      HandlersFrom(RestActions(collection, names), baseRoute, idPath, init + [last])
        == Success(if VerbName(last) in names
                   then h[RequestKey(collection)(last) := ConfigOf(collection, baseRoute, idPath)(last)]
                   else h)
  {
    var verbs := init + [last];
    assert verbs[..|verbs| - 1] == init && verbs[|verbs| - 1] == last;
    if VerbName(last) in names {
      RestVerbRequestHandler(collection, names, baseRoute, idPath, last);
    }
  }

  /** Over configured verbs, the loop installs each verb's handler under its own request type. */
  lemma {:induction false} HandlersFromRestActions(collection: string, names: seq<string>, baseRoute: string,
                                                   idPath: IdPath, verbs: seq<Verb>)
    requires Distinct(verbs)
    requires ComputeIdPathString(idPath).Success?
    ensures
      var r := HandlersFrom(RestActions(collection, names), baseRoute, idPath, verbs);
      && r.Success?
      && Installs(r.value, RequestKey(collection), ConfigOf(collection, baseRoute, idPath), verbs, names)
    decreases |verbs|
  {
    var actions := RestActions(collection, names);
    var key, config := RequestKey(collection), ConfigOf(collection, baseRoute, idPath);
    if |verbs| > 0 {
      var init, last := verbs[..|verbs| - 1], verbs[|verbs| - 1];
      assert verbs == init + [last];
      assert Distinct(init);
      HandlersFromRestActions(collection, names, baseRoute, idPath, init);
      var h := HandlersFrom(actions, baseRoute, idPath, init).value;
      HandlersFromStep(collection, names, baseRoute, idPath, init, last);
      if VerbName(last) in names {
        RequestKeyInjective(collection);
        InstallsNext(h, key, config, init, last, names);
      } else {
        InstallsSkip(h, key, config, init, last, names);
      }
    }
  }

  /**
   * `middleware({actions: createRestActions(collection, verbs), idPath, baseRoute})`
   * with a usable `idPath` installs, for each configured REST verb, a handler
   * under its request type that carries that verb's route and method.
   */
  lemma MiddlewareOfRestActions(collection: string, names: seq<string>, baseRoute: string, idPath: IdPath)
    requires baseRoute != ""
    requires ComputeIdPathString(idPath).Success? && (idPath.IdFunction? || Truthy(idPath.v))
    ensures
      var r := MiddlewareHandlers(Options(Some(RestActions(collection, names)), idPath, Some(baseRoute)));
      && r.Success?
      && forall v :: VerbName(v) in names ==>
           && RouteType(collection, v, Requested) in r.value
           && r.value[RouteType(collection, v, Requested)].apiConfig
              == ComputeApiConfig(baseRoute, VerbName(v), idPath).value
  {
    var options := Options(Some(RestActions(collection, names)), idPath, Some(baseRoute));
    assert Present(options, "actions") && Present(options, "idPath") && Present(options, "baseRoute");
    assert MissingOption(options).None?;
    RestVerbsDistinct();
    HandlersFromRestActions(collection, names, baseRoute, idPath, RestVerbs);
    var r := HandlersFrom(RestActions(collection, names), baseRoute, idPath, RestVerbs).value;
    assert MiddlewareHandlers(options) == Success(r);
    InstalledRoutes(r, collection, names, baseRoute, idPath);
  }

  lemma InstalledRoutes(r: RequestHandlers, collection: string, names: seq<string>, baseRoute: string, idPath: IdPath)
    requires ComputeIdPathString(idPath).Success?
    requires Installs(r, RequestKey(collection), ConfigOf(collection, baseRoute, idPath), RestVerbs, names)
    ensures forall v :: VerbName(v) in names ==>
              && RouteType(collection, v, Requested) in r
              && r[RouteType(collection, v, Requested)].apiConfig == ComputeApiConfig(baseRoute, VerbName(v), idPath).value
  {
    var key, config := RequestKey(collection), ConfigOf(collection, baseRoute, idPath);
    forall v | VerbName(v) in names
      ensures RouteType(collection, v, Requested) in r
      ensures r[RouteType(collection, v, Requested)].apiConfig == ComputeApiConfig(baseRoute, VerbName(v), idPath).value
    {
      assert v in RestVerbs by {
        assert RestVerbs == [Find, FindOne, Create, Update, Delete];
      }
      assert key(v) == RouteType(collection, v, Requested);
      assert config(v).apiConfig == ComputeApiConfig(baseRoute, VerbName(v), idPath).value;
    }
  }

  // ---------------------------------------------------------------- dispatch

  /** What the middleware does with an action: start a request, and pass the action on. */
  datatype Effect = StartRequest(config: RequestConfig, request: HttpRequest, action: Action) | Forward(action: Action)

  /**
   * The dispatcher: a request starts only for a type in the table, and the
   * action is then passed to `next` exactly once, last. `api` builds the
   * request synchronously, so when it throws, the error leaves the
   * dispatcher before `next` is called.
   */
  function Dispatch(handlers: RequestHandlers, a: Action): (r: Result<seq<Effect>, Error>)
    ensures a.actionType !in handlers ==> r == Success([Forward(a)])
    ensures a.actionType in handlers ==>
              (r.Success? <==> ApiRequest(handlers[a.actionType].apiConfig, a).Success?)
    ensures a.actionType in handlers && r.Failure? ==>
              r.error == ApiRequest(handlers[a.actionType].apiConfig, a).error
    ensures r.Success? ==>
              && 1 <= |r.value| <= 2 && r.value[|r.value| - 1] == Forward(a)
              && (forall i :: 0 <= i < |r.value| - 1 ==> !r.value[i].Forward?)
              && (|r.value| == 2 <==> a.actionType in handlers)
    ensures r.Success? && a.actionType in handlers ==>
              r.value[0] == StartRequest(handlers[a.actionType], ApiRequest(handlers[a.actionType].apiConfig, a).value, a)
  {
    if a.actionType in handlers then
      var config := handlers[a.actionType];
      var request :- ApiRequest(config.apiConfig, a);
      Success([StartRequest(config, request, a), Forward(a)])
    else Success([Forward(a)])
  }

  /**
   * Dispatching the request action of a configured verb through the
   * middleware of `createRestActions` with a plain `baseRoute` and an
   * `idPath` naming a payload field: find and create always start a request
   * on `baseRoute`; findOne, update and delete start one on `baseRoute/`
   * followed by the field's value, and throw (passing nothing on) when the
   * payload has no truthy value there.
   */
  lemma DispatchOfRestActions(collection: string, names: seq<string>, baseRoute: string, name: string,
                              v: Verb, payload: Value, meta: Value)
    requires PlainRoute(baseRoute) && baseRoute != ""
    requires |name| > 0 && forall i :: 0 <= i < |name| ==> IsParamChar(name[i])
    requires VerbName(v) in names
    ensures
      var handlers := MiddlewareHandlers(Options(Some(RestActions(collection, names)), IdValue(Str(name)), Some(baseRoute)));
      var a := Action(RouteType(collection, v, Requested), payload, meta);
      var collectionWide := v == Find || v == Create;
      && handlers.Success?
      && (Dispatch(handlers.value, a).Success? <==> collectionWide || Truthy(ParamValue(a, name)))
      && (Dispatch(handlers.value, a).Failure? ==> Dispatch(handlers.value, a).error == UrlKeyMissing(name, a.actionType))
      && (Dispatch(handlers.value, a).Success? ==>
            && Dispatch(handlers.value, a).value[0].StartRequest?
            && Dispatch(handlers.value, a).value[0].request.url
               == (if collectionWide then baseRoute else baseRoute + "/" + ToText(ParamValue(a, name))))
  {
    var idPath := IdValue(Str(name));
    MiddlewareOfRestActions(collection, names, baseRoute, idPath);
    var a := Action(RouteType(collection, v, Requested), payload, meta);
    if v == Find || v == Create {
      CollectionRouteIsBase(baseRoute, VerbName(v), idPath, a);
    } else {
      IdRouteReachesEntity(baseRoute, VerbName(v), name, a);
    }
  }
}
