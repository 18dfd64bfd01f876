# redux-rest-tools, modelled in Dafny

redux-rest-tools gives a Redux application the plumbing for one REST
collection (say `cats`). It has four parts:

- **Action creators** for each verb (`find`, `findOne`, `create`, `update`,
  `delete`). Each verb has three phases (`request`, `success`, `fail`), and
  their types look like `CATS_FINDONE_SUCCESS`. There is also a `clear` and
  a `clearErrors` action.
- **A reducer.** It keeps a cache of entities keyed by id, the list of ids in
  `result`, one pending-request flag per verb under `ui`, and the last error
  of each verb.
- **Read helpers** over that state.
- **A middleware.** It turns each `*_REQUEST` action into an HTTP request
  against a route built from `baseRoute` and the entity's id path.

This project models those parts as Dafny functions, methods and datatypes,
and proves what the code promises. The code's promises are stated in the
`ensures` clauses and lemmas:

- The round trips it relies on.
- The invariants its reducer keeps.
- How its handler tables route each action type.
- Its error cases, which are modelled as `Result` failures instead of
  exceptions.

Files (one module each):

| file | module | models |
|---|---|---|
| `wrappers.dfy` | `Wrappers` | `Option` and `Result` |
| `values.dfy` | `Values` | JavaScript values, truthiness, `String(v)`, the thrown errors |
| `text.dfy` | `Text` | ASCII case mapping, `join`, `split` |
| `actions.dfy` | `Actions` | `src/actions.js`; `src/rest-actions.js` is the same code |
| `normalize.dfy` | `Normalization` | `src/normalize.js` |
| `reducers.dfy` | `Reducers` | `src/reducers.js`: state, transitions, `handlerCreator`, `restReducer` |
| `reducer_laws.dfy` | `ReducerLaws` | invariants and request/settle laws of that reducer |
| `routing.dfy` | `Routing` | how `restReducer`'s table routes the types of `createRestActions` |
| `helpers.dfy` | `Helpers` | `src/helpers.js` |
| `rest_reducers.dfy` | `RestReducers` | the earlier reducer of `src/rest-reducers.js` and its readers |
| `variant_routing.dfy` | `VariantRouting` | how that earlier reducer routes `clear` and `clearErrors` |
| `api.dfy` | `Api` | `src/api.js` up to the HTTP call |
| `middleware.dfy` | `Middleware` | `src/middleware.js`: route table, option checks, handler table, dispatcher |

Modelling choices:

- **Values.** One `Value` datatype stands for both plain JavaScript values
  and Immutable.js collections. Objects and Maps are `Obj` (keyed by value),
  and arrays and Lists are `Arr`.
- **Reducer state.** It is a typed record. `entities` and `result` become
  `None` when a find success stored `undefined` there. The per-id pending
  maps are sets, because they only ever hold `true`.
- **Handler tables** are maps from action type to a handler name. `Apply`
  runs the named handler, and `Reduce` plays the role of `handleActions`.
- **Exceptions** are `Failure` values that carry the thrown condition.

## Model

| member | source | states |
|---|---|---|
| Actions.UpperAll | src/actions.js:8 | every part is upper-cased, and order and count are kept |
| Actions.CreateTypeSplits | src/actions.js:7-8 | splitting a type on "_" gives back the upper-cased parts when no part holds "_", so joining loses nothing |
| Actions.CreateTypeIsUpperCase | src/actions.js:7-8 | a type never contains a lower-case letter |
| Actions.RequestTypeLayout | src/actions.js:10-11 | a request type is `COLLECTION_VERB_SUFFIX`: the upper-cased collection, "_", then the verb-and-suffix type |
| Actions.ReducerTypeLayout | src/actions.js:13-14 | a reducer type is the upper-cased collection, "_", then the upper-cased suffix |
| Actions.RequestTypesDistinct | src/actions.js:10-11 | within one collection, equal request types mean equal verbs and suffixes up to case |
| Actions.RequestTypeIsNotReducerType | src/actions.js:10-14 | a request type never equals a reducer type of the same collection |
| Actions.CreateAction | src/actions.js:16-19 | the action carries the type and the payload; `meta` is attached exactly when it is truthy |
| Actions.RequestActions | src/actions.js:21-26 | the group has exactly the keys request, success and fail, each creating its own request type |
| Actions.ReducerActions | src/actions.js:28-33 | the group has exactly clear and clearErrors, each creating its reducer type |
| Actions.CreateRequestActions | src/actions.js:21-26 | the suffix loop builds exactly `RequestActions` |
| Actions.CreateReducerActions | src/actions.js:28-33 | the suffix loop builds exactly `ReducerActions` |
| Actions.VerbEntries | src/actions.js:39-41 | after the verb loop, the keys are exactly the given verbs, each holding its request group |
| Actions.WithReducerEntries | src/actions.js:43 | the clear and clearErrors creators are put over the table, and every other key keeps its entry |
| Actions.RestActions | src/actions.js:35-46 | the table holds the verbs plus clear and clearErrors; the reducer creators win a clash of keys |
| Actions.CreateRestActions | src/actions.js:35-46 | the loop and the `Object.assign` build exactly `RestActions` |
| Normalization.Normalized.ToValue | src/normalize.js:10-13 | the payload object has `entities` and `result` holding the normalized map and list |
| Normalization.Items | src/normalize.js:5 | an array is taken as it is, and anything else as a one-element array |
| Normalization.NormalizeItems | src/normalize.js:5-14 | one id per item, in input order, each the item's id; the entity keys are exactly the listed ids |
| Normalization.LastItemWins | src/normalize.js:8 | the entity stored under an id is the last item carrying that id |
| Normalization.EntitiesComeFromItems | src/normalize.js:6-9 | every stored entity is an input item, stored under that item's id |
| Normalization.SingleIsOneElementArray | src/normalize.js:5 | a single entity normalizes like the one-element array holding it |
| Reducers.ParseVerb | src/reducers.js:176-178 | a name selects a verb exactly when it is that verb's name; otherwise no verb has that name |
| Reducers.GetIdFromPayloadKey | src/reducers.js:40-47 | fails with the missing-payload error for a falsy payload and the missing-id error for a falsy id; otherwise returns `payload[idAttribute]` |
| Reducers.GetIdFromNormalizedPayload | src/reducers.js:49-57 | succeeds exactly when the payload is truthy and `result` is a non-empty array with a truthy first element, which it returns; each failure names its cause |
| Reducers.GetEntityFromAction | src/reducers.js:59-66 | passes on the id reader's error; succeeds exactly when `entities[id]` is truthy, and returns that entity |
| Reducers.AppendIfAbsent | src/reducers.js:100-103 | the id ends up listed; the list is unchanged when the id was there, and otherwise extended by it |
| Reducers.Without | src/reducers.js:164 | exactly the elements other than the id are kept, with their multiplicities |
| Reducers.FindRequest | src/reducers.js:75-76 | raises `ui.finding` and changes nothing else |
| Reducers.FindSuccess | src/reducers.js:77-81 | an undefined or null payload cannot be destructured; otherwise the payload's entities and result replace the cached ones and `ui.finding` drops, leaving the other flags and errors |
| Reducers.FindFail | src/reducers.js:82-85 | the error is recorded under find, other verbs' errors are kept, `ui.finding` drops, and the data is untouched |
| Reducers.FindOneRequest | src/reducers.js:91-94 | fails exactly when the id reader fails; otherwise only marks the id as being fetched |
| Reducers.FindOneSuccess | src/reducers.js:95-105 | stores the entity under its id, lists the id only if it is absent, and clears its pending flag; errors from the readers pass through |
| Reducers.FindOneFail | src/reducers.js:106-109 | records the error under findOne, forgets every pending fetch, and changes nothing else |
| Reducers.CreateRequest | src/reducers.js:115-117 | raises `ui.creating` and changes nothing else |
| Reducers.CreateSuccess | src/reducers.js:118-125 | stores the entity, appends its id unconditionally, and lowers `ui.creating` |
| Reducers.CreateFail | src/reducers.js:126-129 | records the error under create, lowers `ui.creating`, and changes nothing else |
| Reducers.UpdateRequest | src/reducers.js:135-139 | fails exactly when the id reader fails; otherwise only marks the id as updating |
| Reducers.UpdateSuccess | src/reducers.js:140-146 | overwrites the entity, leaves `result` alone, and clears the id's flag |
| Reducers.UpdateFail | src/reducers.js:147-150 | records the error under update, empties `ui.updating`, and changes nothing else |
| Reducers.DeleteRequest | src/reducers.js:155-159 | fails exactly when the id reader fails; otherwise only marks the id as deleting |
| Reducers.RemoveEntity | src/reducers.js:162-165 | removes the entity, every occurrence of the id in `result`, and its pending flag |
| Reducers.DeleteSuccess | src/reducers.js:160-166 | takes the id from `result[0]` and removes it everywhere, or fails with the id reader's error |
| Reducers.DeleteFail | src/reducers.js:167-170 | records the error under delete, empties `ui.deleting`, and changes nothing else |
| Reducers.Reduce | src/reducers.js:222 | an unknown type leaves the state as it is; a known type runs its handler on the given state, or on the initial state when the state is undefined |
| Reducers.Member | src/reducers.js:183 | a creator is found exactly when the entry is a group with that suffix |
| Reducers.CompleteIff | src/reducers.js:182-186 | an entry passes the suffix check exactly when it has request, success and fail creators |
| Reducers.VerbHandlers | src/reducers.js:175-193 | unknown verb → handler-not-found; succeeds exactly for a known verb with all three creators, keyed by their three types; otherwise names a missing suffix |
| Reducers.HandlerCreator | src/reducers.js:175-193 | the suffix loop returns exactly `VerbHandlers` |
| Reducers.HandlerTableOf | src/reducers.js:196-197 | missing actions → the actions-required error |
| Reducers.RestReducer | src/reducers.js:195-223 | the verb loop and the clear/clearErrors wiring build exactly `HandlerTableOf` |
| Reducers.FailureSticks | src/reducers.js:199-206 | once the verb fold throws, its result is that same error whatever verbs follow |
| ReducerLaws.InitialStateIsConsistent | src/reducers.js:5-15 | the initial state lists no id without an entity and no id twice |
| ReducerLaws.WithoutConcat | src/reducers.js:164 | filtering a concatenation is the concatenation of the filtered parts, in order |
| ReducerLaws.WithoutKeepsNoDuplicates | src/reducers.js:164 | filtering keeps a list free of duplicates |
| ReducerLaws.FindOneSuccessKeepsNoDuplicates | src/reducers.js:100-103 | findOne.success never lists an id twice |
| ReducerLaws.CreateSuccessCanDuplicate | src/reducers.js:123 | create.success on a cached id lists it twice |
| ReducerLaws.TransitionKeepsConsistent | src/reducers.js:72-173 | every handler except find.success keeps every listed id backed by an entity |
| ReducerLaws.FindSuccessOfNormalized | src/reducers.js:77-81 | find.success on a normalized payload stores exactly it and leaves a consistent state |
| ReducerLaws.TransitionKeepsNoDuplicates | src/reducers.js:72-173 | every handler except find.success and create.success keeps `result` free of duplicates |
| ReducerLaws.DeleteSuccessForgets | src/reducers.js:160-166 | after a delete, the id has no entity, no listing and no flag, and every other id is exactly as before |
| ReducerLaws.FindOneSettles | src/reducers.js:91-105 | a request then the matching success: the id was pending, is no longer, and is listed with the fetched entity |
| ReducerLaws.UpdateSettles | src/reducers.js:135-146 | a request then the matching success: the id was pending, is no longer, and `result` is untouched |
| ReducerLaws.DeleteSettles | src/reducers.js:155-166 | a request then the matching success: the id was pending, is no longer, and its entity is gone |
| ReducerLaws.FindOneFailClearsPending | src/reducers.js:91-109 | a findOne failure after its request: the id was pending, the pending set is emptied, the error is recorded under findOne, and the data is kept |
| ReducerLaws.UpdateFailClearsPending | src/reducers.js:135-150 | an update failure after its request: the id was pending, the pending set is emptied, the error is recorded under update, and the data is kept |
| ReducerLaws.DeleteFailClearsPending | src/reducers.js:155-170 | a delete failure after its request: the id was pending, the pending set is emptied, the error is recorded under delete, and the entity and `result` are kept |
| ReducerLaws.ClearIsInitial | src/reducers.js:212-215 | the clear handler yields the initial state from any state |
| ReducerLaws.ClearErrorsKeepsData | src/reducers.js:217-220 | the clearErrors handler removes the errors and nothing else |
| Routing.RouteTypeInjective | src/actions.js:10-11 | distinct verb/phase pairs of one collection have distinct types |
| Routing.VerbHandlersOfRestActions | src/reducers.js:175-193 | a generated verb group yields exactly its three types, each routed to that verb and phase |
| Routing.RoutesAddVerb | src/reducers.js:203 | merging a verb's handlers keeps every earlier route, because types are distinct |
| Routing.VerbTableStep | src/reducers.js:199-206 | one more verb of generated actions adds exactly its handlers when configured, and nothing otherwise |
| Routing.VerbTableRoutes | src/reducers.js:199-206 | the verb fold over generated actions routes each configured verb's types and holds no other type |
| Routing.HandlerTableOfRestActions | src/reducers.js:212-220 | the clear and clearErrors creators' types go on top of the verb table |
| Routing.RouteTypeIsNotReducerType | src/actions.js:10-14 | no verb type is the clear or the clearErrors type |
| Routing.RestReducerRoutes | src/reducers.js:195-223 | the table routes every configured verb/phase type to its handler, clear to the reset and clearErrors to dropping errors, and holds nothing else |
| Routing.ReducerHandlersOnTop | src/reducers.js:212-220 | putting clear and clearErrors on a routing table overwrites no verb route |
| Routing.ReduceRunsTheVerbHandler | src/reducers.js:195-222 | a dispatched verb action runs exactly that verb and phase's handler, on the initial state when the state is undefined |
| Helpers.MergeOptions | src/helpers.js:17 | the defaults are reverse false and immutable true; every given key wins, even an undefined one |
| Helpers.Reversed | src/helpers.js:25 | the same length, read from the other end |
| Helpers.GetEntities | src/helpers.js:16-28 | empty for a missing state, entities or result; otherwise the entity of each listed id, in the walked order |
| Helpers.ReverseOption | src/helpers.js:25 | a truthy `reverse` gives exactly the reverse of the default order |
| Helpers.DefaultOrder | src/helpers.js:11-17 | without a truthy `reverse` the entities come in `result` order |
| Helpers.GetEntity | src/helpers.js:38-43 | defined exactly when the state has a truthy entity under the id, and then it is that entity |
| Helpers.GetStatus | src/helpers.js:47-56 | nothing for a missing state; unknown status → error naming it; without an id, the whole entry; with an id, true exactly for a pending id |
| Helpers.StatusFollowsFindOne | src/helpers.js:47-56 | the status of an id is pending after its findOne request and cleared after the success, which makes the entity readable |
| Helpers.GetEntitiesAfterFind | src/helpers.js:16-28 | round trip: normalize a list with distinct ids, store it by find.success, read it back, and you get the list |
| RestReducers.FindOneSuccessAppend | src/rest-reducers.js:91-98 | stores the entity, appends the id unconditionally, and clears its flag |
| RestReducers.DeleteSuccessByKey | src/rest-reducers.js:153-159 | takes the id from `payload[idAttribute]` and removes it everywhere |
| RestReducers.ApplyVariant | src/rest-reducers.js:68-166 | every handler except findOne.success and delete.success is that of src/reducers.js |
| RestReducers.VariantHandlerTable | src/rest-reducers.js:188-213 | the verb table, plus the key "undefined" when clear or clearErrors is configured (clearErrors wins); equal to the newer table when neither is configured |
| RestReducers.ReduceVariant | src/rest-reducers.js:215 | an unknown type leaves the state; a known one runs its handler, on the initial state when undefined |
| RestReducers.FindOneVariantsAgreeOnNewIds | src/rest-reducers.js:91-98 | for an id not yet listed, the two findOne successes agree |
| RestReducers.RepeatedFindOneDuplicates | src/rest-reducers.js:96 | fetching the same entity twice lists its id twice |
| RestReducers.DeleteVariantsAgree | src/rest-reducers.js:153-159 | when the payload key and `result[0]` name the same id, the two delete successes agree |
| RestReducers.ToJs | src/rest-reducers.js:235 | collections convert to themselves; undefined and primitives throw |
| RestReducers.ConvertAll | src/rest-reducers.js:235 | succeeds exactly when every listed id's entity is a collection, and then returns those entities in order |
| RestReducers.GetEntities | src/rest-reducers.js:228-236 | empty for a missing state, entities or result; otherwise the converted entities in `result` order or reversed |
| RestReducers.GetEntitiesAgree | src/rest-reducers.js:228-236 | wherever it succeeds, it returns what the getEntities of src/helpers.js returns |
| RestReducers.GetEntitiesSucceeds | src/rest-reducers.js:228-236 | on a consistent state that holds only collections it never throws |
| RestReducers.GetEntity | src/rest-reducers.js:238-242 | throws exactly for a truthy non-collection entity; otherwise returns the entity or undefined |
| VariantRouting.CreateTypeIsNotUndefinedKey | src/rest-reducers.js:205-213 | no generated type is the text "undefined" |
| VariantRouting.VariantTableOnTop | src/rest-reducers.js:205-213 | both reducer handlers land on the one key "undefined", clearErrors last |
| VariantRouting.VariantTableOfRestActions | src/rest-reducers.js:188-215 | verb types route as in src/reducers.js; the only other key is "undefined", which drops errors |
| VariantRouting.ReducerActionsAreIgnored | src/rest-reducers.js:205-213 | the collection's clear and clearErrors actions have no handler and leave the state unchanged |
| VariantRouting.UndefinedTypeDropsErrors | src/rest-reducers.js:210-213 | an action whose type is "undefined" drops the errors |
| Api.RunEnd | src/api.js:6 | the end of the longest run of `[_a-zA-Z]` characters from a position |
| Api.TokenLength | src/api.js:6 | a match of `:[_a-zA-Z]+\b` is a colon, a maximal run of letters or "_", then the end or a non-word character |
| Api.TokenLengthComplete | src/api.js:6 | wherever the expression matches at the start with some length, `TokenLength` is that length |
| Api.Tokens | src/api.js:6 | every matched token is a colon followed by at least one character |
| Api.MatchStarts | src/api.js:6 | the listed positions lie in the text, from the given one on |
| Api.MatchStartsSound | src/api.js:6 | every listed position is a match position, and the list is strictly increasing |
| Api.MatchStartsComplete | src/api.js:6 | every position where the expression matches is listed; none is skipped |
| Api.MatchesDoNotOverlap | src/api.js:6 | each listed match ends before the next one starts |
| Api.TokensAreMatches | src/api.js:6 | the global match returns one token per match position, in order: the text matched there |
| Api.ParamValue | src/api.js:11 | the value is truthy exactly when the payload and its key are truthy |
| Api.FirstMissing | src/api.js:9-12 | there is none exactly when every token's value is truthy |
| Api.ReplaceEach | src/api.js:9-14 | the loop fails exactly when some token's value is missing, naming the first such key and the action type |
| Api.ReplaceUrlParams | src/api.js:4-17 | the loop computes exactly `ReplaceEach` over the route's tokens |
| Api.SubstituteFailsLikeLoop | src/api.js:9-14 | in-place substitution throws exactly when the loop throws, with the same error |
| Api.PlainRouteUnchanged | src/api.js:4-17 | a route in which no ":" is followed by a letter or "_" (such as `https://host/users`) has no tokens and comes back unchanged both ways |
| Api.SubstituteAfterPlainPrefix | src/api.js:4-17 | a prefix in which no token starts is copied ahead of whatever the rest becomes |
| Api.SubstituteIdRoute | src/api.js:4-17 | `base/:name` has the one token `:name` and becomes `base/` followed by the text of `payload[name]`; a falsy value throws the missing-key error |
| Api.ReplaceEachIdRoute | src/api.js:4-17 | the loop as written turns `base/:name` into the same url, or throws the same error, whatever the value holds |
| Api.ReplaceEachMatchesSubstitute | src/api.js:4-17 | when every ":" of the route starts a token or is followed by neither a letter, "_" nor ":", and no value put in holds ":", the loop as written and substitution in place give the same result |
| Api.TokensOfTwoParams | src/api.js:6 | `/:a/:b` has the tokens `:a` and `:b` |
| Api.ColonInValueMisplaced | src/api.js:13 | as written, `/:a/:b` with a = "urn:b", b = "42" becomes "/urn42/:b" |
| Api.ReplaceFirstSkips | src/api.js:13 | `replace` copies any prefix in which the pattern does not start, then replaces the first occurrence after it |
| Api.ColonInValueKept | src/api.js:4-17 | substituting in place gives "/urn:b/42" for the same input |
| Api.ApiRequest | src/api.js:19-31 | the url error comes first, then a missing method; the payload is the body exactly for post/put/patch and the query exactly for get, in any case |
| Api.ApiRequestAgreesWithLoop | src/api.js:19-23 | `api` throws exactly when the loop as written throws or the method is missing, with the same error, and builds the loop's url wherever the loop and substitution agree |
| Middleware.ComputeIdPathString | src/middleware.js:76-85 | a string is kept, a function gives its result, an array is joined with "."; anything else throws |
| Middleware.IdPathArraySplits | src/middleware.js:81-82 | an array path of dot-free names splits back into those names |
| Middleware.ComputeApiConfig | src/middleware.js:87-110 | the method and route of each verb: get/base, get/base/:id, post/base, put/base/:id, delete/base/:id; an invalid idPath fails for every verb |
| Middleware.IdRouteReachesEntity | src/middleware.js:87-110 | findOne, update and delete requests go to `base/` followed by the entity's id, with the payload as query, body or neither; they throw the missing-key error exactly when the payload has no truthy id |
| Middleware.IdRouteRequest | src/api.js:19-31 | the request `api` builds on `base/:name` with get, put or delete |
| Middleware.CollectionRouteIsBase | src/middleware.js:87-110 | find and create requests go to `baseRoute` itself, with the payload as query or body |
| Middleware.MissingOption | src/middleware.js:121-125 | names the first of actions, idPath and baseRoute that is falsy; none exactly when all are present |
| Middleware.VerbRequestHandler | src/middleware.js:137-157 | succeeds exactly for a complete verb entry and a valid idPath; keyed by the request creator's type, with that verb's api config |
| Middleware.HandlersFrom | src/middleware.js:131-158 | the loop throws exactly when a visited verb present in the actions is incomplete or the idPath is invalid, with the error of the first such verb; every installed key is the request type of a visited, present verb |
| Middleware.HandlersFromInstalls | src/middleware.js:147-156 | after the loop, each visited present verb's request type is a key, holding that verb's handler unless a later present verb has the same request type |
| Middleware.MiddlewareHandlers | src/middleware.js:119-158 | a missing option throws first, naming it; otherwise the verb loop's table |
| Middleware.BuildMiddleware | src/middleware.js:119-158 | the option loop and the verb loop (with `continue`) build exactly `MiddlewareHandlers` |
| Middleware.HandlersFailureSticks | src/middleware.js:131-158 | once the verb loop throws, the result is that same error |
| Middleware.RestVerbRequestHandler | src/middleware.js:137-157 | a generated verb group installs its handler under its REQUEST type, with its route config |
| Middleware.HandlersFromStep | src/middleware.js:131-158 | one loop step adds a configured verb's handler under its request type and leaves the table alone otherwise |
| Middleware.HandlersFromRestActions | src/middleware.js:131-158 | over generated actions, every configured verb's handler sits under its own request type |
| Middleware.MiddlewareOfRestActions | src/middleware.js:119-158 | with all options present, each configured verb's request type carries that verb's route and method |
| Middleware.Dispatch | src/middleware.js:160-166 | a type without a handler is only passed on; for a type with one, the dispatcher throws exactly when `api` cannot build the request, with its error and without passing the action on, and otherwise starts that request and passes the action on once, last |
| Middleware.DispatchOfRestActions | src/middleware.js:160-166 | through the middleware of generated actions, find and create always start a request on `baseRoute`; findOne, update and delete start one on `baseRoute/` and the id, and throw before `next` when the payload has no truthy id |

## Left out

- HTTP is not part of this model: the axios call, the promise chain of `request` and the success/fail dispatching (src/middleware.js:16-74, src/api.js:33-38). They are I/O. `Api.ApiRequest` stops at the configuration handed to the client.
- The sagas (src/sagas.js, src/rest-sagas.js) are not part of this model.
- `extraHandlers` (src/reducers.js:208-210, src/rest-reducers.js:201-203) are arbitrary caller functions and are left out.
- The `immutable` options and `toJS`/`fromJS`/`makeImmutable` conversions of src/helpers.js and src/reducers.js are left out. Plain and Immutable values are one `Value`. The exception is the `toJS` that throws in src/rest-reducers.js, which is modelled.
- Object key order is not modelled. Tables are maps, and the loops of `restReducer` and `middleware` visit the verbs in the fixed order find, findOne, create, update, delete. When several verbs are invalid, the model may report a different one first than the source would.
- src/middleware.js:6-7 imports `restVerbs` from `./reducers`, which exports none, and `requestSuffixes` from `./shared`. src/shared.js is not part of this model. The model uses the lists that test/shared.spec.js:13-20 expects.
- src/rest-actions.js repeats src/actions.js line for line and is modelled once, by `Actions`. The payload readers and `getStatus` of src/rest-reducers.js repeat those of src/reducers.js and src/helpers.js and are modelled once.
- Numbers are integers: NaN, floating point and `-0` are left out. Case mapping is ASCII only.
- Api.ApiRequest: builds the url by substitution in place (`Api.Substitute`), the corrected form of the loop at src/api.js:9-14 (see Findings). `Api.ApiRequestAgreesWithLoop` and `Api.ReplaceEachMatchesSubstitute` show that it throws exactly as the loop does and builds the same url unless a colon in the route or in a value misleads the loop.
- `String.replace` special patterns (`$&`, `$1` …) in a substituted value are not modelled.
- Property reads on strings and arrays (`"abc"[0]`, `.length`), prototype properties (`handlers["toString"]`) and id comparison by reference are not modelled. Ids are compared structurally.
- Reducers.GetIdFromNormalizedPayload: a truthy non-array `result` yields the missing-result error. The source would read its `[0]` (the first character of a string, or an object's "0" key).
- Reducers.FindSuccess: `entities` that is neither an object nor undefined, or `result` that is neither an array nor undefined, is rejected with `UnsupportedValue`. The source would store it as it is.
- Normalization.NormalizeItems: the id of a null or undefined item reads as undefined. The source throws there.
- Actions.CreateAction: redux-actions' marking of an `Error` payload with `error: true` is left out.
- Middleware.ComputeIdPathString: an `idPath` function is given by the value it returns, and the function itself is not modelled.
- A falsy verb entry in an actions table cannot be expressed: every `Entry` is an object or a function.

## Findings

| source | as written | input that shows it | evidently intended | confidence | as-written member | corrected member |
|---|---|---|---|---|---|---|
| src/api.js:13 | each token is replaced with `url.replace(token, value)`, which hits the first occurrence of the token's text anywhere in the url built so far, including inside an earlier substituted value | route `/:a/:b`, payload `{a: "urn:b", b: "42"}` gives `/urn42/:b` | each token replaced where it stands: `/urn:b/42` | not executed | Api.ColonInValueMisplaced | Api.ColonInValueKept |
| src/rest-reducers.js:205-213 | `const { type } = actions['clear']` reads `type` off the creator function, which has none, so both handlers are installed under the key "undefined" | `restReducer({actions: createRestActions({collection: 'cats', verbs: []})})`, then dispatching `CATS_CLEAR` leaves the state unchanged | take the type of the created action, `actions.clear().type`, as src/reducers.js:212-219 does, so that clear resets the state | not executed | VariantRouting.ReducerActionsAreIgnored | Routing.RestReducerRoutes |
