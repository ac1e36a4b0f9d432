/**
  The helpers every REST handler shares (lambda/util.py): building the
  HTTP response, the ownership check on an address, and reading the
  caller's identity from the request.
 */
module Util {
  import opened Values
  import opened Cloud

  /** What a handler passes as `body`: a JSON-able value, or the exception it caught. */
  datatype Arg = Val(v: Value) | Exc(e: Error)

  /** The response body: `json.dumps` of a value, or the argument as it was given. */
  datatype Payload = Dumped(v: Value) | Verbatim(a: Arg)

  datatype Response = Response(statusCode: int, body: Payload, headers: map<string, string>)

  /** The arguments a handler hands to `create_response` (with the default headers and jsonify). */
  datatype Reply = Reply(status: int, body: Arg)

  /** The three CORS headers every response carries. */
  function Cors(): (r: map<string, string>)
    ensures r.Keys == {"access-control-allow-headers", "access-control-allow-methods", "access-control-allow-origin"}
    ensures r["access-control-allow-origin"] == "*"
  {
    map[
      "access-control-allow-headers" := "Content-Type,X-Amz-Date,Authorization,X-Api-Key,X-Amz-Security-Token",
      "access-control-allow-methods" := "DELETE,GET,HEAD,OPTIONS,PATCH,POST,PUT",
      "access-control-allow-origin" := "*"
    ]
  }

  /**
    The `additional_headers` dictionary. Its default value is created once
    and shared by every call that does not pass one, so what one call adds
    is still there in the next.
   */
  class Headers {
    var entries: map<string, string>

    constructor (entries: map<string, string>)
      ensures this.entries == entries
    {
      this.entries := entries;
    }
  }

  /**
    `create_response`: the CORS headers are merged into the given
    dictionary in place first; then the body is JSON-encoded when
    `jsonify` is set, which raises TypeError for an exception object.
   */
  method CreateResponse(status: int, body: Arg, headers: Headers, jsonify: bool) returns (r: Result<Response>)
    modifies headers
    ensures headers.entries == old(headers.entries) + Cors()
    ensures jsonify && body.Exc? ==> r == Err(TypeError)
    ensures jsonify && body.Val? ==> r == Ok(Response(status, Dumped(body.v), headers.entries))
    ensures !jsonify ==> r == Ok(Response(status, Verbatim(body), headers.entries))
  {
    headers.entries := headers.entries + Cors();
    if !jsonify {
      return Ok(Response(status, Verbatim(body), headers.entries));
    }
    match body
    case Exc(_) => return Err(TypeError);
    case Val(v) => return Ok(Response(status, Dumped(v), headers.entries));
  }

  /** The merged headers: every CORS header with its fixed value, every other caller header kept. */
  lemma CorsOverrides(given: map<string, string>)
    ensures forall h :: h in Cors() ==> h in given + Cors() && (given + Cors())[h] == Cors()[h]
    ensures forall h :: h in given && h !in Cors() ==> h in given + Cors() && (given + Cors())[h] == given[h]
    ensures (given + Cors()).Keys == given.Keys + Cors().Keys
  {
  }

  /** The shared default dictionary gains the same three entries once and then stays as it is. */
  lemma {:induction false} SharedDefaultSettles(given: map<string, string>, calls: nat)
    ensures Merged(given, calls + 1) == given + Cors()
  {
    if calls > 0 {
      SharedDefaultSettles(given, calls - 1);
      assert given + Cors() + Cors() == given + Cors();
    }
  }

  /** The default dictionary after `calls` calls of `create_response`. */
  function Merged(given: map<string, string>, calls: nat): (r: map<string, string>)
    ensures calls > 0 ==> r.Keys == given.Keys + Cors().Keys
  {
    if calls == 0 then given else Merged(given, calls - 1) + Cors()
  }

  /** What the exception's text reads as, `str(e)`. */
  function Describe(e: Error): string {
    match e
    case ClientError => "ClientError"
    case KeyError => "KeyError"
    case TypeError => "TypeError"
    case IndexError => "IndexError"
    case ParamError => "ParamValidationError"
    case DecodeError => "UnicodeDecodeError"
    case ValueError => "JSONDecodeError"
    case AttributeError => "AttributeError"
  }

  /**
    `create_response` as the handlers evidently meant it for their error
    path: an exception is reported by its text, so every reply becomes a
    response.
   */
  method CreateErrorSafeResponse(status: int, body: Arg, headers: Headers) returns (r: Response)
    modifies headers
    ensures headers.entries == old(headers.entries) + Cors()
    ensures r.statusCode == status && r.headers == headers.entries
    ensures body.Val? ==> r.body == Dumped(body.v)
    ensures body.Exc? ==> r.body == Dumped(Str(Describe(body.e)))
  {
    headers.entries := headers.entries + Cors();
    var v := match body case Val(v) => v case Exc(e) => Str(Describe(e));
    r := Response(status, Dumped(v), headers.entries);
  }

  /**
    The handlers' error path as written: the 500 reply carries the
    exception object, and `create_response` then raises instead of
    answering.
   */
  method ErrorReplyRaises(e: Error, headers: Headers) returns (r: Result<Response>)
    modifies headers
    ensures r == Err(TypeError)
  {
    r := CreateResponse(500, Exc(e), headers, true);
  }

  /** The caller owns the address: its item exists, is not empty, and carries the caller's `user_sub`. */
  predicate Owns(addresses: map<string, Item>, destination: string, userSub: Value) {
    destination in addresses && Truthy(Dict(addresses[destination]))
    && Get(addresses[destination], "user_sub", Null) == userSub
  }

  /** `check_access`: the answer, alone or with the address item. */
  datatype Access = Decision(granted: bool) | WithItem(granted: bool, item: Option<Item>)

  /**
    `check_access`: one lookup of the destination exactly as given (no
    lower-casing); access iff the item exists and its `user_sub` equals
    the caller's. A failed lookup is re-raised.
   */
  function CheckAccess(store: Store, userSub: Value, destination: string, fullResponse: bool): (r: Result<Access>)
    reads store`addresses
    ensures r.Err? <==> Call.GetAddress(destination) in store.faults
    ensures r.Err? ==> r.error == ClientError
    ensures r.Ok? ==> r.value.WithItem? == fullResponse
    ensures r.Ok? ==> (r.value.granted <==> Owns(store.addresses, destination, userSub))
    ensures r.Ok? && fullResponse ==>
      r.value.item == (if destination in store.addresses then Some(store.addresses[destination]) else None)
  {
    match store.GetAddress(destination)
    case Err(e) => Err(e)
    case Ok(item) =>
      var granted := item.Some? && Truthy(Dict(item.value)) && Get(item.value, "user_sub", Null) == userSub;
      Ok(if fullResponse then WithItem(granted, item) else Decision(granted))
  }

  /** `get_user_sub_from_event`: the `sub` claim of the authorizer. */
  function UserSub(event: Value): (r: Result<Value>)
    ensures r.Ok? <==>
      && event.Dict? && "requestContext" in event.fields
      && var context := event.fields["requestContext"];
      && context.Dict? && "authorizer" in context.fields
      && var authorizer := context.fields["authorizer"];
      && authorizer.Dict? && "claims" in authorizer.fields
      && var claims := authorizer.fields["claims"];
      && claims.Dict? && "sub" in claims.fields
    ensures r.Ok? ==> r.value == event.fields["requestContext"].fields["authorizer"].fields["claims"].fields["sub"]
    ensures r.Err? ==> (r.error == KeyError <==> DictsAlong(event, ["requestContext", "authorizer", "claims", "sub"]))
    ensures r.Err? ==> r.error in {KeyError, TypeError}
  {
    Path(event, ["requestContext", "authorizer", "claims", "sub"])
  }

  /** `event["pathParameters"][name]`, which must be a string to serve as a table key. */
  function PathParameter(event: Value, name: string): (r: Result<string>)
    ensures r.Ok? ==> Path(event, ["pathParameters", name]) == Ok(Str(r.value))
  {
    match Path(event, ["pathParameters", name])
    case Err(e) => Err(e)
    case Ok(v) => if v.Str? then Ok(v.s) else Err(ParamError)
  }

  /** The `addressId` path parameter and the caller, read in that order by the handlers that take both. */
  function AddressRequest(event: Value): (r: Result<(string, Value)>)
    ensures r.Ok? <==> PathParameter(event, "addressId").Ok? && UserSub(event).Ok?
    ensures r.Ok? ==> r.value == (PathParameter(event, "addressId").value, UserSub(event).value)
  {
    match PathParameter(event, "addressId")
    case Err(e) => Err(e)
    case Ok(d) =>
      match UserSub(event)
      case Err(e) => Err(e)
      case Ok(sub) => Ok((d, sub))
  }
}
