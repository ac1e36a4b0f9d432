/**
  Registering a new receiving address (lambda/api_post_addresses_function.py,
  and its older copy lambda/post_addresses_function.py, which differs only
  in environment-variable names and logging): the address must match the
  address pattern and belong to the configured mail domain, and must not be
  registered yet.
 */
module PostAddresses {
  import opened Values
  import opened Cloud
  import opened Text
  import Util
  import AdmissionFilter

  /** A character of a local-part label, `[_a-z0-9-]`. */
  predicate LocalChar(c: char) {
    c == '_' || c == '-' || 'a' <= c <= 'z' || '0' <= c <= '9'
  }

  /** A character of a domain label, `[a-z0-9-]`. */
  predicate DomainChar(c: char) {
    c == '-' || 'a' <= c <= 'z' || '0' <= c <= '9'
  }

  /** Non-empty labels of the given characters, separated by single dots. */
  predicate DottedLabels(s: string, local: bool) {
    var labels := Split(s, '.');
    forall i :: 0 <= i < |labels| ==>
      labels[i] != [] && forall j :: 0 <= j < |labels[i]| ==> if local then LocalChar(labels[i][j]) else DomainChar(labels[i][j])
  }

  /** The domain part of the pattern: at least two labels, the last one two to four letters. */
  predicate DomainPart(s: string) {
    var labels := Split(s, '.');
    && DottedLabels(s, false)
    && |labels| >= 2
    && 2 <= |labels[|labels| - 1]| <= 4
    && Letters(labels[|labels| - 1])
  }

  /** `[a-z]*` */
  predicate Letters(t: string) {
    forall j :: 0 <= j < |t| ==> 'a' <= t[j] <= 'z'
  }

  /** The whole address without the end anchor: one '@' between a local part and a domain part. */
  predicate AddressShape(s: string) {
    var parts := Split(s, '@');
    |parts| == 2 && DottedLabels(parts[0], true) && DomainPart(parts[1])
  }

  /**
    `re.match(r"^[_a-z0-9-]+(\.[_a-z0-9-]+)*@[a-z0-9-]+(\.[a-z0-9-]+)*(\.[a-z]{2,4})$", s)`.
    Python's `$` also matches just before a final line break, so the
    address may end with one.
   */
  predicate MatchesPattern(s: string) {
    AddressShape(s) || (s != [] && s[|s| - 1] == '\n' && AddressShape(s[..|s| - 1]))
  }

  /** `validate_email`: the pattern holds and the text after the last '@' is the configured domain. */
  function ValidateEmail(address: Value, domain: string): (r: Result<bool>)
    ensures r.Err? <==> !address.Str?
    ensures r.Err? ==> r.error == TypeError
    ensures r.Ok? ==> (r.value <==> MatchesPattern(address.s) && Split(address.s, '@')[|Split(address.s, '@')| - 1] == domain)
  {
    if !address.Str? then Err(TypeError)
    else
      var s := address.s;
      var parts := Split(s, '@');
      Ok(MatchesPattern(s) && parts[|parts| - 1] == domain)
  }

  /** An address that passes has no upper-case letter, so the lower-casing before lookup and put changes nothing. */
  lemma AcceptedIsLowerCase(address: string, domain: string)
    requires ValidateEmail(Str(address), domain) == Ok(true)
    ensures Lower(address) == address
  {
    var s := if AddressShape(address) then address else address[..|address| - 1];
    assert AddressShape(s);
    var parts := Split(s, '@');
    forall i | 0 <= i < |address|
      ensures IsLowerChar(address[i])
    {
      var c := address[i];
      if c != '\n' && c != '@' && c != '.' {
        assert c in s by {
          if s != address {
            assert i < |s|;
            assert s[i] == c;
          }
        }
        SplitCovers(s, '@');
        var k :| 0 <= k < |parts| && c in parts[k];
        var labels := Split(parts[k], '.');
        SplitCovers(parts[k], '.');
        var m :| 0 <= m < |labels| && c in labels[m];
        var j :| 0 <= j < |labels[m]| && labels[m][j] == c;
        assert k == 0 ==> LocalChar(c);
        assert k == 1 ==> DomainChar(c);
      }
    }
    LowerIdentity(address);
  }

  /**
    An accepted address is a dotted local part, '@' and exactly the
    configured domain (which then ends in a line break if the address does).
   */
  lemma AcceptedIsInDomain(address: string, domain: string)
    requires ValidateEmail(Str(address), domain) == Ok(true)
    ensures exists local :: address == local + "@" + domain && DottedLabels(local, true)
  {
    var s := if AddressShape(address) then address else address[..|address| - 1];
    var parts := Split(s, '@');
    var all := Split(address, '@');
    if s != address {
      assert address == s + "\n";
      SplitAppend(s, '@', '\n');
    }
    assert |all| == 2 && all[0] == parts[0];
    JoinSplit(address, '@');
    assert address == all[0] + "@" + all[1];
  }

  /** b is a with c appended to its last piece. */
  predicate LastExtended(a: seq<string>, b: seq<string>, c: char)
    requires |a| >= 1
  {
    && |b| == |a|
    && (forall i :: 0 <= i < |a| - 1 ==> b[i] == a[i])
    && b[|a| - 1] == a[|a| - 1] + [c]
  }

  /** Appending a non-separator character extends the last piece. */
  lemma {:induction false} SplitAppend(s: string, sep: char, c: char)
    requires c != sep
    ensures LastExtended(Split(s, sep), Split(s + [c], sep), c)
  {
    if s == [] {
      assert Split([c], sep) == [[c] + Split([], sep)[0]] + Split([], sep)[1..];
    } else {
      SplitAppend(s[1..], sep, c);
      assert (s + [c])[1..] == s[1..] + [c];
      if s[0] == sep {
        SplitAppendAfterSep(s, sep, c);
      } else {
        SplitAppendInPiece(s, sep, c);
      }
    }
  }

  /** The step of SplitAppend for text that opens with the separator. */
  lemma SplitAppendAfterSep(s: string, sep: char, c: char)
    requires c != sep && s != [] && s[0] == sep
    requires LastExtended(Split(s[1..], sep), Split(s[1..] + [c], sep), c)
    ensures LastExtended(Split(s, sep), Split(s + [c], sep), c)
  {
    var t := s + [c];
    assert t[0] == sep && t[1..] == s[1..] + [c];
    var a', b' := Split(s[1..], sep), Split(s[1..] + [c], sep);
    assert Split(s, sep) == [[]] + a';
    assert Split(t, sep) == [[]] + b';
  }

  /** The step of SplitAppend for text that opens with a character of the first piece. */
  lemma SplitAppendInPiece(s: string, sep: char, c: char)
    requires c != sep && s != [] && s[0] != sep
    requires LastExtended(Split(s[1..], sep), Split(s[1..] + [c], sep), c)
    ensures LastExtended(Split(s, sep), Split(s + [c], sep), c)
  {
    var t := s + [c];
    assert t[0] == s[0] && t[1..] == s[1..] + [c];
    var a', b' := Split(s[1..], sep), Split(s[1..] + [c], sep);
    var a, b := Split(s, sep), Split(t, sep);
    assert a == [[s[0]] + a'[0]] + a'[1..];
    assert b == [[s[0]] + b'[0]] + b'[1..];
    if |a'| > 1 {
      assert b'[0] == a'[0];
      assert forall i :: 1 <= i < |a| ==> a[i] == a'[i] && b[i] == b'[i];
    } else {
      assert [s[0]] + (a'[0] + [c]) == ([s[0]] + a'[0]) + [c];
    }
  }

  /** `create_address`: put the lower-cased address with its owner; a rejected put re-raises a string, a TypeError. */
  method CreateAddress(store: Store, address: string, userSub: Value, summarize: Value) returns (r: Result<()>)
    requires store.Valid()
    modifies store`addresses
    ensures store.Valid()
    ensures var a := Lower(address);
      && (r.Ok? <==> Call.PutAddress(a) !in store.faults)
      && (r.Err? ==> r.error == TypeError && store.addresses == old(store.addresses))
      && (r.Ok? ==> store.addresses == old(store.addresses)[a := NewAddress(a, userSub, summarize)])
  {
    var ok := store.PutAddress(NewAddress(Lower(address), userSub, summarize));
    r := if ok then Ok(()) else Err(TypeError);
  }

  /** The item registered for an address. */
  function NewAddress(address: string, userSub: Value, summarize: Value): (r: Item)
    ensures r.Keys == {"address", "user_sub", "summarize_emails"}
    ensures AddressKeyOf(r) == Some(address)
    ensures r["user_sub"] == userSub && r["summarize_emails"] == summarize
  {
    map["address" := Str(address), "user_sub" := userSub, "summarize_emails" := summarize]
  }

  const InvalidMessage := "Invalid request data"
  const ExistsMessage := "email address already exists, please use a different address"
  const CreatedMessage := "email address created"

  /**
    `lambda_handler`: read the caller and the JSON body, validate, check
    for an existing registration, create. Anything raised becomes a 500
    reply carrying the exception. `loads` is `json.loads` (None when the
    text is not JSON).
   */
  method LambdaHandler(store: Store, event: Value, domain: string, loads: string -> Option<Value>) returns (r: Util.Reply)
    requires store.Valid()
    modifies store`addresses
    ensures store.Valid()
    ensures r.status in {201, 400, 500}
    ensures r.status != 201 ==> store.addresses == old(store.addresses)
    ensures r.status == 201 <==>
      && Util.UserSub(event).Ok?
      && var request := Requested(event, loads);
      && request.Ok?
      && ValidateEmail(request.value.0, domain) == Ok(true)
      && old(AdmissionFilter.AddressExists(store, request.value.0.s)) == Ok(false)
      && Call.PutAddress(Lower(request.value.0.s)) !in store.faults
    ensures r.status == 201 ==>
      var request := Requested(event, loads).value;
      var a := request.0.s;
      && a == Lower(a)
      && r.body == Util.Val(Str(CreatedMessage))
      && store.addresses == old(store.addresses)[a := NewAddress(a, Util.UserSub(event).value, request.1)]
    ensures r.status == 400 ==>
      r.body == Util.Val(Str(InvalidMessage)) || r.body == Util.Val(Str(ExistsMessage))
    ensures r.status == 500 ==> r.body.Exc?
    ensures Util.UserSub(event).Err? ==> r == Util.Reply(500, Util.Exc(Util.UserSub(event).error))
    ensures Util.UserSub(event).Ok? && Requested(event, loads).Err? ==>
      r == Util.Reply(500, Util.Exc(Requested(event, loads).error))
    ensures Util.UserSub(event).Ok? && Requested(event, loads).Ok? ==>
      var valid := ValidateEmail(Requested(event, loads).value.0, domain);
      && (valid.Err? ==> r == Util.Reply(500, Util.Exc(TypeError)))
      && (r == Util.Reply(400, Util.Val(Str(InvalidMessage))) <==> valid == Ok(false))
      && (r == Util.Reply(400, Util.Val(Str(ExistsMessage))) <==>
            valid == Ok(true) && old(AdmissionFilter.AddressExists(store, Requested(event, loads).value.0.s)) == Ok(true))
  {
    var userSub := Util.UserSub(event);
    if userSub.Err? { return Util.Reply(500, Util.Exc(userSub.error)); }
    var request := Requested(event, loads);
    if request.Err? { return Util.Reply(500, Util.Exc(request.error)); }
    var (newAddress, summarize) := request.value;
    var valid := ValidateEmail(newAddress, domain);
    if valid.Err? { return Util.Reply(500, Util.Exc(valid.error)); }
    if !valid.value {
      return Util.Reply(400, Util.Val(Str(InvalidMessage)));
    }
    var a := newAddress.s;
    AcceptedIsLowerCase(a, domain);
    // A well-formed table never makes the lookup raise.
    var exists_ := AdmissionFilter.AddressExists(store, a);
    if exists_.value {
      return Util.Reply(400, Util.Val(Str(ExistsMessage)));
    }
    var created := CreateAddress(store, a, userSub.value, summarize);
    if created.Err? { return Util.Reply(500, Util.Exc(created.error)); }
    r := Util.Reply(201, Util.Val(Str(CreatedMessage)));
  }

  /**
    `json.loads(event["body"])` and its `new_address` and
    `summarize_emails` entries, each None when absent.
   */
  function Requested(event: Value, loads: string -> Option<Value>): (r: Result<(Value, Value)>)
    ensures r.Ok? ==> Path(event, ["body"]).Ok? && Path(event, ["body"]).value.Str?
  {
    match Path(event, ["body"])
    case Err(e) => Err(e)
    case Ok(text) =>
      if !text.Str? then Err(TypeError)
      else match loads(text.s)
        case None => Err(ValueError)
        case Some(body) =>
          if !body.Dict? then Err(AttributeError)
          else Ok((Get(body.fields, "new_address", Null), Get(body.fields, "summarize_emails", Null)))
  }
}
