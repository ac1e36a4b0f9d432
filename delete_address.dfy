/**
  Deleting a receiving address (lambda/delete_address_function.py): for
  every record of the address, delete its stored message and then the
  record; then delete the address item. Refusals by the services are
  logged and skipped; a malformed record stops the sweep.
 */
module DeleteAddress {
  import opened Values
  import opened Cloud
  import Util

  /** The two stores the sweep changes. */
  datatype Stores = Stores(blobs: map<BlobKey, Bytes>, emails: map<EmailKey, Item>)

  /**
    One turn of the loop of lines 72-74: `delete_object` on the record's
    object (a refusal answers False and is ignored), then `delete_email_item`
    (a refusal is logged). A missing attribute raises KeyError; an object
    name that is not a string cannot be logged and raises TypeError; the
    first of these escapes, keeping whatever was already deleted.
   */
  function Step(s: Stores, faults: set<Call>, d: string, item: Item): (r: (Stores, Option<Error>))
    ensures r.1.None? <==> Deletable(item)
    ensures r.1.Some? ==> r.1.value in {KeyError, TypeError, ParamError}
  {
    if "bucketName" !in item || "bucketObjectKey" !in item then (s, Some(KeyError))
    else if BlobOf(item).None? then (s, Some(TypeError))
    else
      var b := BlobOf(item).value;
      var s1 := if Call.DeleteObject(b) in faults then s else s.(blobs := s.blobs - {b});
      if "messageId" !in item then (s1, Some(KeyError))
      else if !item["messageId"].Str? then (s1, Some(ParamError))
      else
        var k := EmailKey(d, item["messageId"].s);
        (if Call.DeleteEmail(k) in faults then s1 else s1.(emails := s1.emails - {k}), None)
  }

  /** A record the loop body gets through: it names its object and has a string message id. */
  predicate Deletable(item: Item) {
    BlobOf(item).Some? && "messageId" in item && item["messageId"].Str?
  }

  /** The loop over the queried items, stopping at the first exception. */
  function Sweep(s: Stores, faults: set<Call>, d: string, items: seq<Item>): (r: (Stores, Option<Error>))
    ensures r.1.None? <==> forall i :: 0 <= i < |items| ==> Deletable(items[i])
    ensures r.1.Some? ==> r.1.value in {KeyError, TypeError, ParamError}
  {
    if items == [] then (s, None)
    else
      var init := Sweep(s, faults, d, items[..|items| - 1]);
      if init.1.Some? then init
      else Step(init.0, faults, d, items[|items| - 1])
  }

  /** `delete_object` then `delete_email_item` for one record. */
  method DeleteOne(store: Store, d: string, item: Item) returns (e: Option<Error>)
    requires store.Valid()
    modifies store`blobs, store`emails
    ensures store.Valid()
    ensures (Stores(store.blobs, store.emails), e) == Step(Stores(old(store.blobs), old(store.emails)), store.faults, d, item)
  {
    if "bucketName" !in item || "bucketObjectKey" !in item {
      return Some(KeyError);
    }
    if !item["bucketName"].Str? || !item["bucketObjectKey"].Str? {
      return Some(TypeError);
    }
    var _ := store.DeleteObject(BlobKey(item["bucketName"].s, item["bucketObjectKey"].s));
    if "messageId" !in item {
      return Some(KeyError);
    }
    if !item["messageId"].Str? {
      return Some(ParamError);
    }
    var _ := store.DeleteEmail(EmailKey(d, item["messageId"].s));
    e := None;
  }

  /** The `for` loop of `find_emails`. */
  method DeleteEach(store: Store, d: string, items: seq<Item>) returns (e: Option<Error>)
    requires store.Valid()
    modifies store`blobs, store`emails
    ensures store.Valid()
    ensures (Stores(store.blobs, store.emails), e) == Sweep(Stores(old(store.blobs), old(store.emails)), store.faults, d, items)
  {
    ghost var start := Stores(store.blobs, store.emails);
    var i := 0;
    while i < |items|
      invariant 0 <= i <= |items|
      invariant store.Valid()
      invariant Sweep(start, store.faults, d, items[..i]) == (Stores(store.blobs, store.emails), None)
    {
      assert items[..i + 1][..i] == items[..i];
      e := DeleteOne(store, d, items[i]);
      if e.Some? {
        SweepStops(start, store.faults, d, items, i + 1);
        return;
      }
      i := i + 1;
    }
    assert items[..i] == items;
    e := None;
  }

  /**
    `find_emails`: query the address's records; a refused query is logged
    and nothing is deleted. The loop sits in the `else` of the `try`, so
    its exceptions are not caught there.
   */
  method FindEmails(store: Store, d: string) returns (e: Option<Error>, ghost items: Option<seq<Item>>)
    requires store.Valid()
    modifies store`blobs, store`emails
    ensures store.Valid()
    ensures items.None? <==> Call.QueryEmails(d) in store.faults
    ensures items.None? ==> e.None? && store.blobs == old(store.blobs) && store.emails == old(store.emails)
    ensures items.Some? ==>
      && old(store.QueryAnswer(d, items.value))
      && (Stores(store.blobs, store.emails), e) == Sweep(Stores(old(store.blobs), old(store.emails)), store.faults, d, items.value)
  {
    var found := store.QueryEmails(d);
    if found.Err? {
      return None, None;
    }
    items := Some(found.value);
    e := DeleteEach(store, d, found.value);
  }

  /** One turn only deletes: the record's own object, and a record of the address. */
  lemma StepOnlyDeletes(s: Stores, faults: set<Call>, d: string, item: Item)
    ensures var r := Step(s, faults, d, item).0;
      && r.blobs.Keys <= s.blobs.Keys && r.emails.Keys <= s.emails.Keys
      && (forall b :: b in r.blobs ==> r.blobs[b] == s.blobs[b])
      && (forall k :: k in r.emails ==> r.emails[k] == s.emails[k])
      && (forall b :: b in s.blobs && b !in r.blobs ==> BlobOf(item) == Some(b))
      && (forall k :: k in s.emails && k !in r.emails ==> k.destination == d)
  {
  }

  /**
    The sweep only deletes: what is left of each store is unchanged, every
    object it removed is the one some record names, and every record it
    removed belongs to the address. In particular the attachment objects,
    which no record names, are never deleted.
   */
  lemma {:induction false} SweepOnlyDeletes(s: Stores, faults: set<Call>, d: string, items: seq<Item>)
    ensures var r := Sweep(s, faults, d, items).0;
      && r.blobs.Keys <= s.blobs.Keys && r.emails.Keys <= s.emails.Keys
      && (forall b :: b in r.blobs ==> r.blobs[b] == s.blobs[b])
      && (forall k :: k in r.emails ==> r.emails[k] == s.emails[k])
      && (forall b :: b in s.blobs && b !in r.blobs ==> exists i :: 0 <= i < |items| && BlobOf(items[i]) == Some(b))
      && (forall k :: k in s.emails && k !in r.emails ==> k.destination == d)
  {
    if items != [] {
      var init := items[..|items| - 1];
      var last := items[|items| - 1];
      SweepOnlyDeletes(s, faults, d, init);
      var mid := Sweep(s, faults, d, init);
      var r := Sweep(s, faults, d, items).0;
      if mid.1.None? {
        StepOnlyDeletes(mid.0, faults, d, last);
        assert r == Step(mid.0, faults, d, last).0;
      }
      forall b | b in s.blobs && b !in r.blobs
        ensures exists i :: 0 <= i < |items| && BlobOf(items[i]) == Some(b)
      {
        if b in mid.0.blobs {
          assert BlobOf(items[|items| - 1]) == Some(b);
        } else {
          var i :| 0 <= i < |init| && BlobOf(init[i]) == Some(b);
          assert items[i] == init[i];
        }
      }
    }
  }

  /** Once a turn has raised, later records change nothing. */
  lemma {:induction false} SweepStops(s: Stores, faults: set<Call>, d: string, items: seq<Item>, j: nat)
    requires j <= |items|
    requires Sweep(s, faults, d, items[..j]).1.Some?
    ensures Sweep(s, faults, d, items) == Sweep(s, faults, d, items[..j])
  {
    if j < |items| {
      assert items[..|items| - 1][..j] == items[..j];
      SweepStops(s, faults, d, items[..|items| - 1], j);
    } else {
      assert items[..j] == items;
    }
  }

  /**
    With well-formed records and no refusal, the sweep finishes and every
    record's object and the record itself are gone.
   */
  lemma {:induction false} SweepDeletesAll(s: Stores, faults: set<Call>, d: string, items: seq<Item>)
    requires forall i :: 0 <= i < |items| ==> BlobOf(items[i]).Some? && "messageId" in items[i] && items[i]["messageId"].Str?
    requires forall i :: 0 <= i < |items| ==> Call.DeleteObject(BlobOf(items[i]).value) !in faults
    requires forall i :: 0 <= i < |items| ==> Call.DeleteEmail(EmailKey(d, items[i]["messageId"].s)) !in faults
    ensures var r := Sweep(s, faults, d, items);
      && r.1.None?
      && forall i :: 0 <= i < |items| ==>
           BlobOf(items[i]).value !in r.0.blobs && EmailKey(d, items[i]["messageId"].s) !in r.0.emails
  {
    if items != [] {
      var init := items[..|items| - 1];
      assert forall i :: 0 <= i < |init| ==> init[i] == items[i];
      SweepDeletesAll(s, faults, d, init);
      var mid := Sweep(s, faults, d, init).0;
      SweepOnlyDeletes(mid, faults, d, [items[|items| - 1]]);
      assert Sweep(mid, faults, d, [items[|items| - 1]]) == Step(mid, faults, d, items[|items| - 1]) by {
        assert [items[|items| - 1]][..0] == [];
      }
    }
  }

  /**
    When the table is well formed and nothing is refused, a full sweep over
    the query's answer leaves no record of the address at all.
   */
  lemma NoRecordLeft(s: Stores, faults: set<Call>, d: string, items: seq<Item>)
    requires forall k :: k in s.emails ==> EmailKeyOf(s.emails[k]) == Some(k)
    requires forall k :: k in s.emails && k.destination == d ==> s.emails[k] in items
    requires forall i :: 0 <= i < |items| ==> BlobOf(items[i]).Some? && "messageId" in items[i] && items[i]["messageId"].Str?
    requires forall i :: 0 <= i < |items| ==> Call.DeleteObject(BlobOf(items[i]).value) !in faults
    requires forall i :: 0 <= i < |items| ==> Call.DeleteEmail(EmailKey(d, items[i]["messageId"].s)) !in faults
    ensures Sweep(s, faults, d, items).1.None?
    ensures forall k :: k in Sweep(s, faults, d, items).0.emails ==> k.destination != d
  {
    SweepDeletesAll(s, faults, d, items);
    SweepOnlyDeletes(s, faults, d, items);
  }

  /**
    `lambda_handler`. A malformed request or a refused ownership lookup is
    a 500 that changes nothing. Without access nothing is deleted and the
    handler answers None. With access `cleanup` runs: a refused query
    deletes no record, otherwise every queried record is swept; when the
    sweep raises nothing the address item is deleted (a refusal is
    logged) and the answer is 200, and an exception that stops the sweep
    is a 500 that leaves the address item in place.
   */
  method LambdaHandler(store: Store, event: Value) returns (r: Option<Util.Reply>, ghost items: Option<seq<Item>>)
    requires store.Valid()
    modifies store`blobs, store`emails, store`addresses
    ensures store.Valid()
    ensures var target := Util.AddressRequest(event);
      var refused := target.Ok? && Call.GetAddress(target.value.0) !in store.faults
                     && !Util.Owns(old(store.addresses), target.value.0, target.value.1);
      && (target.Err? ==> r == Some(Util.Reply(500, Util.Exc(target.error))))
      && (target.Ok? && Call.GetAddress(target.value.0) in store.faults ==> r == Some(Util.Reply(500, Util.Exc(ClientError))))
      && (r.None? <==> refused)
      && (target.Err? || Call.GetAddress(target.value.0) in store.faults || refused ==>
            store.blobs == old(store.blobs) && store.emails == old(store.emails) && store.addresses == old(store.addresses))
    ensures var target := Util.AddressRequest(event);
      target.Ok? && Call.GetAddress(target.value.0) !in store.faults && Util.Owns(old(store.addresses), target.value.0, target.value.1) ==>
        var d := target.value.0;
        var deleted := if Call.DeleteAddress(d) in store.faults then old(store.addresses) else old(store.addresses) - {d};
        && (items.None? <==> Call.QueryEmails(d) in store.faults)
        && (items.None? ==>
              && store.blobs == old(store.blobs) && store.emails == old(store.emails)
              && r == Some(Util.Reply(200, Util.Val(Null))) && store.addresses == deleted)
        && (items.Some? ==>
              && old(store.QueryAnswer(d, items.value))
              && var swept := Sweep(Stores(old(store.blobs), old(store.emails)), store.faults, d, items.value);
              && Stores(store.blobs, store.emails) == swept.0
              && (swept.1.None? ==> r == Some(Util.Reply(200, Util.Val(Null))) && store.addresses == deleted)
              && (swept.1.Some? ==> r == Some(Util.Reply(500, Util.Exc(swept.1.value))) && store.addresses == old(store.addresses)))
  {
    items := None;
    var target := Util.AddressRequest(event);
    if target.Err? { return Some(Util.Reply(500, Util.Exc(target.error))), None; }
    var (d, userSub) := target.value;
    var access := Util.CheckAccess(store, userSub, d, false);
    if access.Err? { return Some(Util.Reply(500, Util.Exc(access.error))), None; }
    if !access.value.granted {
      return None, None;
    }
    var e;
    e, items := FindEmails(store, d);
    if e.Some? { return Some(Util.Reply(500, Util.Exc(e.value))), items; }
    var _ := store.DeleteAddress(d);
    r := Some(Util.Reply(200, Util.Val(Null)));
  }
}
