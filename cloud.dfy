/**
  The three keyed stores the handlers read and write: the object store
  (blobs keyed by bucket and key), the email-record table (keyed by
  destination and messageId, dynamodb.py:29-38) and the address table
  (keyed by address, dynamodb.py:11-26). `faults` names the calls that
  the services reject with a ClientError; every other call succeeds
  according to the services' own rules.
 */
module Cloud {
  import opened Values

  newtype byte = x: int | 0 <= x < 256
  type Bytes = seq<byte>

  datatype BlobKey = BlobKey(bucket: string, key: string)
  datatype EmailKey = EmailKey(destination: string, messageId: string)

  /** One service call, as the fault oracle names it. */
  datatype Call =
    | CopyObject(src: BlobKey, dst: BlobKey)
    | GetObject(blob: BlobKey)
    | PutObject(blob: BlobKey)
    | DeleteObject(blob: BlobKey)
    | GetEmail(email: EmailKey)
    | PutEmail(email: EmailKey)
    | UpdateEmail(email: EmailKey, attr: string)
    | DeleteEmail(email: EmailKey)
    | QueryEmails(destination: string)
    | GetAddress(address: string)
    | PutAddress(address: string)
    | DeleteAddress(address: string)

  /** The table key an email item carries in its own attributes. */
  function EmailKeyOf(item: Item): (r: Option<EmailKey>)
    ensures r.Some? <==> "destination" in item && item["destination"].Str? && "messageId" in item && item["messageId"].Str?
    ensures r.Some? ==> item["destination"] == Str(r.value.destination) && item["messageId"] == Str(r.value.messageId)
  {
    if "destination" in item && item["destination"].Str? && "messageId" in item && item["messageId"].Str?
    then Some(EmailKey(item["destination"].s, item["messageId"].s))
    else None
  }

  /** The table key an address item carries in its own attributes. */
  function AddressKeyOf(item: Item): (r: Option<string>)
    ensures r.Some? <==> "address" in item && item["address"].Str?
    ensures r.Some? ==> item["address"] == Str(r.value)
  {
    if "address" in item && item["address"].Str? then Some(item["address"].s) else None
  }

  /** The stored message an email record names, when both its attributes are strings. */
  /**
    A bucket or key argument read from an item for an S3 call: a missing
    attribute is a KeyError, and a value that is not a string fails
    botocore's parameter validation.
   */
  function ObjectName(item: Item, name: string): (r: Result<string>)
    ensures r.Ok? <==> StrField(item, name).Ok?
    ensures r.Ok? ==> r.value == item[name].s
    ensures r.Err? ==> r.error == (if name in item then ParamError else KeyError)
  {
    if name !in item then Err(KeyError)
    else if item[name].Str? then Ok(item[name].s)
    else Err(ParamError)
  }

  function BlobOf(item: Item): (r: Option<BlobKey>)
    ensures r.Some? <==> StrField(item, "bucketName").Ok? && StrField(item, "bucketObjectKey").Ok?
    ensures r.Some? ==> r.value == BlobKey(item["bucketName"].s, item["bucketObjectKey"].s)
  {
    if StrField(item, "bucketName").Ok? && StrField(item, "bucketObjectKey").Ok?
    then Some(BlobKey(item["bucketName"].s, item["bucketObjectKey"].s))
    else None
  }

  /** The item `update_item` creates when the key is absent: just the key attributes. */
  function KeyItem(k: EmailKey): (r: Item)
    ensures EmailKeyOf(r) == Some(k)
  {
    map["destination" := Str(k.destination), "messageId" := Str(k.messageId)]
  }

  /** `update_item(Key=k, SET attr = v)`: an upsert on one attribute. */
  function Upsert(emails: map<EmailKey, Item>, k: EmailKey, attr: string, v: Value): (r: map<EmailKey, Item>)
    requires attr != "destination" && attr != "messageId"
    ensures r.Keys == emails.Keys + {k}
    ensures attr in r[k] && r[k][attr] == v
    ensures r[k].Keys == Before(emails, k).Keys + {attr}
    ensures forall a :: a in Before(emails, k) && a != attr ==> r[k][a] == Before(emails, k)[a]
    ensures forall j :: j in emails && j != k ==> r[j] == emails[j]
  {
    emails[k := Before(emails, k)[attr := v]]
  }

  /** The item an update starts from: the stored one, or the bare key. */
  function Before(emails: map<EmailKey, Item>, k: EmailKey): (r: Item)
    ensures k in emails ==> r == emails[k]
    ensures k !in emails ==> EmailKeyOf(r) == Some(k) && r.Keys == {"destination", "messageId"}
  {
    if k in emails then emails[k] else KeyItem(k)
  }

  class Store {
    var blobs: map<BlobKey, Bytes>
    var emails: map<EmailKey, Item>
    var addresses: map<string, Item>
    const faults: set<Call>

    /** Every item carries its own key in its attributes, as DynamoDB requires. */
    ghost predicate Valid()
      reads this`emails, this`addresses
    {
      && (forall k :: k in emails ==> EmailKeyOf(emails[k]) == Some(k))
      && (forall a :: a in addresses ==> AddressKeyOf(addresses[a]) == Some(a))
    }

    constructor (blobs: map<BlobKey, Bytes>, emails: map<EmailKey, Item>, addresses: map<string, Item>, faults: set<Call>)
      requires forall k :: k in emails ==> EmailKeyOf(emails[k]) == Some(k)
      requires forall a :: a in addresses ==> AddressKeyOf(addresses[a]) == Some(a)
      ensures Valid()
      ensures this.blobs == blobs && this.emails == emails && this.addresses == addresses && this.faults == faults
    {
      this.blobs := blobs;
      this.emails := emails;
      this.addresses := addresses;
      this.faults := faults;
    }

    // ---- object store ----

    /** `get_object`: NoSuchKey for an absent key is a ClientError. */
    function GetObject(k: BlobKey): (r: Result<Bytes>)
      reads this`blobs
      ensures r.Ok? <==> k in blobs && Call.GetObject(k) !in faults
      ensures r.Ok? ==> r.value == blobs[k]
      ensures r.Err? ==> r.error == ClientError
    {
      if Call.GetObject(k) in faults || k !in blobs then Err(ClientError) else Ok(blobs[k])
    }

    /** `copy_object`: the source must exist, and copying an object onto itself is refused. */
    method CopyObject(src: BlobKey, dst: BlobKey) returns (ok: bool)
      modifies this`blobs
      ensures ok <==> src in old(blobs) && src != dst && Call.CopyObject(src, dst) !in faults
      ensures blobs == if ok then old(blobs)[dst := old(blobs)[src]] else old(blobs)
    {
      ok := src in blobs && src != dst && Call.CopyObject(src, dst) !in faults;
      if ok {
        blobs := blobs[dst := blobs[src]];
      }
    }

    /** `put_object`: creates or overwrites. */
    method PutObject(k: BlobKey, body: Bytes) returns (ok: bool)
      modifies this`blobs
      ensures ok <==> Call.PutObject(k) !in faults
      ensures blobs == if ok then old(blobs)[k := body] else old(blobs)
    {
      ok := Call.PutObject(k) !in faults;
      if ok {
        blobs := blobs[k := body];
      }
    }

    /** `delete_object`: deleting an absent key succeeds. */
    method DeleteObject(k: BlobKey) returns (ok: bool)
      modifies this`blobs
      ensures ok <==> Call.DeleteObject(k) !in faults
      ensures blobs == if ok then old(blobs) - {k} else old(blobs)
    {
      ok := Call.DeleteObject(k) !in faults;
      if ok {
        blobs := blobs - {k};
      }
    }

    // ---- email table ----

    /** `get_item`: None when there is no item under the key. */
    function GetEmail(k: EmailKey): (r: Result<Option<Item>>)
      reads this`emails
      ensures r.Ok? <==> Call.GetEmail(k) !in faults
      ensures r.Ok? ==> r.value == (if k in emails then Some(emails[k]) else None)
      ensures r.Err? ==> r.error == ClientError
    {
      if Call.GetEmail(k) in faults then Err(ClientError)
      else if k in emails then Ok(Some(emails[k]))
      else Ok(None)
    }

    /** `put_item`: the key comes from the item's own attributes; the whole item is replaced. */
    method PutEmail(item: Item) returns (ok: bool)
      requires Valid()
      modifies this`emails
      ensures Valid()
      ensures ok <==> EmailKeyOf(item).Some? && Call.PutEmail(EmailKeyOf(item).value) !in faults
      ensures emails == if ok then old(emails)[EmailKeyOf(item).value := item] else old(emails)
    {
      var k := EmailKeyOf(item);
      ok := k.Some? && Call.PutEmail(k.value) !in faults;
      if ok {
        emails := emails[k.value := item];
      }
    }

    /** `update_item` with `SET attr = v`. */
    method UpdateEmail(k: EmailKey, attr: string, v: Value) returns (ok: bool)
      requires Valid()
      requires attr != "destination" && attr != "messageId"
      modifies this`emails
      ensures Valid()
      ensures ok <==> Call.UpdateEmail(k, attr) !in faults
      ensures emails == if ok then Upsert(old(emails), k, attr, v) else old(emails)
    {
      ok := Call.UpdateEmail(k, attr) !in faults;
      if ok {
        emails := Upsert(emails, k, attr, v);
      }
    }

    /** `delete_item`: deleting an absent key succeeds. */
    method DeleteEmail(k: EmailKey) returns (ok: bool)
      requires Valid()
      modifies this`emails
      ensures Valid()
      ensures ok <==> Call.DeleteEmail(k) !in faults
      ensures emails == if ok then old(emails) - {k} else old(emails)
    {
      ok := Call.DeleteEmail(k) !in faults;
      if ok {
        emails := emails - {k};
      }
    }

    /**
      `query(KeyConditionExpression=destination == d)`, first page: every
      item of the partition exactly once. The order in which the service
      returns them is left open.
     */
    method QueryEmails(d: string) returns (r: Result<seq<Item>>)
      requires Valid()
      ensures r.Ok? <==> Call.QueryEmails(d) !in faults
      ensures r.Err? ==> r.error == ClientError
      ensures r.Ok? ==> QueryAnswer(d, r.value)
    {
      if Call.QueryEmails(d) in faults {
        return Err(ClientError);
      }
      var todo := set k | k in emails && k.destination == d;
      var done: set<EmailKey> := {};
      var items: seq<Item> := [];
      ghost var ks: seq<EmailKey> := [];
      while todo != {}
        invariant todo !! done
        invariant todo + done == set k | k in emails && k.destination == d
        invariant |ks| == |items|
        invariant forall i :: 0 <= i < |ks| ==> ks[i] in done && items[i] == emails[ks[i]]
        invariant forall k :: k in done ==> k in ks
        invariant forall i, j :: 0 <= i < j < |ks| ==> ks[i] != ks[j]
        decreases todo
      {
        var k :| k in todo;
        items := items + [emails[k]];
        ks := ks + [k];
        todo := todo - {k};
        done := done + {k};
      }
      Collected(d, ks, items);
      r := Ok(items);
    }

    /** The keys the query visited, each once, cover the partition: their items are its answer. */
    lemma Collected(d: string, ks: seq<EmailKey>, items: seq<Item>)
      requires Valid()
      requires |ks| == |items|
      requires forall i :: 0 <= i < |ks| ==> ks[i] in emails && ks[i].destination == d && items[i] == emails[ks[i]]
      requires forall k :: k in emails && k.destination == d ==> k in ks
      requires forall i, j :: 0 <= i < j < |ks| ==> ks[i] != ks[j]
      ensures QueryAnswer(d, items)
    {
      forall k | k in emails && k.destination == d
        ensures emails[k] in items
      {
        var i :| 0 <= i < |ks| && ks[i] == k;
        assert items[i] == emails[k];
      }
      forall i, j | 0 <= i < j < |items|
        ensures items[i] != items[j]
      {
        assert EmailKeyOf(items[i]) == Some(ks[i]) && EmailKeyOf(items[j]) == Some(ks[j]);
      }
    }

    /** `items` are exactly the items of partition `d`, each once. */
    ghost predicate QueryAnswer(d: string, items: seq<Item>)
      reads this`emails
    {
      && (forall i :: 0 <= i < |items| ==>
            && EmailKeyOf(items[i]).Some?
            && EmailKeyOf(items[i]).value.destination == d
            && EmailKeyOf(items[i]).value in emails
            && emails[EmailKeyOf(items[i]).value] == items[i])
      && (forall k :: k in emails && k.destination == d ==> emails[k] in items)
      && (forall i, j :: 0 <= i < j < |items| ==> items[i] != items[j])
    }

    // ---- address table ----

    /** `get_item` on the address table. */
    function GetAddress(a: string): (r: Result<Option<Item>>)
      reads this`addresses
      ensures r.Ok? <==> Call.GetAddress(a) !in faults
      ensures r.Ok? ==> r.value == (if a in addresses then Some(addresses[a]) else None)
      ensures r.Err? ==> r.error == ClientError
    {
      if Call.GetAddress(a) in faults then Err(ClientError)
      else if a in addresses then Ok(Some(addresses[a]))
      else Ok(None)
    }

    method PutAddress(item: Item) returns (ok: bool)
      requires Valid()
      modifies this`addresses
      ensures Valid()
      ensures ok <==> AddressKeyOf(item).Some? && Call.PutAddress(AddressKeyOf(item).value) !in faults
      ensures addresses == if ok then old(addresses)[AddressKeyOf(item).value := item] else old(addresses)
    {
      var a := AddressKeyOf(item);
      ok := a.Some? && Call.PutAddress(a.value) !in faults;
      if ok {
        addresses := addresses[a.value := item];
      }
    }

    method DeleteAddress(a: string) returns (ok: bool)
      requires Valid()
      modifies this`addresses
      ensures Valid()
      ensures ok <==> Call.DeleteAddress(a) !in faults
      ensures addresses == if ok then old(addresses) - {a} else old(addresses)
    {
      ok := Call.DeleteAddress(a) !in faults;
      if ok {
        addresses := addresses - {a};
      }
    }
  }
}
