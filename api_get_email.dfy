/**
  Reading one stored message through the REST API
  (lambda/api_get_email_function.py): after the ownership check, fetch the
  record and the raw message, hand out pre-signed links for the stored
  attachments, and mark the record read.
 */
module ApiGetEmail {
  import opened Values
  import opened Cloud
  import opened Foreign
  import Util
  import AttachmentStage

  /**
    `get_email_file`: the record, or None. A ClientError is re-raised as
    `raise <str>`, which Python refuses with a TypeError.
   */
  function GetEmailFile(store: Store, k: EmailKey): (r: Result<Option<Item>>)
    reads store`emails
    ensures r.Err? <==> Call.GetEmail(k) in store.faults
    ensures r.Err? ==> r.error == TypeError
    ensures r.Ok? ==> (r.value.Some? <==> k in store.emails)
    ensures r.Ok? && r.value.Some? ==> r.value.value == store.emails[k]
  {
    match store.GetEmail(k)
    case Err(_) => Err(TypeError)
    case Ok(item) => Ok(item)
  }

  /** `set_as_read`: `SET is_read = True`; a rejected update raises a TypeError as above. */
  method SetAsRead(store: Store, k: EmailKey) returns (r: Result<()>)
    requires store.Valid()
    modifies store`emails
    ensures store.Valid()
    ensures r.Ok? <==> Call.UpdateEmail(k, "is_read") !in store.faults
    ensures r.Err? ==> r.error == TypeError && store.emails == old(store.emails)
    ensures r.Ok? ==> store.emails == Upsert(old(store.emails), k, "is_read", Bool(true))
  {
    var ok := store.UpdateEmail(k, "is_read", Bool(true));
    r := if ok then Ok(()) else Err(TypeError);
  }

  /**
    What `for attachment in attachments` visits. A list yields its
    elements; an empty string or dictionary yields nothing; a non-empty one
    yields strings, on which the loop body's `.get` raises AttributeError;
    None, booleans and numbers are not iterable.
   */
  function Elements(v: Value): (r: Result<seq<Value>>)
    ensures v.List? ==> r == Ok(v.elems)
    ensures r.Ok? ==> v.List? || r.value == []
    ensures r.Err? ==> r.error in {TypeError, AttributeError}
  {
    match v
    case List(elems) => Ok(elems)
    case Str(s) => if s == [] then Ok([]) else Err(AttributeError)
    case Dict(fields) => if fields == map[] then Ok([]) else Err(AttributeError)
    case _ => Err(TypeError)
  }

  /** The object key an attachment's link points at: the file name as `str()` renders it, "None" included. */
  function AttachmentObjectKey(env: Env, d: string, m: string, attachment: Item): string {
    "stored_emails/" + d + "/" + m + "/attachments/" + env.format(Get(attachment, "filename", Null))
  }

  /** One entry of the answer: the attachment's metadata and its link. */
  function Link(attachment: Value, url: string): Value {
    Dict(map["metadata" := attachment, "url" := Str(url)])
  }

  /**
    The links `generate_presigned_urls` returns for the visited
    attachments: in their order, one per attachment the signer accepts.
    A signer failure is a ClientError, logged and skipped; an attachment
    that is not a dictionary has no `.get` and the AttributeError escapes.
   */
  function PresignedUrls(env: Env, bucket: string, d: string, m: string, attachments: seq<Value>): (r: Result<seq<Value>>)
    ensures r.Ok? <==> forall i :: 0 <= i < |attachments| ==> attachments[i].Dict?
    ensures r.Err? ==> r.error == AttributeError
    ensures r.Ok? ==> |r.value| <= |attachments|
  {
    if attachments == [] then Ok([])
    else
      var init := PresignedUrls(env, bucket, d, m, attachments[..|attachments| - 1]);
      var last := attachments[|attachments| - 1];
      if init.Err? then init
      else if !last.Dict? then Err(AttributeError)
      else match env.presign(BlobKey(bucket, AttachmentObjectKey(env, d, m, last.fields)))
        case None => init
        case Some(url) => Ok(init.value + [Link(last, url)])
  }

  /** `generate_presigned_urls`, the loop. */
  method GeneratePresignedUrls(env: Env, bucket: string, d: string, m: string, attachments: seq<Value>)
    returns (r: Result<seq<Value>>)
    ensures r == PresignedUrls(env, bucket, d, m, attachments)
  {
    var urls: seq<Value> := [];
    var i := 0;
    while i < |attachments|
      invariant 0 <= i <= |attachments|
      invariant PresignedUrls(env, bucket, d, m, attachments[..i]) == Ok(urls)
    {
      var attachment := attachments[i];
      assert attachments[..i + 1][..i] == attachments[..i];
      if !attachment.Dict? {
        return Err(AttributeError);
      }
      var url := env.presign(BlobKey(bucket, AttachmentObjectKey(env, d, m, attachment.fields)));
      if url.Some? {
        urls := urls + [Link(attachment, url.value)];
      }
      i := i + 1;
    }
    assert attachments[..i] == attachments;
    r := Ok(urls);
  }

  /** The attachments that get a link, in order. */
  function Signed(env: Env, bucket: string, d: string, m: string, attachments: seq<Value>): (r: seq<Value>)
    requires forall i :: 0 <= i < |attachments| ==> attachments[i].Dict?
    ensures |r| <= |attachments|
    ensures forall j :: 0 <= j < |r| ==> r[j].Dict? && r[j] in attachments
  {
    if attachments == [] then []
    else
      var init := Signed(env, bucket, d, m, attachments[..|attachments| - 1]);
      var last := attachments[|attachments| - 1];
      if env.presign(BlobKey(bucket, AttachmentObjectKey(env, d, m, last.fields))).Some? then init + [last] else init
  }

  /**
    The links are the signed attachments, in their original order, each
    with the URL the signer gave for its own object key.
   */
  lemma {:induction false} LinksFollowAttachments(env: Env, bucket: string, d: string, m: string, attachments: seq<Value>)
    requires forall i :: 0 <= i < |attachments| ==> attachments[i].Dict?
    ensures var r := PresignedUrls(env, bucket, d, m, attachments);
      var s := Signed(env, bucket, d, m, attachments);
      && r.Ok? && |r.value| == |s|
      && forall j :: 0 <= j < |s| ==>
           && env.presign(BlobKey(bucket, AttachmentObjectKey(env, d, m, s[j].fields))).Some?
           && r.value[j] == Link(s[j], env.presign(BlobKey(bucket, AttachmentObjectKey(env, d, m, s[j].fields))).value)
  {
    if attachments != [] {
      LinksFollowAttachments(env, bucket, d, m, attachments[..|attachments| - 1]);
    }
  }

  /** When the signer accepts every key, every attachment gets its link, in order. */
  lemma {:induction false} AllSigned(env: Env, bucket: string, d: string, m: string, attachments: seq<Value>)
    requires forall i :: 0 <= i < |attachments| ==> attachments[i].Dict?
    requires forall i :: 0 <= i < |attachments| ==>
      env.presign(BlobKey(bucket, AttachmentObjectKey(env, d, m, attachments[i].fields))).Some?
    ensures Signed(env, bucket, d, m, attachments) == attachments
  {
    if attachments != [] {
      AllSigned(env, bucket, d, m, attachments[..|attachments| - 1]);
    }
  }

  /**
    For the metadata the attachment stage records, the link points at the
    very object that stage stored the payload under (str() leaves a string
    as it is).
   */
  lemma LinkPointsAtStoredAttachment(env: Env, d: string, m: string, p: Part)
    requires forall t :: env.format(Str(t)) == t
    ensures AttachmentObjectKey(env, d, m, AttachmentStage.Metadata(p)) == AttachmentStage.AttachmentKey(d, m, AttachmentStage.FileName(p))
  {
  }

  /** The answer of a successful read. */
  function Answer(contents: string, summary: Value, links: seq<Value>): (r: Value)
    ensures r.Dict? && r.fields.Keys == {"body", "summary", "attachments"}
    ensures r.fields["body"] == Str(contents) && r.fields["summary"] == summary && r.fields["attachments"] == List(links)
  {
    Dict(map["body" := Str(contents), "summary" := summary, "attachments" := List(links)])
  }

  /**
    The caller and the message a per-message request names, read in the
    handlers' order: `addressId`, `messageId`, then the caller's `sub`.
   */
  function Request(event: Value): (r: Result<(EmailKey, Value)>)
    ensures r.Ok? <==> Util.PathParameter(event, "addressId").Ok? && Util.PathParameter(event, "messageId").Ok? && Util.UserSub(event).Ok?
    ensures r.Ok? ==> r.value.0 == EmailKey(Util.PathParameter(event, "addressId").value, Util.PathParameter(event, "messageId").value)
    ensures r.Ok? ==> r.value.1 == Util.UserSub(event).value
  {
    match Util.PathParameter(event, "addressId")
    case Err(e) => Err(e)
    case Ok(d) =>
      match Util.PathParameter(event, "messageId")
      case Err(e) => Err(e)
      case Ok(m) =>
        match Util.UserSub(event)
        case Err(e) => Err(e)
        case Ok(sub) => Ok((EmailKey(d, m), sub))
  }

  /** Where a per-message request goes before the message itself is touched. */
  datatype Route = Failed(error: Error) | Refused | Missing | Found(k: EmailKey)

  /**
    The ownership check and the record lookup the per-message handlers
    share: a refused lookup or a malformed request fails, a caller who does
    not own the address is refused, and otherwise the record is found or
    missing. (`check_access` answers the same decision with or without
    `full_response`.)
   */
  function Locate(store: Store, event: Value): (r: Route)
    reads store`emails, store`addresses
    ensures Request(event).Err? ==> r == Failed(Request(event).error)
    ensures Request(event).Ok? && Call.GetAddress(Request(event).value.0.destination) in store.faults ==>
      r == Failed(ClientError)
    ensures Request(event).Ok? && Call.GetAddress(Request(event).value.0.destination) !in store.faults ==>
      var (k, sub) := Request(event).value;
      && (r == Refused <==> !Util.Owns(store.addresses, k.destination, sub))
      && (Util.Owns(store.addresses, k.destination, sub) && Call.GetEmail(k) in store.faults ==> r == Failed(TypeError))
      && (Util.Owns(store.addresses, k.destination, sub) && Call.GetEmail(k) !in store.faults ==>
            r == if k in store.emails then Found(k) else Missing)
    ensures r.Found? ==> r.k in store.emails
  {
    match Request(event)
    case Err(e) => Failed(e)
    case Ok((k, sub)) =>
      match Util.CheckAccess(store, sub, k.destination, false)
      case Err(e) => Failed(e)
      case Ok(access) =>
        if !access.granted then Refused
        else match GetEmailFile(store, k)
          case Err(e) => Failed(e)
          case Ok(None) => Missing
          case Ok(Some(_)) => Found(k)
  }

  /**
    Lines 93-108 and the `is_read` read of line 110 for a found record: the
    answer, or the exception raised on the way (a missing attribute, a
    refused or absent object, bytes that are not UTF-8, attachments that
    cannot be iterated or are not dictionaries).
   */
  function Read(blobs: map<BlobKey, Bytes>, faults: set<Call>, env: Env, k: EmailKey, item: Item): (r: Result<Value>)
    ensures r.Ok? ==>
      && "is_read" in item && BlobOf(item).Some?
      && BlobOf(item).value in blobs && Call.GetObject(BlobOf(item).value) !in faults
      && env.decodeUtf8(blobs[BlobOf(item).value]).Some?
      && r.value.Dict? && r.value.fields.Keys == {"body", "summary", "attachments"}
      && r.value.fields["body"] == Str(env.decodeUtf8(blobs[BlobOf(item).value]).value)
      && r.value.fields["summary"] == Get(item, "summary_text", Null)
  {
    var bucket := ObjectName(item, "bucketName");
    var key := ObjectName(item, "bucketObjectKey");
    if bucket.Err? then Err(bucket.error)
    else if key.Err? then Err(key.error)
    else
      var blob := BlobKey(bucket.value, key.value);
      if blob !in blobs || Call.GetObject(blob) in faults then Err(ClientError)
      else match env.decodeUtf8(blobs[blob])
        case None => Err(DecodeError)
        case Some(contents) =>
          match Elements(Get(item, "attachments", List([])))
          case Err(e) => Err(e)
          case Ok(attachments) =>
            match PresignedUrls(env, bucket.value, k.destination, k.messageId, attachments)
            case Err(e) => Err(e)
            case Ok(links) =>
              if "is_read" !in item then Err(KeyError)
              else Ok(Answer(contents, Get(item, "summary_text", Null), links))
  }

  /** The record is still unread, so line 111 marks it. */
  predicate Unread(item: Item) {
    "is_read" in item && !Truthy(item["is_read"])
  }

  /**
    The reply for a found record: 200 with the answer, or 500 with the
    exception, which includes a refused `set_as_read` on an unread record.
   */
  function ReadReply(blobs: map<BlobKey, Bytes>, faults: set<Call>, env: Env, k: EmailKey, item: Item): (r: Util.Reply)
    ensures r.status in {200, 500}
    ensures r.status == 200 <==>
      Read(blobs, faults, env, k, item).Ok? && (!Unread(item) || Call.UpdateEmail(k, "is_read") !in faults)
    ensures r.status == 200 ==> r.body == Util.Val(Read(blobs, faults, env, k, item).value)
    ensures r.status == 500 ==> r.body.Exc?
  {
    match Read(blobs, faults, env, k, item)
    case Err(e) => Util.Reply(500, Util.Exc(e))
    case Ok(answer) =>
      if Unread(item) && Call.UpdateEmail(k, "is_read") in faults then Util.Reply(500, Util.Exc(TypeError))
      else Util.Reply(200, Util.Val(answer))
  }

  /**
    The table after a found record is read: `is_read` is set only when the
    answer was built and the record was unread; a 500 changes nothing.
   */
  function AfterRead(emails: map<EmailKey, Item>, blobs: map<BlobKey, Bytes>, faults: set<Call>, env: Env, k: EmailKey)
    : (r: map<EmailKey, Item>)
    requires k in emails
    ensures r == emails || r == Upsert(emails, k, "is_read", Bool(true))
    ensures r != emails ==> Unread(emails[k]) && ReadReply(blobs, faults, env, k, emails[k]).status == 200
    ensures ReadReply(blobs, faults, env, k, emails[k]).status == 500 ==> r == emails
    ensures !Unread(emails[k]) ==> r == emails
  {
    if Read(blobs, faults, env, k, emails[k]).Ok? && Unread(emails[k]) && Call.UpdateEmail(k, "is_read") !in faults
    then Upsert(emails, k, "is_read", Bool(true))
    else emails
  }

  /**
    Reading a message twice: the second fetch writes nothing and answers
    exactly what the first one did.
   */
  lemma RepeatFetchWritesNothing(emails: map<EmailKey, Item>, blobs: map<BlobKey, Bytes>, faults: set<Call>, env: Env, k: EmailKey)
    requires k in emails
    requires ReadReply(blobs, faults, env, k, emails[k]).status == 200
    ensures var after := AfterRead(emails, blobs, faults, env, k);
      && k in after
      && AfterRead(after, blobs, faults, env, k) == after
      && ReadReply(blobs, faults, env, k, after[k]) == ReadReply(blobs, faults, env, k, emails[k])
  {
    var after := AfterRead(emails, blobs, faults, env, k);
    var item := emails[k];
    if after != emails {
      var marked := after[k];
      assert marked == item["is_read" := Bool(true)];
      assert !Unread(marked);
      assert ObjectName(marked, "bucketName") == ObjectName(item, "bucketName");
      assert ObjectName(marked, "bucketObjectKey") == ObjectName(item, "bucketObjectKey");
      assert Get(marked, "attachments", List([])) == Get(item, "attachments", List([]));
      assert Get(marked, "summary_text", Null) == Get(item, "summary_text", Null);
      assert Read(blobs, faults, env, k, marked) == Read(blobs, faults, env, k, item);
    }
  }

  /**
    `lambda_handler`: 500 carrying the exception when the request fails
    before the record is found, 401 when the caller does not own the
    address, 404 when there is no such record, and otherwise the read of
    the record, which marks an unread record read.
   */
  method LambdaHandler(store: Store, event: Value, env: Env) returns (r: Util.Reply)
    requires store.Valid()
    modifies store`emails
    ensures store.Valid()
    ensures var route := old(Locate(store, event));
      && (route.Failed? ==> r == Util.Reply(500, Util.Exc(route.error)))
      && (route.Refused? ==> r == Util.Reply(401, Util.Val(Null)))
      && (route.Missing? ==> r == Util.Reply(404, Util.Val(Null)))
      && (!route.Found? ==> store.emails == old(store.emails))
      && (route.Found? ==>
            && r == ReadReply(store.blobs, store.faults, env, route.k, old(store.emails)[route.k])
            && store.emails == AfterRead(old(store.emails), store.blobs, store.faults, env, route.k))
  {
    match Locate(store, event)
    case Failed(e) => return Util.Reply(500, Util.Exc(e));
    case Refused => return Util.Reply(401, Util.Val(Null));
    case Missing => return Util.Reply(404, Util.Val(Null));
    case Found(k) => r := ReadRecord(store, env, k);
  }

  /**
    The part of `lambda_handler` after the record is found: fetch and
    decode the message, sign the attachment links, and mark an unread
    record read.
   */
  method ReadRecord(store: Store, env: Env, k: EmailKey) returns (r: Util.Reply)
    requires store.Valid() && k in store.emails
    modifies store`emails
    ensures store.Valid()
    ensures r == ReadReply(store.blobs, store.faults, env, k, old(store.emails)[k])
    ensures store.emails == AfterRead(old(store.emails), store.blobs, store.faults, env, k)
  {
    var item := store.emails[k];
    var bucket := ObjectName(item, "bucketName");
    if bucket.Err? { return Util.Reply(500, Util.Exc(bucket.error)); }
    var key := ObjectName(item, "bucketObjectKey");
    if key.Err? { return Util.Reply(500, Util.Exc(key.error)); }
    var data := store.GetObject(BlobKey(bucket.value, key.value));
    if data.Err? { return Util.Reply(500, Util.Exc(data.error)); }
    var contents := env.decodeUtf8(data.value);
    if contents.None? { return Util.Reply(500, Util.Exc(DecodeError)); }
    var summary := Get(item, "summary_text", Null);
    var attachments := Elements(Get(item, "attachments", List([])));
    if attachments.Err? { return Util.Reply(500, Util.Exc(attachments.error)); }
    var links := GeneratePresignedUrls(env, bucket.value, k.destination, k.messageId, attachments.value);
    if links.Err? { return Util.Reply(500, Util.Exc(links.error)); }
    if "is_read" !in item { return Util.Reply(500, Util.Exc(KeyError)); }
    if !Truthy(item["is_read"]) {
      var marked := SetAsRead(store, k);
      if marked.Err? { return Util.Reply(500, Util.Exc(marked.error)); }
    }
    r := Util.Reply(200, Util.Val(Answer(contents.value, summary, links.value)));
  }
}
