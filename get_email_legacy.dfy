/**
  The older handler for reading one message (lambda/get_email_function.py),
  written for the record schema with an `isNew` flag: on the first read it
  clears the flag and, when the owner asked for summaries, summarises the
  plain-text body there and then.
 */
module GetEmailLegacy {
  import opened Values
  import opened Cloud
  import opened Foreign
  import opened Text
  import Util
  import SummarizeStage
  import ApiGetEmail

  /** `set_as_read`: `SET isNew = False`; a rejected update raises a TypeError (`raise <str>`). */
  method SetAsRead(store: Store, k: EmailKey) returns (r: Result<()>)
    requires store.Valid()
    modifies store`emails
    ensures store.Valid()
    ensures r.Ok? <==> Call.UpdateEmail(k, "isNew") !in store.faults
    ensures r.Err? ==> r.error == TypeError && store.emails == old(store.emails)
    ensures r.Ok? ==> store.emails == Upsert(old(store.emails), k, "isNew", Bool(false))
  {
    var ok := store.UpdateEmail(k, "isNew", Bool(false));
    r := if ok then Ok(()) else Err(TypeError);
  }

  /**
    The guarded block of lines 160-171: when the address item asks for
    summaries, the model's answer for the plain-text body with its web
    links removed. `get_body` with the preference `('plain')` (a string,
    not a tuple) still finds the text/plain part; with none, `.get_content()`
    on None raises and the block is abandoned. None: no summary was made.
   */
  function FirstReadSummary(address: Item, raw: Bytes, env: Env): (r: Option<Option<string>>)
    ensures r.Some? ==> Truthy(Get(address, "summarize_emails", Null))
    ensures r.Some? <==> Truthy(Get(address, "summarize_emails", Null)) && env.body(env.parse(raw), PlainOnly).Some?
    ensures r.Some? ==> r.value == env.legacySummarize(RemoveUrls(env.body(env.parse(raw), PlainOnly).value))
  {
    if !Truthy(Get(address, "summarize_emails", Null)) then None
    else match env.body(env.parse(raw), PlainOnly)
      case None => None
      case Some(text) => Some(env.legacySummarize(RemoveUrls(text)))
  }

  /**
    The table after lines 159-169 for a record flagged new: `isNew` is
    false, and `summary_text` holds the fresh summary when one was made and
    storing it was not refused.
   */
  function FirstReadTable(emails: map<EmailKey, Item>, faults: set<Call>, k: EmailKey, made: Option<Option<string>>)
    : (r: map<EmailKey, Item>)
    ensures r.Keys == emails.Keys + {k}
    ensures "isNew" in r[k] && r[k]["isNew"] == Bool(false)
    ensures forall j :: j in emails && j != k ==> r[j] == emails[j]
    ensures forall a :: a in Before(emails, k) && a != "isNew" && a != "summary_text" ==> a in r[k] && r[k][a] == Before(emails, k)[a]
    ensures made.Some? && Call.UpdateEmail(k, "summary_text") !in faults ==>
      "summary_text" in r[k] && r[k]["summary_text"] == SummarizeStage.SummaryValue(made.value)
    ensures !(made.Some? && Call.UpdateEmail(k, "summary_text") !in faults) ==>
      r == Upsert(emails, k, "isNew", Bool(false))
  {
    var marked := Upsert(emails, k, "isNew", Bool(false));
    if made.Some? && Call.UpdateEmail(k, "summary_text") !in faults
    then Upsert(marked, k, "summary_text", SummarizeStage.SummaryValue(made.value))
    else marked
  }

  /**
    Lines 158-171 for a record flagged new: flag it read (a refusal
    escapes), then make and store the summary when the owner wants one
    (every failure there is swallowed). Answers the summary made, if any.
   */
  method FirstRead(store: Store, k: EmailKey, address: Item, raw: Bytes, env: Env) returns (r: Result<Option<Option<string>>>)
    requires store.Valid()
    modifies store`emails
    ensures store.Valid()
    ensures r.Err? <==> Call.UpdateEmail(k, "isNew") in store.faults
    ensures r.Err? ==> r.error == TypeError && store.emails == old(store.emails)
    ensures r.Ok? ==> r.value == FirstReadSummary(address, raw, env)
    ensures r.Ok? ==> store.emails == FirstReadTable(old(store.emails), store.faults, k, r.value)
  {
    var marked := SetAsRead(store, k);
    if marked.Err? { return Err(marked.error); }
    var made := FirstReadSummary(address, raw, env);
    if made.Some? {
      SummarizeStage.SetSummary(store, k, made.value);
    }
    r := Ok(made);
  }

  /**
    Lines 151-158 for a found record, before anything is written: the raw
    message and its text, or what was raised on the way (a missing
    attribute, a refused or absent object, bytes that are not UTF-8, no
    `isNew` attribute).
   */
  function Fetched(blobs: map<BlobKey, Bytes>, faults: set<Call>, env: Env, item: Item): (r: Result<(Bytes, string)>)
    ensures r.Ok? ==>
      && "isNew" in item && BlobOf(item).Some?
      && BlobOf(item).value in blobs && Call.GetObject(BlobOf(item).value) !in faults
      && r.value.0 == blobs[BlobOf(item).value]
      && env.decodeUtf8(r.value.0) == Some(r.value.1)
    ensures r.Err? ==> r.error in {KeyError, ParamError, ClientError, DecodeError}
  {
    var bucket := ObjectName(item, "bucketName");
    var key := ObjectName(item, "bucketObjectKey");
    if bucket.Err? then Err(bucket.error)
    else if key.Err? then Err(key.error)
    else
      var blob := BlobKey(bucket.value, key.value);
      if blob !in blobs || Call.GetObject(blob) in faults then Err(ClientError)
      else match env.decodeUtf8(blobs[blob])
        case None => Err(DecodeError)
        case Some(contents) =>
          if "isNew" !in item then Err(KeyError) else Ok((blobs[blob], contents))
  }

  /** The record is still flagged new (`== True`), so it is marked read and maybe summarised. */
  predicate IsNew(item: Item) {
    "isNew" in item && EqualsTrue(item["isNew"])
  }

  /** The summary made on this read, if any: only on a first read. */
  function Made(item: Item, address: Item, raw: Bytes, env: Env): (r: Option<Option<string>>)
    ensures r.Some? ==> IsNew(item)
    ensures IsNew(item) ==> r == FirstReadSummary(address, raw, env)
  {
    if IsNew(item) then FirstReadSummary(address, raw, env) else None
  }

  /**
    The reply for a found record: 200 with the message and its summary (the
    fresh one when this read made one, the stored one otherwise), or 500
    with the exception, which includes a refused flag update on a new
    record. Failures while summarising never change the status.
   */
  function LegacyReply(blobs: map<BlobKey, Bytes>, faults: set<Call>, env: Env, k: EmailKey, item: Item, address: Item)
    : (r: Util.Reply)
    ensures r.status in {200, 500}
    ensures r.status == 200 <==>
      Fetched(blobs, faults, env, item).Ok? && (!IsNew(item) || Call.UpdateEmail(k, "isNew") !in faults)
    ensures r.status == 500 ==> r.body.Exc?
    ensures r.status == 200 ==>
      var (raw, contents) := Fetched(blobs, faults, env, item).value;
      var made := Made(item, address, raw, env);
      r.body == Util.Val(Dict(map[
        "body" := Str(contents),
        "summary" := if made.Some? then SummarizeStage.SummaryValue(made.value) else Get(item, "summary_text", Null)]))
  {
    match Fetched(blobs, faults, env, item)
    case Err(e) => Util.Reply(500, Util.Exc(e))
    case Ok((raw, contents)) =>
      if IsNew(item) && Call.UpdateEmail(k, "isNew") in faults then Util.Reply(500, Util.Exc(TypeError))
      else
        var made := Made(item, address, raw, env);
        var summary := if made.Some? then SummarizeStage.SummaryValue(made.value) else Get(item, "summary_text", Null);
        Util.Reply(200, Util.Val(Dict(map["body" := Str(contents), "summary" := summary])))
  }

  /**
    The table after a found record is read: only a record flagged new is
    written, and only when the reply is 200; every other record stays.
   */
  function LegacyAfterRead(emails: map<EmailKey, Item>, blobs: map<BlobKey, Bytes>, faults: set<Call>, env: Env, k: EmailKey, address: Item)
    : (r: map<EmailKey, Item>)
    requires k in emails
    ensures r.Keys == emails.Keys
    ensures forall j :: j in emails && j != k ==> r[j] == emails[j]
    ensures r != emails ==> IsNew(emails[k]) && LegacyReply(blobs, faults, env, k, emails[k], address).status == 200
    ensures !IsNew(emails[k]) ==> r == emails
    ensures LegacyReply(blobs, faults, env, k, emails[k], address).status == 500 ==> r == emails
  {
    var item := emails[k];
    match Fetched(blobs, faults, env, item)
    case Err(_) => emails
    case Ok((raw, _)) =>
      if IsNew(item) && Call.UpdateEmail(k, "isNew") !in faults
      then FirstReadTable(emails, faults, k, FirstReadSummary(address, raw, env))
      else emails
  }

  /**
    Reading a message twice: the second read writes nothing, and it
    answers what the first did unless storing the first read's fresh
    summary was refused.
   */
  lemma RepeatReadWritesNothing(emails: map<EmailKey, Item>, blobs: map<BlobKey, Bytes>, faults: set<Call>, env: Env, k: EmailKey, address: Item)
    requires k in emails
    requires LegacyReply(blobs, faults, env, k, emails[k], address).status == 200
    requires Call.UpdateEmail(k, "summary_text") !in faults
    ensures var after := LegacyAfterRead(emails, blobs, faults, env, k, address);
      && k in after
      && LegacyAfterRead(after, blobs, faults, env, k, address) == after
      && LegacyReply(blobs, faults, env, k, after[k], address) == LegacyReply(blobs, faults, env, k, emails[k], address)
  {
    var after := LegacyAfterRead(emails, blobs, faults, env, k, address);
    var item := emails[k];
    if after != emails {
      var again := after[k];
      assert !IsNew(again);
      assert ObjectName(again, "bucketName") == ObjectName(item, "bucketName");
      assert ObjectName(again, "bucketObjectKey") == ObjectName(item, "bucketObjectKey");
      assert Fetched(blobs, faults, env, again) == Fetched(blobs, faults, env, item);
    }
  }

  /**
    `lambda_handler`. 500 carrying the exception when the request fails
    before the record is found, 401 without ownership, 404 without the
    record, and otherwise the read of the record, which flags a new
    record read and, when the owner wants summaries, summarises it.
   */
  method LambdaHandler(store: Store, event: Value, env: Env) returns (r: Util.Reply)
    requires store.Valid()
    modifies store`emails
    ensures store.Valid()
    ensures var route := old(ApiGetEmail.Locate(store, event));
      && (route.Failed? ==> r == Util.Reply(500, Util.Exc(route.error)))
      && (route.Refused? ==> r == Util.Reply(401, Util.Val(Null)))
      && (route.Missing? ==> r == Util.Reply(404, Util.Val(Null)))
      && (!route.Found? ==> store.emails == old(store.emails))
      && (route.Found? ==>
            && route.k.destination in store.addresses
            && var address := store.addresses[route.k.destination];
            && r == LegacyReply(store.blobs, store.faults, env, route.k, old(store.emails)[route.k], address)
            && store.emails == LegacyAfterRead(old(store.emails), store.blobs, store.faults, env, route.k, address))
  {
    var route := ApiGetEmail.Locate(store, event);
    match route
    case Failed(e) => return Util.Reply(500, Util.Exc(e));
    case Refused => return Util.Reply(401, Util.Val(Null));
    case Missing => return Util.Reply(404, Util.Val(Null));
    case Found(k) =>
      // `check_access(..., full_response=True)` hands back the owner's item.
      var sub := ApiGetEmail.Request(event).value.1;
      var access := Util.CheckAccess(store, sub, k.destination, true);
      var address := access.value.item.value;
      r := ReadRecord(store, env, k, address);
  }

  /**
    The part of `lambda_handler` after the record is found: fetch and
    decode the message, then flag a new record read and summarise it.
   */
  method ReadRecord(store: Store, env: Env, k: EmailKey, address: Item) returns (r: Util.Reply)
    requires store.Valid() && k in store.emails
    modifies store`emails
    ensures store.Valid()
    ensures r == LegacyReply(store.blobs, store.faults, env, k, old(store.emails)[k], address)
    ensures store.emails == LegacyAfterRead(old(store.emails), store.blobs, store.faults, env, k, address)
  {
    var item := store.emails[k];
    var bucket := ObjectName(item, "bucketName");
    if bucket.Err? { return Util.Reply(500, Util.Exc(bucket.error)); }
    var key := ObjectName(item, "bucketObjectKey");
    if key.Err? { return Util.Reply(500, Util.Exc(key.error)); }
    var data := store.GetObject(BlobKey(bucket.value, key.value));
    if data.Err? { return Util.Reply(500, Util.Exc(data.error)); }
    var contents := env.decodeUtf8(data.value);
    if contents.None? { return Util.Reply(500, Util.Exc(DecodeError)); }
    var summary := Get(item, "summary_text", Null);
    if "isNew" !in item { return Util.Reply(500, Util.Exc(KeyError)); }
    if EqualsTrue(item["isNew"]) {
      var made := FirstRead(store, k, address, data.value, env);
      if made.Err? { return Util.Reply(500, Util.Exc(made.error)); }
      if made.value.Some? {
        summary := SummarizeStage.SummaryValue(made.value.value);
      }
    }
    r := Util.Reply(200, Util.Val(Dict(map["body" := Str(contents.value), "summary" := summary])));
  }
}
