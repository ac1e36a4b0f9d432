/**
  The older handler for incoming mail (lambda/store_email_function.py),
  written for the record schema with an `isNew` flag: record the message
  where the receiving rule dropped it, then, when the recipient wants
  summaries, summarise the body straight away.
 */
module StoreEmailLegacy {
  import opened Values
  import opened Cloud
  import opened Foreign
  import opened Text
  import SummarizeStage

  /** `json.loads(event["Records"][0]["Sns"]["Message"])`: only the first record is read. */
  function Message(event: Value, loads: string -> Option<Value>): (r: Result<Value>)
    ensures r.Ok? ==> Path(event, ["Records"]).Ok? && Path(event, ["Records"]).value.List?
  {
    match Path(event, ["Records"])
    case Err(e) => Err(e)
    case Ok(records) =>
      if !records.List? then Err(TypeError)
      else if records.elems == [] then Err(IndexError)
      else match Path(records.elems[0], ["Sns", "Message"])
        case Err(e) => Err(e)
        case Ok(text) =>
          if !text.Str? then Err(TypeError)
          else match loads(text.s)
            case None => Err(ValueError)
            case Some(message) => Ok(message)
  }

  /** Records after the first, and every other field of the event, are never looked at. */
  lemma OnlyFirstRecordRead(event: Value, loads: string -> Option<Value>)
    requires Path(event, ["Records"]).Ok? && Path(event, ["Records"]).value.List?
    requires Path(event, ["Records"]).value.elems != []
    ensures Message(event, loads) == Message(Dict(map["Records" := List([Path(event, ["Records"]).value.elems[0]])]), loads)
  {
    var first := Path(event, ["Records"]).value.elems[0];
    var alone := Dict(map["Records" := List([first])]);
    assert Path(alone, ["Records"]) == Path(List([first]), []);
  }

  /**
    `v[0]` on a JSON value: the first element of a list, the first
    character of a string; an empty one raises IndexError, an object
    KeyError (its keys are strings, never 0), anything else TypeError.
   */
  function First(v: Value): (r: Result<Value>)
    ensures r.Ok? <==> (v.List? && v.elems != []) || (v.Str? && v.s != [])
    ensures r.Ok? && v.List? ==> r.value == v.elems[0]
    ensures r.Ok? && v.Str? ==> r.value == Str([v.s[0]])
    ensures r.Err? ==> r.error == (if v.Dict? then KeyError else if v.List? || v.Str? then IndexError else TypeError)
  {
    match v
    case List(elems) => if elems == [] then Err(IndexError) else Ok(elems[0])
    case Str(s) => if s == [] then Err(IndexError) else Ok(Str([s[0]]))
    case Dict(_) => Err(KeyError)
    case _ => Err(TypeError)
  }

  /** The recipient the record is filed under, `mail["destination"][0]`. */
  function Destination(mail: Value): (r: Result<Value>) {
    match Path(mail, ["destination"])
    case Err(e) => Err(e)
    case Ok(ds) => First(ds)
  }

  /**
    The item `store_email` puts: the mail's identity and headers, and the
    object the receiving rule wrote, unchanged (this version does not move
    it), flagged new. A missing field raises.
   */
  function Record(mail: Value, receipt: Value): (r: Result<Item>)
    ensures r.Ok? <==>
      && Destination(mail).Ok?
      && Path(mail, ["messageId"]).Ok? && Path(mail, ["timestamp"]).Ok?
      && Path(mail, ["source"]).Ok? && Path(mail, ["commonHeaders"]).Ok?
      && Path(receipt, ["action", "bucketName"]).Ok? && Path(receipt, ["action", "objectKey"]).Ok?
    ensures r.Ok? ==>
      && r.value.Keys == {"destination", "messageId", "timestamp", "source", "commonHeaders", "bucketName", "bucketObjectKey", "isNew"}
      && r.value["destination"] == Destination(mail).value
      && r.value["messageId"] == Path(mail, ["messageId"]).value
      && r.value["bucketName"] == Path(receipt, ["action", "bucketName"]).value
      && r.value["bucketObjectKey"] == Path(receipt, ["action", "objectKey"]).value
      && r.value["isNew"] == Bool(true)
  {
    var d := Destination(mail);
    var id := Path(mail, ["messageId"]);
    var ts := Path(mail, ["timestamp"]);
    var src := Path(mail, ["source"]);
    var hs := Path(mail, ["commonHeaders"]);
    var bucket := Path(receipt, ["action", "bucketName"]);
    var key := Path(receipt, ["action", "objectKey"]);
    if d.Err? then Err(d.error)
    else if id.Err? then Err(id.error)
    else if ts.Err? then Err(ts.error)
    else if src.Err? then Err(src.error)
    else if hs.Err? then Err(hs.error)
    else if bucket.Err? then Err(bucket.error)
    else if key.Err? then Err(key.error)
    else Ok(map[
      "destination" := d.value,
      "messageId" := id.value,
      "timestamp" := ts.value,
      "source" := src.value,
      "commonHeaders" := hs.value,
      "bucketName" := bucket.value,
      "bucketObjectKey" := key.value,
      "isNew" := Bool(true)])
  }

  /**
    The table after `store_email` puts a record: the record under its own
    key. A key attribute that is not a string is rejected by the table
    service (a ClientError, as is a refused put), which leaves the table
    as it was.
   */
  function Stored(emails: map<EmailKey, Item>, faults: set<Call>, item: Item): (r: map<EmailKey, Item>)
    ensures r != emails ==> EmailKeyOf(item).Some? && Call.PutEmail(EmailKeyOf(item).value) !in faults
    ensures EmailKeyOf(item).Some? && Call.PutEmail(EmailKeyOf(item).value) !in faults ==>
      r == emails[EmailKeyOf(item).value := item]
  {
    var k := EmailKeyOf(item);
    if k.Some? && Call.PutEmail(k.value) !in faults then emails[k.value := item] else emails
  }

  /**
    `store_email`: put the record. Every ClientError is logged and
    swallowed; only a field the record reads that is missing (or a
    recipient list that cannot be indexed) escapes.
   */
  method StoreEmail(store: Store, mail: Value, receipt: Value) returns (r: Result<()>)
    requires store.Valid()
    modifies store`emails
    ensures store.Valid()
    ensures r.Ok? <==> Record(mail, receipt).Ok?
    ensures r.Err? ==> r.error == Record(mail, receipt).error && store.emails == old(store.emails)
    ensures r.Ok? ==> store.emails == Stored(old(store.emails), store.faults, Record(mail, receipt).value)
  {
    var item := Record(mail, receipt);
    if item.Err? { return Err(item.error); }
    var _ := store.PutEmail(item.value);
    r := Ok(());
  }

  /**
    What the guarded block of lines 131-149 summarises: the object the
    receipt names, parsed, its plain or else HTML body with web links
    removed (no truncation in this version). None when anything in the
    block raises before the model is asked.
   */
  function LegacySummary(blobs: map<BlobKey, Bytes>, faults: set<Call>, receipt: Value, env: Env): (r: Option<Option<string>>)
    ensures r.Some? ==>
      && Path(receipt, ["action", "bucketName"]).Ok? && Path(receipt, ["action", "bucketName"]).value.Str?
      && Path(receipt, ["action", "objectKey"]).Ok? && Path(receipt, ["action", "objectKey"]).value.Str?
      && var blob := BlobKey(Path(receipt, ["action", "bucketName"]).value.s, Path(receipt, ["action", "objectKey"]).value.s);
      && blob in blobs && Call.GetObject(blob) !in faults
      && var body := env.body(env.parse(blobs[blob]), PlainThenHtml);
      && body.Some? && r.value == env.legacySummarize(RemoveUrls(body.value))
  {
    var bucket := Path(receipt, ["action", "bucketName"]);
    var key := Path(receipt, ["action", "objectKey"]);
    if bucket.Err? || key.Err? || !bucket.value.Str? || !key.value.Str? then None
    else
      var blob := BlobKey(bucket.value.s, key.value.s);
      if blob !in blobs || Call.GetObject(blob) in faults then None
      else match env.body(env.parse(blobs[blob]), PlainThenHtml)
        case None => None
        case Some(text) => Some(env.legacySummarize(RemoveUrls(text)))
  }

  /**
    `lambda_handler`: store the record, then summarise when
    `check_summarize` holds for the first recipient. Failures while
    reading the event escape before any write; everything after the put is
    swallowed, and the handler answers None. When the record's key is not
    a pair of strings both the put and the summary update are refused by
    the table service, so the table stays as it was.
   */
  method LambdaHandler(store: Store, event: Value, loads: string -> Option<Value>, env: Env) returns (r: Result<()>)
    requires store.Valid()
    modifies store`emails
    ensures store.Valid()
    ensures r.Err? ==> store.emails == old(store.emails)
    ensures r.Ok? <==>
      && Message(event, loads).Ok?
      && var message := Message(event, loads).value;
      && Path(message, ["mail"]).Ok? && Path(message, ["receipt"]).Ok?
      && Record(Path(message, ["mail"]).value, Path(message, ["receipt"]).value).Ok?
    ensures r.Ok? ==>
      var message := Message(event, loads).value;
      var receipt := Path(message, ["receipt"]).value;
      var record := Record(Path(message, ["mail"]).value, receipt).value;
      var put := Stored(old(store.emails), store.faults, record);
      var summary := LegacySummary(store.blobs, store.faults, receipt, env);
      store.emails ==
        if EmailKeyOf(record).None? then old(store.emails)
        else
          var k := EmailKeyOf(record).value;
          if env.checkSummarize(store.addresses, k.destination) && summary.Some? && Call.UpdateEmail(k, "summary_text") !in store.faults
          then Upsert(put, k, "summary_text", SummarizeStage.SummaryValue(summary.value))
          else put
  {
    var message := Message(event, loads);
    if message.Err? { return Err(message.error); }
    var mail := Path(message.value, ["mail"]);
    if mail.Err? { return Err(mail.error); }
    var receipt := Path(message.value, ["receipt"]);
    if receipt.Err? { return Err(receipt.error); }
    var stored := StoreEmail(store, mail.value, receipt.value);
    if stored.Err? { return Err(stored.error); }
    var key := EmailKeyOf(Record(mail.value, receipt.value).value);
    // With a key that is not a pair of strings the summary update is
    // refused like the put was, and set_summary swallows that.
    if key.Some? {
      SummariseStored(store, key.value, receipt.value, env);
    }
    r := Ok(());
  }

  /**
    Lines 129-149 after the put: when `check_summarize` holds for the
    recipient and a summary can be made, store it; a refused update is
    swallowed.
   */
  method SummariseStored(store: Store, k: EmailKey, receipt: Value, env: Env)
    requires store.Valid()
    modifies store`emails
    ensures store.Valid()
    ensures var summary := LegacySummary(store.blobs, store.faults, receipt, env);
      store.emails ==
        if env.checkSummarize(store.addresses, k.destination) && summary.Some? && Call.UpdateEmail(k, "summary_text") !in store.faults
        then Upsert(old(store.emails), k, "summary_text", SummarizeStage.SummaryValue(summary.value))
        else old(store.emails)
  {
    if env.checkSummarize(store.addresses, k.destination) {
      var summary := LegacySummary(store.blobs, store.faults, receipt, env);
      if summary.Some? {
        SummarizeStage.SetSummary(store, k, summary.value);
      }
    }
  }
}
