/**
  The hand-off between the incoming-mail stages: the record the store stage
  returns is the event of the attachment stage, and the event the attachment
  stage returns is the event of the summarising stage. The state machine
  that sequences them, with its retries, is not part of this model; this
  module runs each stage once, in order, stopping at the first failure.
 */
module Pipeline {
  import opened Values
  import opened Cloud
  import opened Foreign
  import opened Ses
  import StoreEmailStage
  import AttachmentStage
  import SummarizeStage

  /** The fields the later stages read are strings in the stored record and survive the attachment stage. */
  lemma RecordFeedsLaterStages(mail: Mail, bucket: string, attachments: seq<Value>)
    requires |mail.destination| > 0
    ensures var key := StoreEmailStage.CanonicalKey(mail.destination[0], mail.messageId);
      var record := StoreEmailStage.NewRecord(mail, bucket, key);
      forall e :: e == record || e == record["attachments" := List(attachments)] ==>
        && StrField(e, "bucketName") == Ok(bucket)
        && StrField(e, "bucketObjectKey") == Ok(key)
        && StrField(e, "destination") == Ok(mail.destination[0])
        && StrField(e, "messageId") == Ok(mail.messageId)
  {
    var key := StoreEmailStage.CanonicalKey(mail.destination[0], mail.messageId);
    var record := StoreEmailStage.NewRecord(mail, bucket, key);
    assert record["destination"] == Str(mail.destination[0]);
    assert record["messageId"] == Str(mail.messageId);
  }

  /**
    Run the store stage and hand its record to the attachment stage. When
    both succeed, the attachment stage worked on the message the store stage
    moved: the canonical object now holds that message with its attachment
    payloads cleared, and the record lists the attachments of that message.
   */
  method StoreThenExtract(store: Store, event: Notification, logLevel: string, env: Env) returns (r: Result<Item>)
    requires store.Valid()
    modifies store`blobs, store`emails
    ensures store.Valid()
    ensures r.Ok? ==>
      && |event.mail.destination| > 0
      && var d, id := event.mail.destination[0], event.mail.messageId;
      && var src := BlobKey(event.receipt.bucketName, event.receipt.objectKey);
      && var dst := BlobKey(event.receipt.bucketName, StoreEmailStage.CanonicalKey(d, id));
      && src in old(store.blobs)
      && var parts := env.parse(old(store.blobs)[src]).parts;
      && var k := EmailKey(d, id);
      && dst in store.blobs && store.blobs[dst] == env.serialize(Document(AttachmentStage.Stripped(parts)))
      && k in store.emails
      && store.emails[k] == StoreEmailStage.NewRecord(event.mail, dst.bucket, dst.key)["attachments" := List(AttachmentStage.Attachments(parts))]
      && r.value == store.emails[k]
  {
    var record := StoreEmailStage.LambdaHandler(store, event, logLevel);
    if record.Err? { return Err(record.error); }
    ghost var moved := store.blobs;
    ghost var d, id := event.mail.destination[0], event.mail.messageId;
    ghost var dst := BlobKey(event.receipt.bucketName, StoreEmailStage.CanonicalKey(d, id));
    assert dst in moved && moved[dst] == old(store.blobs)[BlobKey(event.receipt.bucketName, event.receipt.objectKey)];
    RecordFeedsLaterStages(event.mail, event.receipt.bucketName, []);
    r := AttachmentStage.LambdaHandler(store, record.value, env);
  }

  /** Storing a summary touches no attribute of any record other than summary_text. */
  lemma AfterSummaryKeeps(emails: map<EmailKey, Item>, faults: set<Call>, event: Item, env: Env, d: string, raw: Bytes, k: EmailKey)
    requires k in emails
    ensures var r := SummarizeStage.AfterSummary(emails, faults, event, env, d, raw);
      forall a :: a in emails[k] && a != "summary_text" ==> a in r[k] && r[k][a] == emails[k][a]
  {
  }

  /**
    What the summarising stage leaves of the record the attachment stage
    wrote: flagged processed, the attachment list kept, and a summary only
    when one was made from the stored message.
   */
  lemma ProcessedRecord(e0: map<EmailKey, Item>, summarised: map<EmailKey, Item>, faults: set<Call>, event: Item, env: Env, d: string, raw: Bytes, k: EmailKey)
    requires k in e0 && "summary_text" !in e0[k] && "attachments" in e0[k]
    requires summarised == e0 || summarised == SummarizeStage.AfterSummary(e0, faults, event, env, d, raw)
    ensures var fin := Upsert(summarised, k, "is_processed", Bool(true));
      && k in fin
      && "is_processed" in fin[k] && fin[k]["is_processed"] == Bool(true)
      && "attachments" in fin[k] && fin[k]["attachments"] == e0[k]["attachments"]
      && ("summary_text" in fin[k] ==>
            && var body := env.body(env.parse(raw), PlainThenHtml);
            && body.Some?
            && fin[k]["summary_text"] == SummarizeStage.SummaryValue(env.summarize(SummarizeStage.PreparedText(body.value))))
  {
    AfterSummaryKeeps(e0, faults, event, env, d, raw, k);
    assert k in summarised;
    assert Before(summarised, k) == summarised[k];
  }

  /**
    The three stages in order. When all succeed the record is marked
    processed, still lists the attachments, and any summary it holds was
    computed from the rewritten message, the one without attachment payloads.
   */
  method Run(store: Store, event: Notification, logLevel: string, env: Env) returns (r: Result<Item>)
    requires store.Valid()
    modifies store`blobs, store`emails
    ensures store.Valid()
    ensures r.Ok? ==>
      && |event.mail.destination| > 0
      && var d, id := event.mail.destination[0], event.mail.messageId;
      && var src := BlobKey(event.receipt.bucketName, event.receipt.objectKey);
      && src in old(store.blobs)
      && var parts := env.parse(old(store.blobs)[src]).parts;
      && var rewritten := env.serialize(Document(AttachmentStage.Stripped(parts)));
      && var k := EmailKey(d, id);
      && k in store.emails
      && "is_processed" in store.emails[k] && store.emails[k]["is_processed"] == Bool(true)
      && "attachments" in store.emails[k] && store.emails[k]["attachments"] == List(AttachmentStage.Attachments(parts))
      && ("summary_text" in store.emails[k] ==>
            && var body := env.body(env.parse(rewritten), PlainThenHtml);
            && body.Some?
            && store.emails[k]["summary_text"] == SummarizeStage.SummaryValue(env.summarize(SummarizeStage.PreparedText(body.value))))
      && r.value == map["is_processed" := Bool(true)]
  {
    var extracted := StoreThenExtract(store, event, logLevel, env);
    if extracted.Err? { return Err(extracted.error); }
    ghost var parts := env.parse(old(store.blobs)[BlobKey(event.receipt.bucketName, event.receipt.objectKey)]).parts;
    RecordFeedsLaterStages(event.mail, event.receipt.bucketName, AttachmentStage.Attachments(parts));
    ghost var e0 := store.emails;
    r := SummarizeStage.LambdaHandler(store, extracted.value, env);
    if r.Ok? {
      ghost var d := event.mail.destination[0];
      ghost var fetched := SummarizeStage.Fetch(store.blobs, store.faults, extracted.value);
      ghost var summarised := if env.checkSummarize(store.addresses, d) && fetched.Ok?
        then SummarizeStage.AfterSummary(e0, store.faults, extracted.value, env, d, fetched.value)
        else e0;
      ProcessedRecord(e0, summarised, store.faults, extracted.value, env, d, store.blobs[BlobKey(event.receipt.bucketName, StoreEmailStage.CanonicalKey(d, event.mail.messageId))], EmailKey(d, event.mail.messageId));
    }
  }
}
