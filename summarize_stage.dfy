/**
  The summarising stage of the incoming-mail pipeline
  (lambda/sm_summarize_email_function.py): when the recipient asked for
  summaries, fetch the stored message, clean and cut its body, ask the
  text model for a summary and store it; in every case that gets that far,
  mark the record processed.
 */
module SummarizeStage {
  import opened Values
  import opened Cloud
  import opened Foreign
  import opened Text

  /** The model's token budget. */
  const TokenLimit: nat := 4096

  /**
    `int(TOKEN_LIMIT * 3.25 - 1000)`: the factor 3.25 is 13/4, so the
    product is exact and nothing is truncated.
   */
  function CharacterLimit(): (r: int)
    ensures (TokenLimit * 13) % 4 == 0
    ensures r * 4 == TokenLimit * 13 - 4000
    ensures r == 12312
  {
    TokenLimit * 13 / 4 - 1000
  }

  /** `extract_recent_content(s, n)`: the slice `s[:n]`. */
  function ExtractRecentContent(body: string, limit: int): (r: string)
    ensures limit >= 0 ==> |r| == (if |body| < limit then |body| else limit)
    ensures limit >= 0 ==> r <= body
  {
    Prefix(body, limit)
  }

  /** The text handed to the model: the body normalised, then cut to the character limit. */
  function PreparedText(body: string): (r: string)
    ensures |r| <= CharacterLimit()
    ensures |r| <= |body|
    ensures Clean(r)
  {
    NormaliseIsClean(body);
    PrefixClean(Normalise(body), CharacterLimit());
    ExtractRecentContent(Normalise(body), CharacterLimit())
  }

  /** The attribute value a summary is stored as: the text, or None when the model failed. */
  function SummaryValue(summary: Option<string>): (r: Value)
    ensures summary.Some? <==> r.Str?
    ensures summary.Some? ==> r == Str(summary.value)
    ensures summary.None? ==> r == Null
  {
    if summary.Some? then Str(summary.value) else Null
  }

  /** `set_summary`: a ClientError from the update is logged and swallowed. */
  method SetSummary(store: Store, k: EmailKey, summary: Option<string>)
    requires store.Valid()
    modifies store`emails
    ensures store.Valid()
    ensures store.emails ==
      if Call.UpdateEmail(k, "summary_text") in store.faults then old(store.emails)
      else Upsert(old(store.emails), k, "summary_text", SummaryValue(summary))
  {
    var ok := store.UpdateEmail(k, "summary_text", SummaryValue(summary));
  }

  /**
    The table after the guarded block of lines 115-127, given the fetched
    message: nothing is written when there is no body or the message id
    cannot be read (both raise inside the block and are swallowed), or when
    the update is rejected; otherwise summary_text holds the model's answer
    for the prepared text, or None.
   */
  function AfterSummary(emails: map<EmailKey, Item>, faults: set<Call>, event: Item, env: Env, d: string, raw: Bytes)
    : (r: map<EmailKey, Item>)
    ensures r.Keys >= emails.Keys
    ensures forall k :: k in emails && k.destination != d ==> r[k] == emails[k]
    ensures forall k :: k in r && (k !in emails || r[k] != emails[k]) ==>
      && "summary_text" in r[k]
      && var body := env.body(env.parse(raw), PlainThenHtml);
      && body.Some?
      && r[k]["summary_text"] == SummaryValue(env.summarize(PreparedText(body.value)))
      && |PreparedText(body.value)| <= 12312
      && Clean(PreparedText(body.value))
  {
    var body := env.body(env.parse(raw), PlainThenHtml);
    var mid := StrField(event, "messageId");
    if body.None? || mid.Err? then emails
    else
      var k := EmailKey(d, mid.value);
      if Call.UpdateEmail(k, "summary_text") in faults then emails
      else Upsert(emails, k, "summary_text", SummaryValue(env.summarize(PreparedText(body.value))))
  }

  /** The stored message the stage reads, when the event names one that can be fetched. */
  function Fetch(blobs: map<BlobKey, Bytes>, faults: set<Call>, event: Item): (r: Result<Bytes>)
    ensures r.Ok? <==>
      && StrField(event, "bucketName").Ok? && StrField(event, "bucketObjectKey").Ok?
      && var bk := BlobKey(event["bucketName"].s, event["bucketObjectKey"].s);
      && bk in blobs && Call.GetObject(bk) !in faults
    ensures r.Ok? ==> r.value == blobs[BlobKey(event["bucketName"].s, event["bucketObjectKey"].s)]
  {
    var bucket := ObjectName(event, "bucketName");
    var key := ObjectName(event, "bucketObjectKey");
    if bucket.Err? then Err(bucket.error)
    else if key.Err? then Err(key.error)
    else var bk := BlobKey(bucket.value, key.value);
      if Call.GetObject(bk) in faults || bk !in blobs then Err(ClientError)
      else Ok(blobs[bk])
  }

  /**
    `lambda_handler`. The gate is `check_summarize` on the address table
    for the record's destination. Inside the gate the fetch and parse are
    unguarded, the rest is guarded; the final update of is_processed is
    unguarded, and the handler answers {"is_processed": True}.
   */
  method LambdaHandler(store: Store, event: Item, env: Env) returns (r: Result<Item>)
    requires store.Valid()
    modifies store`emails
    ensures store.Valid()
    ensures StrField(event, "destination").Err? ==> r.Err? && store.emails == old(store.emails)
    ensures StrField(event, "destination").Ok? ==>
      var d := event["destination"].s;
      var gate := env.checkSummarize(store.addresses, d);
      var fetched := Fetch(store.blobs, store.faults, event);
      var summarised := if gate && fetched.Ok?
        then AfterSummary(old(store.emails), store.faults, event, env, d, fetched.value)
        else old(store.emails);
      && (gate && fetched.Err? ==> r == Err(fetched.error) && store.emails == old(store.emails))
      && (r.Ok? <==> (!gate || fetched.Ok?) && StrField(event, "messageId").Ok?
                     && Call.UpdateEmail(EmailKey(d, event["messageId"].s), "is_processed") !in store.faults)
      && (r.Ok? ==> r.value == map["is_processed" := Bool(true)]
                    && store.emails == Upsert(summarised, EmailKey(d, event["messageId"].s), "is_processed", Bool(true)))
      && (r.Err? ==> store.emails == summarised)
  {
    var dest := StrField(event, "destination");
    if dest.Err? { return Err(dest.error); }
    var d := dest.value;
    if env.checkSummarize(store.addresses, d) {
      var bucket := ObjectName(event, "bucketName");
      if bucket.Err? { return Err(bucket.error); }
      var key := ObjectName(event, "bucketObjectKey");
      if key.Err? { return Err(key.error); }
      var fetched := store.GetObject(BlobKey(bucket.value, key.value));
      if fetched.Err? { return Err(fetched.error); }
      var doc := env.parse(fetched.value);
      var body := env.body(doc, PlainThenHtml);
      if body.Some? {
        var summary := env.summarize(PreparedText(body.value));
        var mid := StrField(event, "messageId");
        if mid.Ok? {
          SetSummary(store, EmailKey(d, mid.value), summary);
        }
      }
    }
    var mid := StrField(event, "messageId");
    if mid.Err? { return Err(mid.error); }
    var ok := store.UpdateEmail(EmailKey(d, mid.value), "is_processed", Bool(true));
    if !ok { return Err(ClientError); }
    r := Ok(map["is_processed" := Bool(true)]);
  }
}
