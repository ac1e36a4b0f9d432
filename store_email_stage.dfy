/**
  The Store stage of the incoming-mail pipeline
  (lambda/sm_store_email_function.py): move the raw message to its
  canonical key and record it in the email table.
 */
module StoreEmailStage {
  import opened Values
  import opened Cloud
  import opened Ses

  /** The canonical blob key of a stored message. */
  function CanonicalKey(destination: string, messageId: string): (r: string)
    ensures "stored_emails/" <= r
    ensures |r| >= 4 && r[|r| - 4..] == ".eml"
  {
    "stored_emails/" + destination + "/" + messageId + "/" + messageId + ".eml"
  }

  /** The extra key written when logging at debug level (the spelling is the source's). */
  function DebugKey(destination: string, messageId: string): (r: string)
    ensures CanonicalKey(destination, messageId) < r
  {
    CanonicalKey(destination, messageId) + ".orginal"
  }

  /** `LOGGING_LEVEL.lower() == "debug"` */
  predicate IsDebug(logLevel: string) {
    Lower(logLevel) == "debug"
  }

  predicate NoSlash(s: string) {
    forall i :: 0 <= i < |s| ==> s[i] != '/'
  }

  /** If neither a nor c contains '/', then a + "/" + b == c + "/" + e splits the same way. */
  lemma {:induction false} SplitAtFirstSlash(a: string, b: string, c: string, e: string)
    requires NoSlash(a) && NoSlash(c)
    requires a + "/" + b == c + "/" + e
    ensures a == c && b == e
  {
    var s := a + "/" + b;
    if |a| < |c| {
      SlashAfter(a, b, c, e);
      assert false;
    } else if |c| < |a| {
      SlashAfter(c, e, a, b);
      assert false;
    } else {
      assert a == s[..|a|] == c;
      assert b == s[|a| + 1..] == e;
    }
  }

  /** In x + "/" + y, position |x| holds '/', and every earlier position holds x's character. */
  lemma SlashAfter(x: string, y: string, u: string, v: string)
    ensures |x| < |u| ==> (x + "/" + y)[|x|] == '/' && (u + "/" + v)[|x|] == u[|x|]
  {
  }

  /**
    Two messages get the same canonical key only if they are the same
    message, as long as the destination and message id hold no '/'.
   */
  lemma CanonicalKeyInjective(d1: string, m1: string, d2: string, m2: string)
    requires NoSlash(d1) && NoSlash(d2) && NoSlash(m1) && NoSlash(m2)
    requires CanonicalKey(d1, m1) == CanonicalKey(d2, m2)
    ensures d1 == d2 && m1 == m2
  {
    var p := "stored_emails/";
    var t1 := m1 + "/" + m1 + ".eml";
    var t2 := m2 + "/" + m2 + ".eml";
    assert CanonicalKey(d1, m1) == p + (d1 + "/" + t1);
    assert CanonicalKey(d2, m2) == p + (d2 + "/" + t2);
    assert d1 + "/" + t1 == CanonicalKey(d1, m1)[|p|..];
    SplitAtFirstSlash(d1, t1, d2, t2);
    assert t1 == m1 + "/" + (m1 + ".eml");
    assert t2 == m2 + "/" + (m2 + ".eml");
    SplitAtFirstSlash(m1, m1 + ".eml", m2, m2 + ".eml");
  }

  /** The record written for a received message (lines 53-64). */
  function NewRecord(mail: Mail, bucket: string, key: string): (r: Item)
    requires |mail.destination| > 0
    ensures r.Keys == {"destination", "messageId", "timestamp", "source", "attachments",
                       "commonHeaders", "bucketName", "bucketObjectKey", "is_read", "is_processed"}
    ensures EmailKeyOf(r) == Some(EmailKey(mail.destination[0], mail.messageId))
    ensures r["bucketName"] == Str(bucket) && r["bucketObjectKey"] == Str(key)
    ensures r["attachments"] == List([])
    ensures !Truthy(r["is_read"]) && !Truthy(r["is_processed"])
    ensures "summary_text" !in r
  {
    map[
      "destination" := Str(mail.destination[0]),
      "messageId" := Str(mail.messageId),
      "timestamp" := mail.timestamp,
      "source" := mail.source,
      "attachments" := List([]),
      "commonHeaders" := mail.commonHeaders,
      "bucketName" := Str(bucket),
      "bucketObjectKey" := Str(key),
      "is_read" := Bool(false),
      "is_processed" := Bool(false)
    ]
  }

  /**
    `lambda_handler`: copy the raw object to its canonical key (and, at debug
    level, to the debug key), delete the original, put the record and return
    it. Any failure is re-raised; nothing is undone.
   */
  method LambdaHandler(store: Store, event: Notification, logLevel: string) returns (r: Result<Item>)
    requires store.Valid()
    modifies store`blobs, store`emails
    ensures store.Valid()
    ensures |event.mail.destination| == 0 ==>
      r == Err(IndexError) && store.blobs == old(store.blobs) && store.emails == old(store.emails)
    ensures |event.mail.destination| > 0 ==>
      var d, id := event.mail.destination[0], event.mail.messageId;
      var src := BlobKey(event.receipt.bucketName, event.receipt.objectKey);
      var dst := BlobKey(event.receipt.bucketName, CanonicalKey(d, id));
      var dbg := BlobKey(event.receipt.bucketName, DebugKey(d, id));
      var record := NewRecord(event.mail, event.receipt.bucketName, CanonicalKey(d, id));
      var copyOk := src in old(store.blobs) && src != dst && Call.CopyObject(src, dst) !in store.faults;
      var debugOk := !IsDebug(logLevel) || (src != dbg && Call.CopyObject(src, dbg) !in store.faults);
      var deleteOk := Call.DeleteObject(src) !in store.faults;
      var putOk := Call.PutEmail(EmailKey(d, id)) !in store.faults;
      && (r.Ok? <==> copyOk && debugOk && deleteOk && putOk)
      && (r.Ok? ==> r.value == record && store.emails == old(store.emails)[EmailKey(d, id) := record])
      && (r.Err? ==> r.error == ClientError)
      && (!copyOk ==> store.blobs == old(store.blobs) && store.emails == old(store.emails))
      && (copyOk && !debugOk ==> store.blobs == old(store.blobs)[dst := old(store.blobs)[src]] && store.emails == old(store.emails))
      && (copyOk && debugOk && !deleteOk ==> store.blobs == Copied(old(store.blobs), src, dst, dbg, IsDebug(logLevel)) && store.emails == old(store.emails))
      && (copyOk && debugOk && deleteOk ==> store.blobs == Copied(old(store.blobs), src, dst, dbg, IsDebug(logLevel)) - {src})
      && (copyOk && debugOk && deleteOk && !putOk ==> store.emails == old(store.emails))
  {
    if |event.mail.destination| == 0 {
      return Err(IndexError);
    }
    var bucket := event.receipt.bucketName;
    var d, id := event.mail.destination[0], event.mail.messageId;
    var src := BlobKey(bucket, event.receipt.objectKey);
    var dst := BlobKey(bucket, CanonicalKey(d, id));
    var ok := store.CopyObject(src, dst);
    if !ok {
      return Err(ClientError);
    }
    if IsDebug(logLevel) {
      ok := store.CopyObject(src, BlobKey(bucket, DebugKey(d, id)));
      if !ok {
        return Err(ClientError);
      }
    }
    ok := store.DeleteObject(src);
    if !ok {
      return Err(ClientError);
    }
    var record := NewRecord(event.mail, bucket, dst.key);
    ok := store.PutEmail(record);
    if !ok {
      return Err(ClientError);
    }
    return Ok(record);
  }

  /** The object store after the copy and, at debug level, the debug copy. */
  function Copied(blobs: map<BlobKey, Bytes>, src: BlobKey, dst: BlobKey, dbg: BlobKey, debug: bool): (r: map<BlobKey, Bytes>)
    requires src in blobs
    ensures dst in r && r[dst] == blobs[src]
    ensures debug ==> dbg in r && r[dbg] == blobs[src]
    ensures r.Keys == blobs.Keys + {dst} + (if debug then {dbg} else {})
    ensures forall k :: k in blobs && k != dst && !(debug && k == dbg) ==> r[k] == blobs[k]
  {
    if debug then blobs[dst := blobs[src]][dbg := blobs[src]] else blobs[dst := blobs[src]]
  }
}
