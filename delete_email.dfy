/**
  Deleting one stored message through the REST API
  (lambda/delete_email_item_function.py): after the ownership check,
  delete the raw message and then its record.
 */
module DeleteEmail {
  import opened Values
  import opened Cloud
  import Util
  import ApiGetEmail
  import StoreEmailStage
  import AttachmentStage

  /** `delete_email_item`: a refused delete re-raises as `raise <str>`, a TypeError. */
  method DeleteEmailItem(store: Store, k: EmailKey) returns (r: Result<()>)
    requires store.Valid()
    modifies store`emails
    ensures store.Valid()
    ensures r.Ok? <==> Call.DeleteEmail(k) !in store.faults
    ensures r.Err? ==> r.error == TypeError && store.emails == old(store.emails)
    ensures r.Ok? ==> store.emails == old(store.emails) - {k}
  {
    var ok := store.DeleteEmail(k);
    r := if ok then Ok(()) else Err(TypeError);
  }

  /**
    `lambda_handler`. 500 carrying the exception when the request fails
    before the record is found, 401 without ownership and 404 without the
    record, all three deleting nothing. For a found record the message
    object it names is deleted, then the record, and the answer is 200.
    The object delete is not guarded, so its refusal is a 500 with the
    record still there; a refused record delete is a 500 after the object
    is gone. Attachment objects and every other record stay.
   */
  method LambdaHandler(store: Store, event: Value) returns (r: Util.Reply)
    requires store.Valid()
    modifies store`blobs, store`emails
    ensures store.Valid()
    ensures var route := old(ApiGetEmail.Locate(store, event));
      && (route.Failed? ==> r == Util.Reply(500, Util.Exc(route.error)))
      && (route.Refused? ==> r == Util.Reply(401, Util.Val(Null)))
      && (route.Missing? ==> r == Util.Reply(404, Util.Val(Null)))
      && (!route.Found? ==> store.blobs == old(store.blobs) && store.emails == old(store.emails))
    ensures var route := old(ApiGetEmail.Locate(store, event));
      route.Found? ==>
        var k := route.k;
        var blob := BlobOf(old(store.emails)[k]);
        var blobGone := blob.Some? && Call.DeleteObject(blob.value) !in store.faults;
        && (r == Util.Reply(200, Util.Val(Null)) <==> blobGone && Call.DeleteEmail(k) !in store.faults)
        && (r.status != 200 ==> r.status == 500 && r.body.Exc?)
        && store.blobs == (if blobGone then old(store.blobs) - {blob.value} else old(store.blobs))
        && store.emails == (if r.status == 200 then old(store.emails) - {k} else old(store.emails))
  {
    var route := ApiGetEmail.Locate(store, event);
    match route
    case Failed(e) => return Util.Reply(500, Util.Exc(e));
    case Refused => return Util.Reply(401, Util.Val(Null));
    case Missing => return Util.Reply(404, Util.Val(Null));
    case Found(k) =>
      var item := store.emails[k];
      if "bucketName" !in item || "bucketObjectKey" !in item {
        return Util.Reply(500, Util.Exc(KeyError));
      }
      var blob := BlobOf(item);
      if blob.None? { return Util.Reply(500, Util.Exc(ParamError)); }
      var deleted := store.DeleteObject(blob.value);
      if !deleted { return Util.Reply(500, Util.Exc(ClientError)); }
      var removed := DeleteEmailItem(store, k);
      if removed.Err? { return Util.Reply(500, Util.Exc(removed.error)); }
      r := Util.Reply(200, Util.Val(Null));
  }

  /**
    Deleting a message the pipeline stored removes its canonical object
    only: every attachment object of that message is still there.
   */
  lemma DeleteKeepsAttachments(blobs: map<BlobKey, Bytes>, bucket: string, d: string, m: string, f: string)
    requires StoreEmailStage.NoSlash(m)
    requires BlobKey(bucket, AttachmentStage.AttachmentKey(d, m, f)) in blobs
    ensures var kept := blobs - {BlobKey(bucket, StoreEmailStage.CanonicalKey(d, m))};
      && BlobKey(bucket, AttachmentStage.AttachmentKey(d, m, f)) in kept
      && kept[BlobKey(bucket, AttachmentStage.AttachmentKey(d, m, f))] == blobs[BlobKey(bucket, AttachmentStage.AttachmentKey(d, m, f))]
  {
    AttachmentStage.AttachmentKeyIsNotCanonical(d, m, f);
  }
}
