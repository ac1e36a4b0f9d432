/**
  The attachment-extraction stage of the incoming-mail pipeline
  (lambda/sm_store_attachments_function.py): store every attachment or
  inline part of the stored message under `.../attachments/`, strip those
  parts from the message, rewrite it, and record the attachment metadata.
 */
module AttachmentStage {
  import opened Values
  import opened Cloud
  import opened Foreign
  import StoreEmailStage

  /** `part.get("Content-Disposition", "")` */
  function Disposition(p: Part): string {
    if "Content-Disposition" in p.headers then p.headers["Content-Disposition"] else ""
  }

  /** A part is extracted iff its disposition mentions "attachment" or "inline" anywhere. */
  predicate Selected(p: Part) {
    Contains(Disposition(p), "attachment") || Contains(Disposition(p), "inline")
  }

  /** `part.get_filename()`, with "inline_attachment" for a missing or empty name. */
  function FileName(p: Part): (r: string)
    ensures r != ""
    ensures p.filename.Some? && p.filename.value != "" ==> r == p.filename.value
    ensures p.filename.None? || p.filename.value == "" ==> r == "inline_attachment"
  {
    if p.filename.Some? && p.filename.value != "" then p.filename.value else "inline_attachment"
  }

  /** `part[name]`: the header's value, or None. */
  function Header(p: Part, name: string): Value {
    if name in p.headers then Str(p.headers[name]) else Null
  }

  /** The metadata recorded for one extracted part. */
  function Metadata(p: Part): (r: Item)
    ensures r.Keys == {"filename", "Content-Type", "Content-Transfer-Encoding", "Content-ID", "X-Attachment-Id"}
    ensures r["filename"] == Str(FileName(p)) && r["Content-Type"] == Str(p.contentType)
  {
    map[
      "filename" := Str(FileName(p)),
      "Content-Type" := Str(p.contentType),
      "Content-Transfer-Encoding" := Header(p, "Content-Transfer-Encoding"),
      "Content-ID" := Header(p, "Content-ID"),
      "X-Attachment-Id" := Header(p, "X-Attachment-Id")
    ]
  }

  /** Where an extracted part is stored. */
  function AttachmentKey(destination: string, messageId: string, filename: string): string {
    "stored_emails/" + destination + "/" + messageId + "/attachments/" + filename
  }

  /** The metadata list built by the loop: one entry per selected part, in walk order. */
  function Attachments(parts: seq<Part>): (r: seq<Value>)
    ensures |r| <= |parts|
    ensures forall i :: 0 <= i < |r| ==>
      exists j :: 0 <= j < |parts| && Selected(parts[j]) && r[i] == Dict(Metadata(parts[j]))
  {
    if parts == [] then []
    else
      var last := parts[|parts| - 1];
      Attachments(parts[..|parts| - 1]) + (if Selected(last) then [Dict(Metadata(last))] else [])
  }

  function CountSelected(parts: seq<Part>): nat {
    if parts == [] then 0 else (if Selected(parts[0]) then 1 else 0) + CountSelected(parts[1..])
  }

  /** `part.set_payload(None)` on every selected part. */
  function Strip(p: Part): (r: Part)
    ensures r.(payload := p.payload) == p
    ensures Selected(r) == Selected(p)
    ensures Selected(p) ==> r.payload.None?
  {
    if Selected(p) then p.(payload := None) else p
  }

  /** The walked parts after the loop: the selected ones lose their payload. */
  function Stripped(parts: seq<Part>): (r: seq<Part>)
    ensures |r| == |parts|
  {
    if parts == [] then [] else Stripped(parts[..|parts| - 1]) + [Strip(parts[|parts| - 1])]
  }

  /** Every selected part has a decoded payload, and its put is accepted. */
  predicate PutsSucceed(faults: set<Call>, bucket: string, d: string, m: string, parts: seq<Part>) {
    forall j :: 0 <= j < |parts| && Selected(parts[j]) ==>
      parts[j].payload.Some? && Call.PutObject(BlobKey(bucket, AttachmentKey(d, m, FileName(parts[j])))) !in faults
  }

  /** The put of one walked part goes through, or the part is not selected and makes none. */
  predicate PutOk(faults: set<Call>, bucket: string, d: string, m: string, p: Part) {
    Selected(p) ==> p.payload.Some? && Call.PutObject(BlobKey(bucket, AttachmentKey(d, m, FileName(p)))) !in faults
  }

  /**
    How far the walk gets: the index of the first selected part whose put
    is refused, or the number of parts when every put goes through.
   */
  function FirstFailure(faults: set<Call>, bucket: string, d: string, m: string, parts: seq<Part>): (r: nat)
    ensures r <= |parts|
    ensures PutsSucceed(faults, bucket, d, m, parts[..r])
    ensures r < |parts| ==> !PutOk(faults, bucket, d, m, parts[r])
  {
    if parts == [] then 0
    else
      var init := parts[..|parts| - 1];
      var k := FirstFailure(faults, bucket, d, m, init);
      if k < |init| then
        assert init[..k] == parts[..k];
        k
      else if PutOk(faults, bucket, d, m, parts[|parts| - 1]) then
        assert init[..k] == init && parts == init + [parts[|parts| - 1]];
        PutsSucceedSnoc(faults, bucket, d, m, init, parts[|parts| - 1]);
        assert parts[..|parts|] == parts;
        |parts|
      else
        assert init[..k] == parts[..k];
        k
  }

  /**
    The object store after the attachment puts, in walk order: the last
    write to a key wins. A selected part without a payload writes nothing
    (its put is refused, and the handler stops there).
   */
  function StoreAttachments(blobs: map<BlobKey, Bytes>, bucket: string, d: string, m: string, parts: seq<Part>)
    : (r: map<BlobKey, Bytes>)
    ensures r.Keys >= blobs.Keys
    ensures forall k :: k in r && (k !in blobs || r[k] != blobs[k]) ==>
      k.bucket == bucket && exists j :: 0 <= j < |parts| && Selected(parts[j]) && k.key == AttachmentKey(d, m, FileName(parts[j]))
  {
    if parts == [] then blobs
    else
      var before := StoreAttachments(blobs, bucket, d, m, parts[..|parts| - 1]);
      var last := parts[|parts| - 1];
      if Selected(last) && last.payload.Some? then before[BlobKey(bucket, AttachmentKey(d, m, FileName(last))) := last.payload.value]
      else before
  }

  /** The last selected part, in walk order, whose file name is f. */
  function LastNamed(parts: seq<Part>, f: string): (r: Option<Part>)
    ensures r.Some? ==> r.value in parts && Selected(r.value) && FileName(r.value) == f
  {
    if parts == [] then None
    else
      var last := parts[|parts| - 1];
      if Selected(last) && FileName(last) == f then Some(last) else LastNamed(parts[..|parts| - 1], f)
  }

  /** The bucket and key are strings and the stored message is fetched. */
  predicate Fetches(blobs: map<BlobKey, Bytes>, faults: set<Call>, event: Item) {
    && ObjectName(event, "bucketName").Ok? && ObjectName(event, "bucketObjectKey").Ok?
    && var bk := BlobKey(event["bucketName"].s, event["bucketObjectKey"].s);
    && bk in blobs && Call.GetObject(bk) !in faults
  }

  /** Everything the handler needs from the store and the services goes right. */
  ghost predicate Succeeds(blobs: map<BlobKey, Bytes>, faults: set<Call>, event: Item, env: Env) {
    && StrField(event, "bucketName").Ok? && StrField(event, "bucketObjectKey").Ok?
    && var bk := BlobKey(event["bucketName"].s, event["bucketObjectKey"].s);
    && bk in blobs && Call.GetObject(bk) !in faults
    && StrField(event, "destination").Ok? && StrField(event, "messageId").Ok?
    && var d, m := event["destination"].s, event["messageId"].s;
    && PutsSucceed(faults, bk.bucket, d, m, env.parse(blobs[bk]).parts)
    && Call.PutObject(bk) !in faults
    && Call.UpdateEmail(EmailKey(d, m), "attachments") !in faults
  }

  /**
    The loop of `lambda_handler` over the walked parts: put each selected
    part's payload, append its metadata and clear its payload.
   */
  method ExtractParts(store: Store, bucket: string, d: string, m: string, parts: seq<Part>)
    returns (r: Result<(seq<Value>, seq<Part>)>)
    modifies store`blobs
    ensures r.Ok? <==> PutsSucceed(store.faults, bucket, d, m, parts)
    ensures r.Ok? ==> r.value == (Attachments(parts), Stripped(parts))
    ensures r.Ok? ==> store.blobs == StoreAttachments(old(store.blobs), bucket, d, m, parts)
    ensures var i := FirstFailure(store.faults, bucket, d, m, parts);
      && store.blobs == StoreAttachments(old(store.blobs), bucket, d, m, parts[..i])
      && (r.Err? ==> i < |parts| && r.error == if parts[i].payload.None? then ParamError else ClientError)
  {
    var current := parts;
    var attachments: seq<Value> := [];
    var i := 0;
    while i < |parts|
      invariant 0 <= i <= |parts|
      invariant PutsSucceed(store.faults, bucket, d, m, parts[..i])
      invariant store.blobs == StoreAttachments(old(store.blobs), bucket, d, m, parts[..i])
      invariant attachments == Attachments(parts[..i])
      invariant |current| == |parts|
      invariant forall j :: 0 <= j < |parts| ==> current[j] == if j < i then Strip(parts[j]) else parts[j]
    {
      var p := parts[i];
      PrefixStep(store.faults, bucket, d, m, parts, i);
      if Selected(p) {
        var ok := PutPart(store, bucket, d, m, p);
        if ok.Err? {
          FailedPut(store.faults, bucket, d, m, parts, i);
          FirstFailureAt(store.faults, bucket, d, m, parts, i);
          return Err(ok.error);
        }
        StoreStep(old(store.blobs), bucket, d, m, parts, i);
        attachments := attachments + [Dict(Metadata(p))];
        current := current[i := Strip(p)];
      } else {
        StoreStep(old(store.blobs), bucket, d, m, parts, i);
      }
      i := i + 1;
    }
    assert parts[..|parts|] == parts;
    FirstFailureAt(store.faults, bucket, d, m, parts, |parts|);
    StrippedIndex(parts);
    assert current == Stripped(parts);
    r := Ok((attachments, current));
  }

  /** The put of one selected part: a missing payload fails parameter validation. */
  method PutPart(store: Store, bucket: string, d: string, m: string, p: Part) returns (r: Result<()>)
    modifies store`blobs
    ensures var k := BlobKey(bucket, AttachmentKey(d, m, FileName(p)));
      && (r.Ok? <==> p.payload.Some? && Call.PutObject(k) !in store.faults)
      && (r.Err? ==> r.error == (if p.payload.None? then ParamError else ClientError))
      && store.blobs == if r.Ok? then old(store.blobs)[k := p.payload.value] else old(store.blobs)
  {
    if p.payload.None? { return Err(ParamError); }
    var ok := store.PutObject(BlobKey(bucket, AttachmentKey(d, m, FileName(p))), p.payload.value);
    r := if ok then Ok(()) else Err(ClientError);
  }

  /** One more walked part: the puts and the metadata list grow by that part alone. */
  lemma PrefixStep(faults: set<Call>, bucket: string, d: string, m: string, parts: seq<Part>, i: nat)
    requires i < |parts|
    ensures PutsSucceed(faults, bucket, d, m, parts[..i + 1]) <==>
      PutsSucceed(faults, bucket, d, m, parts[..i])
      && (Selected(parts[i]) ==> parts[i].payload.Some? && Call.PutObject(BlobKey(bucket, AttachmentKey(d, m, FileName(parts[i])))) !in faults)
    ensures Attachments(parts[..i + 1]) == Attachments(parts[..i]) + (if Selected(parts[i]) then [Dict(Metadata(parts[i]))] else [])
  {
    assert parts[..i + 1] == parts[..i] + [parts[i]];
    assert parts[..i + 1][..i] == parts[..i];
    PutsSucceedSnoc(faults, bucket, d, m, parts[..i], parts[i]);
  }

  /** The object store after one more walked part whose put went through. */
  lemma StoreStep(blobs: map<BlobKey, Bytes>, bucket: string, d: string, m: string, parts: seq<Part>, i: nat)
    requires i < |parts|
    requires Selected(parts[i]) ==> parts[i].payload.Some?
    ensures StoreAttachments(blobs, bucket, d, m, parts[..i + 1]) ==
      if Selected(parts[i]) then StoreAttachments(blobs, bucket, d, m, parts[..i])[BlobKey(bucket, AttachmentKey(d, m, FileName(parts[i]))) := parts[i].payload.value]
      else StoreAttachments(blobs, bucket, d, m, parts[..i])
  {
    assert parts[..i + 1][..i] == parts[..i];
  }

  /** A refused put of the i-th part means not every put succeeds. */
  lemma FailedPut(faults: set<Call>, bucket: string, d: string, m: string, parts: seq<Part>, i: nat)
    requires i < |parts| && Selected(parts[i])
    requires !(parts[i].payload.Some? && Call.PutObject(BlobKey(bucket, AttachmentKey(d, m, FileName(parts[i])))) !in faults)
    ensures !PutsSucceed(faults, bucket, d, m, parts)
  {
  }

  /** The walk stops at i exactly when the puts before i go through and the one at i is refused. */
  lemma FirstFailureAt(faults: set<Call>, bucket: string, d: string, m: string, parts: seq<Part>, i: nat)
    requires i <= |parts|
    requires PutsSucceed(faults, bucket, d, m, parts[..i])
    requires i < |parts| ==> !PutOk(faults, bucket, d, m, parts[i])
    ensures FirstFailure(faults, bucket, d, m, parts) == i
  {
  }

  /** Every put goes through exactly when the walk reaches the end. */
  lemma FirstFailureEnd(faults: set<Call>, bucket: string, d: string, m: string, parts: seq<Part>)
    ensures PutsSucceed(faults, bucket, d, m, parts) <==> FirstFailure(faults, bucket, d, m, parts) == |parts|
  {
    assert parts[..|parts|] == parts;
    if PutsSucceed(faults, bucket, d, m, parts) {
      FirstFailureAt(faults, bucket, d, m, parts, |parts|);
    }
  }

  lemma PutsSucceedSnoc(faults: set<Call>, bucket: string, d: string, m: string, parts: seq<Part>, p: Part)
    ensures PutsSucceed(faults, bucket, d, m, parts + [p]) <==>
      PutsSucceed(faults, bucket, d, m, parts)
      && (Selected(p) ==> p.payload.Some? && Call.PutObject(BlobKey(bucket, AttachmentKey(d, m, FileName(p)))) !in faults)
  {
    assert forall j :: 0 <= j < |parts| ==> (parts + [p])[j] == parts[j];
    assert (parts + [p])[|parts|] == p;
  }

  lemma {:induction false} StrippedIndex(parts: seq<Part>)
    ensures forall j :: 0 <= j < |parts| ==> Stripped(parts)[j] == Strip(parts[j])
  {
    if parts != [] {
      StrippedIndex(parts[..|parts| - 1]);
    }
  }

  predicate NoneSelected(parts: seq<Part>) {
    forall j :: 0 <= j < |parts| ==> !Selected(parts[j])
  }

  /** With no part selected, the object store is untouched. */
  lemma {:induction false} StoreNothingSelected(blobs: map<BlobKey, Bytes>, bucket: string, d: string, m: string, parts: seq<Part>)
    requires NoneSelected(parts)
    ensures StoreAttachments(blobs, bucket, d, m, parts) == blobs
  {
    if parts != [] {
      StoreNothingSelected(blobs, bucket, d, m, parts[..|parts| - 1]);
    }
  }

  /**
    `lambda_handler`: fetch and parse the stored message, put every
    selected part, strip them, rewrite the message at its own key, set the
    record's `attachments` and return the event with `attachments` added.
    No exception is caught.
   */
  method LambdaHandler(store: Store, event: Item, env: Env) returns (r: Result<Item>)
    requires store.Valid()
    modifies store`blobs, store`emails
    ensures store.Valid()
    ensures r.Ok? <==> Succeeds(old(store.blobs), store.faults, event, env)
    ensures r.Err? ==> store.emails == old(store.emails)
    ensures r.Ok? ==>
      var bk := BlobKey(event["bucketName"].s, event["bucketObjectKey"].s);
      var d, m := event["destination"].s, event["messageId"].s;
      var parts := env.parse(old(store.blobs)[bk]).parts;
      && store.blobs == StoreAttachments(old(store.blobs), bk.bucket, d, m, parts)[bk := env.serialize(Document(Stripped(parts)))]
      && store.emails == Upsert(old(store.emails), EmailKey(d, m), "attachments", List(Attachments(parts)))
      && r.value == event["attachments" := List(Attachments(parts))]
    // Failing before the fetched message is walked writes nothing.
    ensures !Fetches(old(store.blobs), store.faults, event) ==> r.Err? && store.blobs == old(store.blobs)
    ensures (ObjectName(event, "bucketName").Ok? && ObjectName(event, "bucketObjectKey").Ok?
      && !Fetches(old(store.blobs), store.faults, event)) ==> r == Err(ClientError)
    // Once fetched, the puts made before the failing call stay in place.
    ensures Fetches(old(store.blobs), store.faults, event) ==>
      var bk := BlobKey(event["bucketName"].s, event["bucketObjectKey"].s);
      var parts := env.parse(old(store.blobs)[bk]).parts;
      var named := StrField(event, "destination").Ok? && StrField(event, "messageId").Ok?;
      var d := if StrField(event, "destination").Ok? then event["destination"].s else "";
      var m := if StrField(event, "messageId").Ok? then event["messageId"].s else "";
      var i := FirstFailure(store.faults, bk.bucket, d, m, parts);
      var attached := StoreAttachments(old(store.blobs), bk.bucket, d, m, parts[..i]);
      if !named && !NoneSelected(parts) then
        r.Err? && store.blobs == old(store.blobs)
      else if i < |parts| then
        r.Err? && r.error == (if parts[i].payload.None? then ParamError else ClientError) && store.blobs == attached
      else if Call.PutObject(bk) in store.faults then
        r == Err(ClientError) && store.blobs == StoreAttachments(old(store.blobs), bk.bucket, d, m, parts)
      else
        store.blobs == StoreAttachments(old(store.blobs), bk.bucket, d, m, parts)[bk := env.serialize(Document(Stripped(parts)))]
  {
    var bucket := ObjectName(event, "bucketName");
    var key := ObjectName(event, "bucketObjectKey");
    if bucket.Err? { return Err(bucket.error); }
    if key.Err? { return Err(key.error); }
    var bk := BlobKey(bucket.value, key.value);
    var fetched := store.GetObject(bk);
    if fetched.Err? { return Err(fetched.error); }
    var doc := env.parse(fetched.value);
    var parts := doc.parts;

    // The key of the first selected part is the first read of the
    // destination and message id; without a selected part they are first
    // read when the record is updated, after the message is rewritten.
    var dest := StrField(event, "destination");
    var mid := StrField(event, "messageId");
    if (dest.Err? || mid.Err?) && !NoneSelected(parts) {
      return Err(if dest.Err? then dest.error else mid.error);
    }
    var d := if dest.Ok? then dest.value else "";
    var m := if mid.Ok? then mid.value else "";
    var extracted := ExtractParts(store, bk.bucket, d, m, parts);
    FirstFailureEnd(store.faults, bk.bucket, d, m, parts);
    assert parts[..|parts|] == parts;
    if extracted.Err? { return Err(extracted.error); }
    var (attachments, current) := extracted.value;
    var ok := store.PutObject(bk, env.serialize(Document(current)));
    if !ok { return Err(ClientError); }
    if dest.Err? { return Err(dest.error); }
    if mid.Err? { return Err(mid.error); }
    ok := store.UpdateEmail(EmailKey(d, m), "attachments", List(attachments));
    if !ok { return Err(ClientError); }
    r := Ok(event["attachments" := List(attachments)]);
  }

  /** The metadata list has exactly one entry per selected part, even when file names repeat. */
  lemma {:induction false} AttachmentsCount(parts: seq<Part>)
    ensures |Attachments(parts)| == CountSelected(parts)
  {
    if parts != [] {
      var init := parts[..|parts| - 1];
      AttachmentsCount(init);
      CountSelectedSnoc(init, parts[|parts| - 1]);
      assert init + [parts[|parts| - 1]] == parts;
    }
  }

  lemma {:induction false} CountSelectedSnoc(parts: seq<Part>, p: Part)
    ensures CountSelected(parts + [p]) == CountSelected(parts) + (if Selected(p) then 1 else 0)
  {
    if parts != [] {
      assert (parts + [p])[1..] == parts[1..] + [p];
      CountSelectedSnoc(parts[1..], p);
    }
  }

  /** Different file names never share a key. */
  lemma AttachmentKeyInjective(d: string, m: string, f1: string, f2: string)
    requires AttachmentKey(d, m, f1) == AttachmentKey(d, m, f2)
    ensures f1 == f2
  {
    var prefix := "stored_emails/" + d + "/" + m + "/attachments/";
    assert AttachmentKey(d, m, f1) == prefix + f1;
    assert AttachmentKey(d, m, f2) == prefix + f2;
    assert f1 == (prefix + f1)[|prefix|..];
    assert f2 == (prefix + f2)[|prefix|..];
  }

  /**
    Parts with the same file name write the same key and the last one in
    walk order wins; a key no selected part names is left as it was.
   */
  lemma {:induction false} LastWriteWins(blobs: map<BlobKey, Bytes>, bucket: string, d: string, m: string, parts: seq<Part>, f: string)
    requires forall j :: 0 <= j < |parts| && Selected(parts[j]) ==> parts[j].payload.Some?
    ensures var k := BlobKey(bucket, AttachmentKey(d, m, f));
      var after := StoreAttachments(blobs, bucket, d, m, parts);
      match LastNamed(parts, f)
      case Some(p) => p.payload.Some? && k in after && after[k] == p.payload.value
      case None => (k in after <==> k in blobs) && (k in blobs ==> after[k] == blobs[k])
  {
    if parts != [] {
      var init := parts[..|parts| - 1];
      var last := parts[|parts| - 1];
      LastWriteWins(blobs, bucket, d, m, init, f);
      if Selected(last) && FileName(last) != f {
        if AttachmentKey(d, m, FileName(last)) == AttachmentKey(d, m, f) {
          AttachmentKeyInjective(d, m, FileName(last), f);
        }
      }
    }
  }

  /**
    An attachment never lands on the message's own canonical key, as long
    as the message id holds no '/'.
   */
  lemma AttachmentKeyIsNotCanonical(d: string, m: string, f: string)
    requires StoreEmailStage.NoSlash(m)
    ensures AttachmentKey(d, m, f) != StoreEmailStage.CanonicalKey(d, m)
  {
    var prefix := "stored_emails/" + d + "/" + m + "/";
    var a := "attachments/" + f;
    var c := m + ".eml";
    assert AttachmentKey(d, m, f) == prefix + a;
    assert StoreEmailStage.CanonicalKey(d, m) == prefix + c;
    var j := if |m| >= 12 then 11 else |m|;
    assert a[j] != c[j];
    assert (prefix + a)[|prefix| + j] != (prefix + c)[|prefix| + j];
  }
}
