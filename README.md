# email-catcher, modelled in Dafny

email-catcher is a disposable-inbox service on AWS. SES receives mail for
addresses that users have registered. A receipt-rule Lambda admits mail only
for known addresses. A Step Functions pipeline then does three things:
- it moves the raw message to its canonical S3 key and records it in the
  emails table;
- it strips the attachments into separate S3 objects;
- it optionally asks Bedrock for a summary.

A REST API, behind a Cognito authoriser, serves these requests:
- list a mailbox newest-first;
- read a message, with presigned links to its attachments;
- delete a message;
- register an address;
- delete an address together with all its mail.

The deployment script writes `Pulumi.yaml` and fills in the frontend's
`aws-exports.js`. Every Pulumi resource is tagged through a stack
transformation.

The model keeps the data each piece of code touches.

- **Shared state.** `Cloud.Store` is a class holding the S3 objects
  (`blobs`), the emails table keyed by (destination, messageId) (`emails`)
  and the addresses table (`addresses`). `faults` names the service calls
  that raise a `ClientError`. Every handler is a method that changes the
  store, and its `ensures` gives the new tables in terms of the old ones.
- **Items and events.** DynamoDB items, events and JSON bodies use a dynamic
  `Values.Value` (null, bool, number, string, list, dict). Python's
  `KeyError`, `TypeError` and truthiness rules are therefore explicit.
- **Foreign code.** The MIME parser, Bedrock, UTF-8 decoding, presigning and
  string formatting are fields of `Foreign.Env`.
- **API replies.** A handler's result is `Util.Reply(status, body)`: the
  arguments it passes to `create_response`.
- **Pure helpers.** The text clean-up before summarising, the address
  validator, the YAML nested update, the frontend regex substitution and the
  tag merge are functions. Lemmas about them state what the deployment and
  the pipeline rely on.

## Model

| member | source | states |
|---|---|---|
| Values.Get | lambda/util.py:42 | `dict.get`: the stored value when the key is present, the default otherwise |
| Values.StrField | lambda/sm_summarize_email_function.py:108 | reading a string attribute succeeds exactly when the key is present and holds a string |
| Values.Lower | lambda/incoming_email_check_function.py:23 | `str.lower` on ASCII: same length, each character lower-cased |
| Values.LowerIdentity | lambda/incoming_email_check_function.py:23 | lower-casing leaves a string unchanged exactly when it has no upper-case letter |
| Values.LowerIdempotent | lambda/incoming_email_check_function.py:23 | lower-casing twice equals lower-casing once, so table keys are stable |
| Values.Contains | lambda/sm_store_attachments_function.py:53 | the `in` test on strings holds exactly when the needle occurs at some position |
| Values.Truthy | lambda/util.py:44 | Python truthiness: null, false, zero and empty strings, lists and dicts are false, everything else is true |
| Values.EqualsTrue | lambda/get_email_function.py:158 | `x == True` holds for `True` and for the number 1 only |
| Values.Path | lambda/util.py:56-57 | chained `[...]` reads succeed exactly along nested dicts holding every key; a missing key is a KeyError, a non-dict on the way a TypeError, and the empty path returns the value itself |
| Values.PathConcat | lambda/util.py:56-57 | reading a path in two stages gives the same result, error included, as reading it at once |
| Cloud.EmailKeyOf | dynamodb.py:29-37 | an item has a primary key exactly when `destination` and `messageId` are both strings |
| Cloud.AddressKeyOf | dynamodb.py:11-17 | an address item has a key exactly when `address` is a string |
| Cloud.BlobOf | lambda/delete_email_item_function.py:69-71 | an email item names an S3 object exactly when `bucketName` and `bucketObjectKey` are strings |
| Cloud.ObjectName | lambda/api_get_email_function.py:93-95 | a bucket or key argument for an S3 call: succeeds exactly on a string attribute; a missing attribute is a KeyError and any other value fails botocore's parameter validation |
| Cloud.KeyItem | dynamodb.py:29-37 | the item created by an update on a missing key carries that key |
| Cloud.Upsert | lambda/sm_summarize_email_function.py:83-87 | `update_item SET a = v` creates or extends the keyed item, sets `a` to `v`, and keeps its other attributes and all other items |
| Cloud.Before | lambda/sm_summarize_email_function.py:83-87 | the item an update starts from: the stored one, or a bare key item when there is none |
| Cloud.Store.GetObject | lambda/sm_store_attachments_function.py:39-44 | `get_object` returns the stored bytes, and fails with a ClientError on a missing key or a fault |
| Cloud.Store.CopyObject | lambda/sm_store_email_function.py:37-41 | `copy_object` succeeds exactly when the source exists, differs from the target and is not faulted; the target then holds the source's bytes |
| Cloud.Store.PutObject | lambda/sm_store_attachments_function.py:59-63 | `put_object` replaces the key's bytes unless faulted; nothing else changes |
| Cloud.Store.DeleteObject | lambda/delete_address_function.py:38 | `delete_object` removes the key (a missing key is no error) unless faulted |
| Cloud.Store.GetEmail | lambda/api_get_email_function.py:29-36 | `get_item` returns the stored item or none, and raises a ClientError on a fault |
| Cloud.Store.PutEmail | lambda/sm_store_email_function.py:66 | `put_item` replaces the item at the item's own key; it fails on an item without a key |
| Cloud.Store.UpdateEmail | lambda/sm_summarize_email_function.py:83-87 | an update is an upsert of one attribute, or no change at all on a fault |
| Cloud.Store.DeleteEmail | lambda/delete_email_item_function.py:46-48 | `delete_item` removes exactly that key |
| Cloud.Store.QueryEmails | lambda/delete_address_function.py:65-66 | a query on `destination` returns every item of that partition exactly once and nothing else (in some order), or a ClientError on a fault |
| Cloud.Store.Collected | lambda/get_emails_list_function.py:29-31 | distinct keys that cover a partition yield a complete, duplicate-free query answer |
| Cloud.Store.GetAddress | lambda/util.py:41-42 | an address lookup returns the stored item or none |
| Cloud.Store.PutAddress | lambda/api_post_addresses_function.py:45-51 | an address put replaces the item at its `address` key |
| Cloud.Store.DeleteAddress | lambda/delete_address_function.py:57 | an address delete removes exactly that key |
| Util.Cors | lambda/util.py:24-28 | the three CORS headers, origin `*` |
| Util.Headers.constructor | lambda/util.py:21 | a mutable headers dict holding exactly the given entries |
| Util.CreateResponse | lambda/util.py:18-36 | the caller's headers gain the CORS entries, which win over the caller's own; the body is JSON-dumped when asked, and dumping an exception raises TypeError |
| Util.CorsOverrides | lambda/util.py:30 | after the update every CORS header has the fixed value, and every other header keeps the caller's value |
| Util.Merged | lambda/util.py:21 | the shared default dict after some calls holds exactly the CORS keys plus what it held before |
| Util.SharedDefaultSettles | lambda/util.py:21 | repeated calls with the shared default dict leave it at the same content as a single call |
| Util.ErrorReplyRaises | lambda/util.py:34 | as written, a 500 reply that carries an exception always fails with TypeError |
| Util.CreateErrorSafeResponse | lambda/util.py:18-36 | corrected: an exception is replaced by its message string, so every reply is produced with the same status and headers |
| Util.CheckAccess | lambda/util.py:39-53 | access is granted exactly when the caller owns the address (its item exists, is non-empty and its `user_sub` equals the caller's); a lookup fault raises; the full form also returns the item |
| Util.Owns | lambda/util.py:44 | the ownership test of `check_access`: the address item exists, is truthy and names the caller |
| Util.UserSub | lambda/util.py:56-57 | the caller's `sub` claim is read from `requestContext.authorizer.claims`; it succeeds exactly when every level is a dict holding the next key, a missing key is a KeyError and a non-dict level a TypeError |
| Util.PathParameter | lambda/api_get_email_function.py:84-85 | a path parameter is returned only when `pathParameters.<name>` is a string |
| Util.AddressRequest | lambda/delete_address_function.py:88-89 | the address path parameter and the caller are read in that order, and the request fails with the first error |
| Text.Prefix | lambda/sm_summarize_email_function.py:96-97 | Python slicing `s[:n]`: a prefix no longer than `n` (or `len + n` for negative `n`) |
| Text.IndexOf | lambda/sm_summarize_email_function.py:117 | the first position of a character, or none when it does not occur |
| Text.UrlMatchEnd | lambda/sm_summarize_email_function.py:117 | `<https?://[^>]*>` matches at the start exactly when the text starts with `<http://` or `<https://` and contains a `>`; the match ends at the first `>` |
| Text.RemoveUrls | lambda/sm_summarize_email_function.py:117-118 | removing the URL matches never lengthens the text |
| Text.RemoveQuoteBreaks | lambda/sm_summarize_email_function.py:119 | removing `\n>` never lengthens the text |
| Text.RemoveGt | lambda/sm_summarize_email_function.py:120 | removing `>+` never lengthens the text |
| Text.RemoveGtFacts | lambda/sm_summarize_email_function.py:120 | the result has exactly the characters of the input other than `>` |
| Text.DropBlanks | lambda/sm_summarize_email_function.py:121 | a run of blanks is consumed whole: the remainder does not start with a blank and has no new characters |
| Text.CollapseBlanks | lambda/sm_summarize_email_function.py:121 | replacing each `[ \t]+` run with one space never lengthens the text |
| Text.CollapseBlanksFacts | lambda/sm_summarize_email_function.py:121 | after collapsing there is no tab and no two adjacent spaces, and no character other than a space is new |
| Text.CollapseBlanksIdempotent | lambda/sm_summarize_email_function.py:121 | collapsing twice equals collapsing once |
| Text.Normalise | lambda/sm_summarize_email_function.py:117-121 | the four substitutions in order never lengthen the text |
| Text.NormaliseIsClean | lambda/sm_summarize_email_function.py:117-121 | the normalised body has no `>`, no tab and no double space |
| Text.PrefixClean | lambda/sm_summarize_email_function.py:122 | truncating a clean text keeps it clean |
| Text.WithoutGtUnchanged | lambda/sm_summarize_email_function.py:117-120 | a body without `>` passes the first three substitutions unchanged |
| Text.Split | pulumi_deploy.py:28 | `str.split(sep)` gives at least one piece, and no piece contains the separator |
| Text.JoinSplit | pulumi_deploy.py:28 | joining the pieces of a split with the separator gives back the original string |
| Text.SplitJoin | pulumi_deploy.py:28 | splitting a join of separator-free pieces gives back the pieces |
| Text.SplitCovers | lambda/api_post_addresses_function.py:66 | every non-separator character of the input lies in some piece |
| Text.JoinCovers | lambda/api_post_addresses_function.py:66 | every non-separator character of a join comes from some piece |
| AdmissionFilter.AddressExists | lambda/incoming_email_check_function.py:21-35 | true exactly when the lower-cased address has an item with a truthy `address`; a fault gives false; a missing `address` attribute is a KeyError that cannot arise in a well-keyed table |
| AdmissionFilter.LambdaHandler | lambda/incoming_email_check_function.py:38-54 | no records gives no disposition; an empty recipient list is an IndexError; otherwise CONTINUE exactly when the first recipient of the first record exists |
| AdmissionFilter.AddressExistsIgnoresCase | lambda/incoming_email_check_function.py:23 | the admission decision does not depend on letter case |
| AdmissionFilter.OnlyFirstRecipientMatters | lambda/incoming_email_check_function.py:44-54 | later records and later recipients never change the disposition |
| StoreEmailStage.CanonicalKey | lambda/sm_store_email_function.py:33 | a stored message lives under `stored_emails/` and ends in `.eml` |
| StoreEmailStage.DebugKey | lambda/sm_store_email_function.py:42-47 | the debug copy's key extends the canonical key, so the copy never overwrites the stored message |
| StoreEmailStage.IsDebug | lambda/sm_store_email_function.py:42 | the debug copy is made when the logging level is `debug` in any letter case |
| StoreEmailStage.SplitAtFirstSlash | lambda/sm_store_email_function.py:33 | two slash-joined strings whose heads have no slash are equal only piecewise |
| StoreEmailStage.CanonicalKeyInjective | lambda/sm_store_email_function.py:33 | for slash-free parts, distinct (destination, messageId) pairs get distinct S3 keys |
| StoreEmailStage.NewRecord | lambda/sm_store_email_function.py:53-64 | the record carries the first recipient and the message id as key, points at the canonical object, has no attachments and is neither read nor processed |
| StoreEmailStage.Copied | lambda/sm_store_email_function.py:37-47 | the canonical key (and the debug copy when on) hold the incoming bytes; every other object is unchanged |
| StoreEmailStage.LambdaHandler | lambda/sm_store_email_function.py:23-72 | copy, optional debug copy, delete and put run in order; the handler succeeds exactly when all four do, and each failure leaves the effects of the earlier steps only |
| AttachmentStage.FileName | lambda/sm_store_attachments_function.py:54-57 | the part's file name when present and non-empty, otherwise `inline_attachment`; never empty |
| AttachmentStage.Selected | lambda/sm_store_attachments_function.py:53 | a part is extracted when its Content-Disposition mentions `attachment` or `inline` anywhere, an absent header counting as empty |
| AttachmentStage.Metadata | lambda/sm_store_attachments_function.py:65-71 | the five metadata keys, with the resolved file name and the content type |
| AttachmentStage.AttachmentKey | lambda/sm_store_attachments_function.py:61 | an extracted part is stored under `stored_emails/<destination>/<messageId>/attachments/<file name>` |
| AttachmentStage.Attachments | lambda/sm_store_attachments_function.py:65-72 | the metadata list has at most one entry per part, and every entry is the metadata of a selected part |
| AttachmentStage.Strip | lambda/sm_store_attachments_function.py:74 | stripping drops the payload of a selected part and keeps every other field, so the part stays selected |
| AttachmentStage.Stripped | lambda/sm_store_attachments_function.py:74 | stripping keeps every part, one for one |
| AttachmentStage.StrippedIndex | lambda/sm_store_attachments_function.py:74 | the i-th stripped part is the i-th part with its payload dropped when selected |
| AttachmentStage.LastNamed | lambda/sm_store_attachments_function.py:54-61 | the last selected part that resolves to a given file name is one of the parts |
| AttachmentStage.PutsSucceed | lambda/sm_store_attachments_function.py:59-63 | every selected part has a payload and its upload is not refused |
| AttachmentStage.StoreAttachments | lambda/sm_store_attachments_function.py:59-63 | the uploads only add or overwrite objects in the message's bucket whose keys are attachment keys of selected parts of this message |
| AttachmentStage.PutPart | lambda/sm_store_attachments_function.py:59-63 | one attachment upload writes its payload under its key; a part without payload fails with a parameter error, a fault with a ClientError |
| AttachmentStage.FirstFailure | lambda/sm_store_attachments_function.py:51-63 | the walk stops at the first selected part whose upload is refused: every upload before it goes through, and that one does not |
| AttachmentStage.FirstFailureAt | lambda/sm_store_attachments_function.py:51-63 | that stopping point is unique |
| AttachmentStage.FirstFailureEnd | lambda/sm_store_attachments_function.py:51-63 | the walk reaches the end exactly when every upload goes through |
| AttachmentStage.ExtractParts | lambda/sm_store_attachments_function.py:50-74 | the loop succeeds exactly when every selected part uploads; it then returns the metadata list and the stripped parts; on success or failure the bucket holds exactly the uploads before the first refused one, and a failure is a ParamError for a missing payload and a ClientError otherwise |
| AttachmentStage.PrefixStep | lambda/sm_store_attachments_function.py:51-72 | one more part extends the metadata list by its entry exactly when it is selected |
| AttachmentStage.StoreStep | lambda/sm_store_attachments_function.py:59-63 | one more part adds its upload to the bucket exactly when it is selected |
| AttachmentStage.FailedPut | lambda/sm_store_attachments_function.py:59-63 | a failed upload makes the whole run fail |
| AttachmentStage.PutsSucceedSnoc | lambda/sm_store_attachments_function.py:51-63 | the run succeeds on one more part exactly when it succeeds before and that part's upload succeeds |
| AttachmentStage.StoreNothingSelected | lambda/sm_store_attachments_function.py:53 | a message with no attachment or inline part leaves the bucket unchanged |
| AttachmentStage.AttachmentsCount | lambda/sm_store_attachments_function.py:72 | one metadata entry per selected part |
| AttachmentStage.CountSelectedSnoc | lambda/sm_store_attachments_function.py:53 | the selected count grows by one exactly when the new part is selected |
| AttachmentStage.AttachmentKeyInjective | lambda/sm_store_attachments_function.py:61 | within one message, distinct file names get distinct keys |
| AttachmentStage.LastWriteWins | lambda/sm_store_attachments_function.py:59-63 | when two parts resolve to one name, the stored object is the last one's payload; an unused name keeps its old object |
| AttachmentStage.AttachmentKeyIsNotCanonical | lambda/sm_store_attachments_function.py:61 | an attachment never overwrites the stored message itself |
| AttachmentStage.LambdaHandler | lambda/sm_store_attachments_function.py:31-87 | on success the bucket holds every upload plus the rewritten message, the record's `attachments` is the metadata list, and the event is returned with it; on failure the table is untouched, and the bucket is: unchanged when a name or the fetch fails; the uploads before the refused one when an upload fails; every upload when the rewrite is refused; every upload plus the rewrite when only the record update fails |
| SummarizeStage.CharacterLimit | lambda/sm_summarize_email_function.py:31-33 | `int(4096 * 3.25 - 1000)` is exactly 12312 |
| SummarizeStage.ExtractRecentContent | lambda/sm_summarize_email_function.py:96-97 | the truncated body is a prefix of the body, of length min(len, limit) |
| SummarizeStage.PreparedText | lambda/sm_summarize_email_function.py:116-122 | the text sent to Bedrock is clean and at most 12312 characters, never longer than the body |
| SummarizeStage.SummaryValue | lambda/sm_summarize_email_function.py:71-75 | a summary is stored as a string, and a failed summary as null |
| SummarizeStage.SetSummary | lambda/sm_summarize_email_function.py:78-93 | `summary_text` is upserted unless the update faults, and a fault is swallowed |
| SummarizeStage.AfterSummary | lambda/sm_summarize_email_function.py:115-127 | the guarded block only touches records of this address, and any record it writes holds the summary of the prepared body, which is clean and at most 12312 characters |
| SummarizeStage.Fetch | lambda/sm_summarize_email_function.py:109-113 | the object read succeeds exactly when both names are strings and the object exists without fault |
| SummarizeStage.LambdaHandler | lambda/sm_summarize_email_function.py:100-136 | when the address asks for summaries the summary is set (a failed read aborts), then `is_processed` is set; the handler succeeds exactly when that final update does |
| Pipeline.RecordFeedsLaterStages | lambda/sm_store_email_function.py:53-67 | the record that one stage returns has the four string fields the next two stages read |
| Pipeline.StoreThenExtract | lambda/sm_store_attachments_function.py:37-87 | after both stages, the canonical object is the rewritten message, and the record has the attachment list |
| Pipeline.AfterSummaryKeeps | lambda/sm_summarize_email_function.py:124 | summarising changes no attribute other than `summary_text` |
| Pipeline.ProcessedRecord | lambda/sm_summarize_email_function.py:124-133 | after the last stage the record is processed, keeps its attachments, and any summary is the summary of the prepared body |
| Pipeline.Run | lambda/sm_summarize_email_function.py:100-136 | a successful pipeline leaves a processed record with its attachments, whose summary (if any) comes from the rewritten message |
| StoreEmailLegacy.Message | lambda/store_email_function.py:127 | the SNS message is read from the first record only |
| StoreEmailLegacy.OnlyFirstRecordRead | lambda/store_email_function.py:127 | records after the first never affect the message |
| StoreEmailLegacy.First | lambda/store_email_function.py:106 | indexing `[0]` succeeds exactly on a non-empty list or string (a string gives its first character); a dict is a KeyError, an empty list or string an IndexError, anything else a TypeError |
| StoreEmailLegacy.Record | lambda/store_email_function.py:104-114 | the item is built exactly when every read field exists; it holds the first recipient, the id, the receipt's object and `isNew` true |
| StoreEmailLegacy.StoreEmail | lambda/store_email_function.py:102-118 | the handler fails exactly when a field read raises, and then writes nothing; otherwise the table is `Stored`: the item at its own key, or unchanged when the put is refused or the key is not a string |
| StoreEmailLegacy.Stored | lambda/store_email_function.py:104-118 | the table changes only when the item has a string key and the put is not refused, and then exactly that key holds the item |
| StoreEmailLegacy.LegacySummary | lambda/store_email_function.py:131-143 | a summary exists only when the object was read and has a body; it is the summary of the body without URLs |
| StoreEmailLegacy.SummariseStored | lambda/store_email_function.py:130-149 | the summary is upserted only when the address asks for it and every step succeeds |
| StoreEmailLegacy.LambdaHandler | lambda/store_email_function.py:121-149 | succeeds exactly when the message and the record can be read; the new table is the stored record with `summary_text` upserted when the address asks for summaries, the summary was made and the update is not refused; a malformed event raises before any write |
| GetEmailLegacy.SetAsRead | lambda/get_email_function.py:55-65 | `isNew` becomes false; a fault raises a string, which is a TypeError |
| GetEmailLegacy.FirstReadSummary | lambda/get_email_function.py:160-169 | a new summary is made only when the address's `summarize_emails` is truthy and the message has a plain body |
| GetEmailLegacy.FirstRead | lambda/get_email_function.py:158-171 | on first read the new table is `FirstReadTable` for the summary the read made |
| GetEmailLegacy.FirstReadTable | lambda/get_email_function.py:158-169 | `isNew` becomes false, the fresh summary is stored unless that update is refused, every other attribute and every other record is kept |
| GetEmailLegacy.Fetched | lambda/get_email_function.py:151-158 | the object is fetched and decoded exactly as the record names it, and `isNew` must be present; each failure is one of the raised errors |
| GetEmailLegacy.Made | lambda/get_email_function.py:158-169 | a summary is made only on a first read, and then it is the guarded block's summary |
| GetEmailLegacy.LegacyReply | lambda/get_email_function.py:151-177 | 200 exactly when the fetch succeeds and, for a new record, the flag update is accepted; the body holds the message and the fresh or stored summary; otherwise 500 with the exception |
| GetEmailLegacy.LegacyAfterRead | lambda/get_email_function.py:158-169 | only a record flagged new is written, only on a 200, and no other record changes |
| GetEmailLegacy.RepeatReadWritesNothing | lambda/get_email_function.py:158-177 | after a successful read, reading again writes nothing and gives the same reply |
| GetEmailLegacy.ReadRecord | lambda/get_email_function.py:151-177 | the reply is `LegacyReply` and the new table is `LegacyAfterRead` of the found record |
| GetEmailLegacy.LambdaHandler | lambda/get_email_function.py:132-192 | 500 with the exception when the request, the ownership lookup or the record lookup fails, 401 exactly when the caller does not own the address, 404 exactly when the record is missing, and otherwise the reply and the table of `ReadRecord`; only that last case writes |
| ApiGetEmail.GetEmailFile | lambda/api_get_email_function.py:26-40 | returns the stored item exactly when it exists; a fault raises a string, which is a TypeError |
| ApiGetEmail.SetAsRead | lambda/api_get_email_function.py:43-53 | `is_read` becomes true, by an upsert |
| ApiGetEmail.Elements | lambda/api_get_email_function.py:101 | a list attribute is iterated as its elements |
| ApiGetEmail.PresignedUrls | lambda/api_get_email_function.py:56-74 | the loop succeeds exactly when every attachment is a dict, and yields at most one link per attachment |
| ApiGetEmail.GeneratePresignedUrls | lambda/api_get_email_function.py:56-74 | the loop computes the link list of the specification |
| ApiGetEmail.Signed | lambda/api_get_email_function.py:59-73 | the attachments that got a link are among the attachments |
| ApiGetEmail.LinksFollowAttachments | lambda/api_get_email_function.py:58-68 | the j-th link pairs the j-th signed attachment with the URL of its own S3 key |
| ApiGetEmail.AllSigned | lambda/api_get_email_function.py:69-73 | when no presign fails, every attachment gets a link |
| ApiGetEmail.LinkPointsAtStoredAttachment | lambda/api_get_email_function.py:64 | a link's key is the key under which the attachment was stored |
| ApiGetEmail.Answer | lambda/api_get_email_function.py:104-108 | the reply holds the body, the summary and the links |
| ApiGetEmail.Request | lambda/api_get_email_function.py:84-86 | the address, the message id and the caller are read in that order, and the request fails with the first error |
| ApiGetEmail.Locate | lambda/api_get_email_function.py:84-92 | a failed read or lookup is an error, the caller is refused exactly when they do not own the address, and otherwise the record is found exactly when it exists |
| ApiGetEmail.Read | lambda/api_get_email_function.py:93-110 | a successful read holds the decoded object the record names and the stored summary, and needs an `is_read` attribute |
| ApiGetEmail.ReadReply | lambda/api_get_email_function.py:93-116 | 200 exactly when the read succeeds and an unread record's update is accepted; the body is the answer; otherwise 500 with the exception |
| ApiGetEmail.AfterRead | lambda/api_get_email_function.py:110-111 | `is_read` is set only on an unread record and only on a 200; a 500 changes nothing |
| ApiGetEmail.RepeatFetchWritesNothing | lambda/api_get_email_function.py:93-116 | after a successful read, reading again writes nothing and gives the same reply |
| ApiGetEmail.ReadRecord | lambda/api_get_email_function.py:93-116 | the reply is `ReadReply` and the new table is `AfterRead` of the found record |
| ApiGetEmail.LambdaHandler | lambda/api_get_email_function.py:77-132 | 500 with the exception when the request or a lookup fails, 401 exactly when the caller does not own the address, 404 exactly when the record is missing, and otherwise the reply and the table of `ReadRecord`; only that last case writes |
| DeleteEmail.DeleteEmailItem | lambda/delete_email_item_function.py:44-52 | the item is removed; a fault raises a string, which is a TypeError |
| DeleteEmail.LambdaHandler | lambda/delete_email_item_function.py:55-92 | 500, 401 and 404 as for reading change nothing; for a found record, 200 exactly when its object and its item are both deleted, the object is gone exactly when its delete went through, the item exactly on 200, and any other outcome is a 500 with the exception |
| DeleteEmail.DeleteKeepsAttachments | lambda/delete_email_item_function.py:69-71 | deleting a message's object keeps every attachment object of that message |
| DeleteAddress.DeleteOne | lambda/delete_address_function.py:72-74 | one iteration deletes the item's object and record, each failure logged and skipped |
| DeleteAddress.Step | lambda/delete_address_function.py:72-74 | one iteration raises exactly when the record does not name its object or has no string message id |
| DeleteAddress.Sweep | lambda/delete_address_function.py:72-74 | the loop raises exactly when some record cannot be deleted, and then with one of the errors an iteration raises |
| DeleteAddress.DeleteEach | lambda/delete_address_function.py:72-74 | the loop computes the specification sweep over the query result |
| DeleteAddress.FindEmails | lambda/delete_address_function.py:63-74 | a faulted query changes nothing; otherwise the complete partition is swept |
| DeleteAddress.StepOnlyDeletes | lambda/delete_address_function.py:72-74 | an iteration only removes entries: the item's own object and records of this address |
| DeleteAddress.SweepOnlyDeletes | lambda/delete_address_function.py:72-74 | the sweep only removes objects named by the items and records of this address; everything left is unchanged |
| DeleteAddress.SweepStops | lambda/delete_address_function.py:72-74 | after an error, later items are not visited |
| DeleteAddress.SweepDeletesAll | lambda/delete_address_function.py:72-74 | without faults every listed object and record is gone |
| DeleteAddress.NoRecordLeft | lambda/delete_address_function.py:63-79 | a fault-free sweep over a complete query answer leaves no record of the address |
| DeleteAddress.LambdaHandler | lambda/delete_address_function.py:82-97 | a malformed request or a refused lookup is a 500 that changes nothing; no reply exactly when the caller does not own the address, and then nothing changes; with access the records are swept exactly when the query is not refused, and the reply is 200 (with the address deleted unless that is refused) exactly when the sweep raises nothing, otherwise 500 with the address kept |
| EmailList.StrLeTotal | lambda/get_emails_list_function.py:32 | string order is total |
| EmailList.StrLeTrans | lambda/get_emails_list_function.py:32 | string order is transitive |
| EmailList.StrLe | lambda/get_emails_list_function.py:32 | Python's string `<=`: lexicographic by code point, a prefix first |
| EmailList.Ge | lambda/get_emails_list_function.py:32 | `>=` on two strings or on two numbers, booleans counting as 0 and 1 |
| EmailList.GeTotal | lambda/get_emails_list_function.py:32 | timestamps of one kind are totally ordered |
| EmailList.GeTrans | lambda/get_emails_list_function.py:32 | the timestamp order is transitive |
| EmailList.Insert | lambda/get_emails_list_function.py:32 | insertion adds exactly one item |
| EmailList.InsertPermutes | lambda/get_emails_list_function.py:32 | insertion adds exactly the new item |
| EmailList.Sort | lambda/get_emails_list_function.py:32 | sorting keeps the length |
| EmailList.SortPermutes | lambda/get_emails_list_function.py:32 | sorting is a permutation |
| EmailList.InsertDescending | lambda/get_emails_list_function.py:32 | insertion keeps a list newest-first |
| EmailList.SortDescending | lambda/get_emails_list_function.py:32 | the sorted list is newest-first |
| EmailList.TiesSnoc | lambda/get_emails_list_function.py:32 | the equal-timestamp items of a list grow by the new item when it ties |
| EmailList.NoTies | lambda/get_emails_list_function.py:32 | a list with no tie has no equal-timestamp items |
| EmailList.TiesCons | lambda/get_emails_list_function.py:32 | the equal-timestamp items of a list with a new head |
| EmailList.InsertTies | lambda/get_emails_list_function.py:32 | insertion places a tied item after the items it ties with |
| EmailList.DescendingTail | lambda/get_emails_list_function.py:32 | the tail of a newest-first list is newest-first |
| EmailList.InsertBehind | lambda/get_emails_list_function.py:32 | inserting behind a newer head keeps the tie order |
| EmailList.NewerTies | lambda/get_emails_list_function.py:32 | a tie older than the list's head has no equal-timestamp items in that list |
| EmailList.SortStable | lambda/get_emails_list_function.py:32 | `sorted(reverse=True)` is stable: items with equal timestamps keep their query order |
| EmailList.NewestFirst | lambda/get_emails_list_function.py:32 | a missing timestamp is a KeyError, and mixed timestamp kinds are a TypeError; otherwise every item is kept |
| EmailList.NewestFirstSorted | lambda/get_emails_list_function.py:32 | the result is a permutation, newest-first, with ties in query order |
| EmailList.GetEmails | lambda/get_emails_list_function.py:26-39 | refused access gives an empty list; granted access gives the sorted complete partition; a fault raises a string, which is a TypeError |
| EmailList.AsList | lambda/get_emails_list_function.py:52 | the reply body holds one dict per item, in order |
| EmailList.LambdaHandler | lambda/get_emails_list_function.py:42-55 | 500 with the exception on a malformed request or a refused lookup; 200 with an empty list exactly when access is refused; with access, the answer is the complete partition, 500 when the query is refused, and otherwise 200 with the sorted listing or 500 with the sorting error |
| PostAddresses.MatchesPattern | lambda/api_post_addresses_function.py:61-63 | the address regex as a predicate over its parts |
| PostAddresses.ValidateEmail | lambda/api_post_addresses_function.py:58-72 | valid exactly when the regex matches and the text after the last `@` is the configured domain; a non-string raises TypeError |
| PostAddresses.AcceptedIsLowerCase | lambda/api_post_addresses_function.py:62 | every accepted address is already lower-case, so `create_address` stores it unchanged |
| PostAddresses.AcceptedIsInDomain | lambda/api_post_addresses_function.py:62-67 | every accepted address is a dotted local part, `@`, then the configured domain |
| PostAddresses.SplitAppend | lambda/api_post_addresses_function.py:66 | appending a non-separator character only extends the last piece |
| PostAddresses.CreateAddress | lambda/api_post_addresses_function.py:43-55 | the item is stored under the lower-cased address; a fault raises a string, which is a TypeError |
| PostAddresses.NewAddress | lambda/api_post_addresses_function.py:46-50 | the item holds the address, the owner and the summary flag |
| PostAddresses.Requested | lambda/api_post_addresses_function.py:83-85 | the request is read from a string JSON body |
| PostAddresses.LambdaHandler | lambda/api_post_addresses_function.py:75-101 | each read error is a 500 with that error; 400 with the invalid message exactly when validation fails, 400 with the exists message exactly when a valid address is already present; 201 exactly when it is valid, new and the put succeeds, and only then the table changes |
| PulumiDeploy.SetNested | pulumi_deploy.py:27-33 | only the first key is touched at the top level, and intermediate levels become dicts |
| PulumiDeploy.SetNestedValue | pulumi_deploy.py:27-33 | the update succeeds exactly on a dict document, and fails otherwise with TypeError |
| PulumiDeploy.Applied | pulumi_deploy.py:43-44 | the updates applied in order, stopping at the first error |
| PulumiDeploy.SetThenGet | pulumi_deploy.py:27-33 | after the update, the key path reads back the value |
| PulumiDeploy.Intermediate | pulumi_deploy.py:29-32 | each level on the path is the old level with the rest of the path set |
| PulumiDeploy.ReplacedBelow | pulumi_deploy.py:30-31 | below a fresh level the path starts empty |
| PulumiDeploy.NotDictBelow | pulumi_deploy.py:30-31 | a non-dict on the path is replaced by an empty dict, and its old contents are lost |
| PulumiDeploy.FreshPathAlone | pulumi_deploy.py:27-33 | on an empty document only the first key appears |
| PulumiDeploy.OffPathUnchanged | pulumi_deploy.py:27-33 | a path that leaves the key path at some level reads the same value as before |
| PulumiDeploy.AppliedOk | pulumi_deploy.py:43-44 | the updates succeed exactly on a dict document (or no update), and the result is a dict |
| PulumiDeploy.LastUpdateWins | pulumi_deploy.py:43-44 | the last update's path reads back its value |
| PulumiDeploy.LaterUpdateElsewhere | pulumi_deploy.py:43-44 | a later update does not disturb a path it leaves |
| PulumiDeploy.ApplyUpdates | pulumi_deploy.py:43-44 | the loop computes the specification fold |
| PulumiDeploy.ErrorStops | pulumi_deploy.py:43-44 | after a failing update, later ones change nothing |
| PulumiDeploy.LoadDocument | pulumi_deploy.py:36-40 | a missing or falsy file gives an empty dict; otherwise the loaded value |
| PulumiDeploy.PulumiYaml | pulumi_deploy.py:26-48 | the written document is the loaded one with every update applied, and it fails on a non-dict file |
| PulumiDeploy.ProjectSettingsWritten | pulumi_deploy.py:18-23 | after the settings are applied the document has the project name, runtime name, virtualenv and description |
| PulumiDeploy.RuntimeKept | pulumi_deploy.py:43-44 | a later top-level key keeps the name and runtime entries |
| PulumiDeploy.TopLevelElsewhere | pulumi_deploy.py:43-44 | a later top-level key keeps every path under other keys |
| PulumiDeploy.RuntimeWritten | pulumi_deploy.py:19-21 | the first three settings are all in place |
| PulumiDeploy.NameWritten | pulumi_deploy.py:19-20 | the first two settings are both in place |
| PulumiDeploy.TwoWritten | pulumi_deploy.py:43-44 | two updates on different top-level keys both read back |
| PulumiDeploy.NestedWritten | pulumi_deploy.py:43-44 | a nested update reads back, and two paths it leaves are kept |
| PulumiDeploy.SplitRuntimeName | pulumi_deploy.py:20 | `runtime.name` is the path runtime, name |
| PulumiDeploy.SplitVirtualenv | pulumi_deploy.py:21 | `runtime.options.virtualenv` is a three-level path |
| PulumiDeploy.SplitPlain | pulumi_deploy.py:28 | a key without a dot is a one-level path |
| PulumiDeploy.SplitFirst | pulumi_deploy.py:28 | a dotted key path splits at its first dot |
| PulumiDeploy.Opening | pulumi_deploy.py:69 | the literal start of a match, `key: "` |
| PulumiDeploy.MatchEnd | pulumi_deploy.py:69 | a match at the start ends after the key, the opening quote and the closing quote |
| PulumiDeploy.ClosingQuoteFacts | pulumi_deploy.py:69 | the closing quote is the first `"` after the opening one |
| PulumiDeploy.MatchEndFacts | pulumi_deploy.py:69 | there is a match at the start exactly when the text opens with `key: "` and a later `"` exists; the quoted value holds no `"` |
| PulumiDeploy.Replacement | pulumi_deploy.py:71 | the replacement is `key: "value"` |
| PulumiDeploy.Substitute | pulumi_deploy.py:73 | `re.sub` scanning left to right: each match becomes the replacement and the scan continues after it |
| PulumiDeploy.NoMatchUnchanged | pulumi_deploy.py:73 | text without a match is left alone |
| PulumiDeploy.HeadKept | pulumi_deploy.py:73 | substitution keeps the text's first characters |
| PulumiDeploy.MatchHeadKept | pulumi_deploy.py:73 | a match keeps its `key: "` head |
| PulumiDeploy.ShortUnchanged | pulumi_deploy.py:73 | text too short for a match is left alone |
| PulumiDeploy.NoClosingQuote | pulumi_deploy.py:73 | text with no `"` after the head is left alone |
| PulumiDeploy.SubstituteIdempotent | pulumi_deploy.py:67-73 | configuring twice equals configuring once, for a value without `"` |
| PulumiDeploy.NoNewMatch | pulumi_deploy.py:73 | substituting later text never creates a match at the start |
| PulumiDeploy.OpeningStillMissing | pulumi_deploy.py:73 | substitution never creates the opening at the start |
| PulumiDeploy.QuoteStillMissing | pulumi_deploy.py:73 | an opening with no closing quote leaves the rest unchanged |
| PulumiDeploy.ReplacementMatches | pulumi_deploy.py:69-71 | the replacement is itself a match of the pattern, ending where it ends |
| PulumiDeploy.NoWordBoundary | pulumi_deploy.py:69 | the pattern has no word boundary: `region` also rewrites a longer key ending in `region` |
| PulumiDeploy.CopiedPrefix | pulumi_deploy.py:73 | a prefix in which the key cannot start is copied unchanged |
| PulumiDeploy.HeadCopied | pulumi_deploy.py:73 | a first character that cannot start the key is copied unchanged |
| PulumiDeploy.Replacements | pulumi_deploy.py:59-65 | a missing output is a KeyError; otherwise the five keys in order, and the API URL gains a trailing slash |
| PulumiDeploy.Configured | pulumi_deploy.py:67-73 | the substitutions applied one key after another |
| PulumiDeploy.SubstituteAll | pulumi_deploy.py:67-73 | the loop computes the specification fold of the substitutions |
| PulumiDeploy.FrontendEnvConfig | pulumi_deploy.py:54-77 | the new file is the old content with all five substitutions, and fails exactly when an output is missing |
| PulumiDeploy.UntouchedWithoutKeys | pulumi_deploy.py:67-73 | a file with none of the keys is written back unchanged |
| Tagging.TransformArgs.constructor | shared/aws/tagging/__init__.py:31 | the transformation's resource properties and options |
| Tagging.Merged | shared/aws/tagging/__init__.py:34 | `{**(tags or {}), **auto}`: auto tags override, other existing tags are kept, and a truthy non-dict is a TypeError |
| Tagging.NoTagsGetsAuto | shared/aws/tagging/__init__.py:34 | an untagged resource gets exactly the auto tags |
| Tagging.AutoTag | shared/aws/tagging/__init__.py:31-35 | only resources with a `tags` property are changed; their tags become the merge; a missing `tags` key is a KeyError |
| Tagging.StandardTags | shared/aws/tagging/__init__.py:18-27 | the five standard tags with `iac-system` set to pulumi |
| Tagging.StandardTagsApplied | shared/aws/tagging/__init__.py:18-35 | every tagged resource carries `iac-system: pulumi` and its environment |

## Left out

- File, YAML, subprocess and HTTP I/O: the YAML document, the file text and the Pulumi outputs are parameters. The `argparse` driver, `build_frontend`, the S3 sync and the CloudFront invalidation are not part of this model.
- The MIME parser, `get_body`, `as_bytes`, Bedrock `invoke_model` (one field for the pipeline stage's prompt and one for the older handlers' prompt), UTF-8 decoding, presigning and f-string formatting are uninterpreted functions of `Foreign.Env`. `walk()` is a given part list.
- `check_summarize` is not defined in the repository's `util.py`. It is a parameter: a function of the addresses table and the destination.
- Logging, X-Ray, environment variables, the Lambda context and the step-function retry policy are not modelled.
- Floating point: `int(4096 * 3.25 - 1000)` is exact, so `SummarizeStage.CharacterLimit` uses integers.
- DynamoDB pagination (queries over 1 MB) is not modelled. A query returns the whole partition, in an order the model leaves open.
- Concurrency between handlers and eventual consistency are not modelled. Each handler runs alone on the store.
- PulumiDeploy.SetNestedValue: `set_nested_value` changes the loaded dict in place, and the model rebuilds the path instead. The two agree while the document is a tree. A YAML file can share one mapping between two keys with an anchor and an alias (`a: &x {k: 1}` then `b: *x`). Setting `a.k` in place then changes `b.k` too, while the model keeps `b` as it was.
- PulumiDeploy.Substitute: a backslash or a group reference inside a replacement value is kept literally. `re.sub` would interpret it.
- Tagging: `register_stack_transformation`, `pulumi.get_project`, `pulumi.get_stack` and `get_caller_file` are parameters.
- The pass-through handlers `get_addresses_function.py` and `sns_start_incoming_mail_sm_function.py`, and the frontend, are not part of this model.
- `lambda/post_addresses_function.py` and `lambda/incoming_mail_check_function.py` differ from their siblings only in variable names and log text. They are modelled by the same members.
- AdmissionFilter.AddressExists: a missing `address` attribute is shown to be impossible only for a well-keyed store (`Valid()`).
- ApiGetEmail.PresignedUrls: a presign ClientError drops that attachment's link. Which presigns fail is the foreign function's choice.
- Values.Lower: lower-cases ASCII letters only. Python's `str.lower` also maps other characters, for example U+212A KELVIN SIGN to `k` and `İ` (U+0130) to two code points. An address written with such characters is looked up and stored under a different key by the model than by the source.
- AttachmentStage.LambdaHandler: a `destination` or `messageId` that is present but not a string fails with TypeError before any upload. Python formats such a value into the attachment key, makes the uploads and the rewrite, and fails only at `update_item`. The store stage always records these fields as strings.
- EmailList.NewestFirst: only numbers and strings are ordered. Timestamps of any other kind are a TypeError, and so is a mixture.

## Findings

| source | as written | input that shows it | evidently intended | confidence | as-written member | corrected member |
|---|---|---|---|---|---|---|
| lambda/util.py:34 | every handler's `except` branch calls `create_response(500, body=e)` with `jsonify_body` on, and `json.dumps` of an exception object raises TypeError | any 500 path, e.g. `delete_email_item` raising on a DynamoDB fault | a 500 reply whose body is the exception's message | not executed | Util.ErrorReplyRaises | Util.CreateErrorSafeResponse |
