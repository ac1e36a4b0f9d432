/**
  The collaborators the handlers call but whose code is not part of this
  model, passed to the handlers as plain functions: the MIME parser and
  serialiser of Python's email package, the Bedrock text model, UTF-8
  decoding, pre-signed URL generation, str() formatting and
  `check_summarize` (imported from util but not defined there).
 */
module Foreign {
  import opened Values
  import opened Cloud

  /**
    One part of a parsed MIME document, as `walk()` yields it. `filename`
    is what `get_filename()` answers, `payload` what
    `get_payload(decode=True)` answers (None for a multipart container or
    a cleared payload). Header names are canonical (the parser's lookup
    is case-insensitive).
   */
  datatype Part = Part(
    headers: map<string, string>,
    contentType: string,
    filename: Option<string>,
    payload: Option<Bytes>)

  /** A parsed document: its parts in `walk()` order, the root part first. */
  datatype Document = Document(parts: seq<Part>)

  /** The `preferencelist` handed to `get_body`. */
  datatype Preference = PlainThenHtml | PlainOnly

  datatype Env = Env(
    parse: Bytes -> Document,                       // BytesParser(policy=default).parse
    serialize: Document -> Bytes,                   // Message.as_bytes
    body: (Document, Preference) -> Option<string>, // get_body(...).get_content(); None when it raises
    summarize: string -> Option<string>,            // the pipeline stage's Bedrock call; None when it fails
    legacySummarize: string -> Option<string>,      // the two older handlers' Bedrock call: another prompt and model
    decodeUtf8: Bytes -> Option<string>,            // bytes.decode("utf-8")
    presign: BlobKey -> Option<string>,             // generate_presigned_url; None on ClientError
    checkSummarize: (map<string, Item>, string) -> bool,
    format: Value -> string)                        // str(value) inside an f-string
}

/** The receipt notification the mail service hands to the pipeline. */
module Ses {
  import opened Values

  datatype Mail = Mail(
    destination: seq<string>,
    messageId: string,
    timestamp: Value,
    source: Value,
    commonHeaders: Value)

  /** Where the receiving rule dropped the raw message. */
  datatype Receipt = Receipt(bucketName: string, objectKey: string)

  datatype Notification = Notification(mail: Mail, receipt: Receipt)
}
