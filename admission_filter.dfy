/**
  The receipt-rule filter of the mail service
  (lambda/incoming_email_check_function.py, and its copy
  lambda/incoming_mail_check_function.py, which differs only in the
  table's environment variable and the log level): let a message through
  iff its first recipient is a registered address.
 */
module AdmissionFilter {
  import opened Values
  import opened Cloud
  import opened Ses

  /** What the rule set is told to do with the message. */
  datatype Disposition = Continue | StopRuleSet {
    /** The string the handler answers under "disposition". */
    function Name(): string {
      match this
      case Continue => "CONTINUE"
      case StopRuleSet => "STOP_RULE_SET"
    }
  }

  /**
    `address_exists`: one lookup of the lower-cased address. A ClientError
    counts as absent; an item whose `address` attribute is missing would
    raise KeyError, which no item of a well-formed table can do.
   */
  function AddressExists(store: Store, address: string): (r: Result<bool>)
    reads store`emails, store`addresses
    ensures var a := Lower(address);
      r == Ok(true) <==>
        Call.GetAddress(a) !in store.faults && a in store.addresses
        && "address" in store.addresses[a] && Truthy(store.addresses[a]["address"])
    ensures r.Err? ==> r.error == KeyError
    ensures store.Valid() ==> r.Ok?
  {
    var a := Lower(address);
    match store.GetAddress(a)
    case Err(_) => Ok(false)
    case Ok(None) => Ok(false)
    case Ok(Some(item)) =>
      if "address" !in item then Err(KeyError)
      else Ok(Truthy(item["address"]))
  }

  /**
    `lambda_handler`: the loop over the records returns on its first
    iteration, so only the first recipient of the first record is looked
    at; with no record the handler falls off its end and answers None.
   */
  function LambdaHandler(store: Store, records: seq<Mail>): (r: Result<Option<Disposition>>)
    reads store`emails, store`addresses
    ensures records == [] ==> r == Ok(None)
    ensures records != [] && records[0].destination == [] ==> r == Err(IndexError)
    ensures records != [] && records[0].destination != [] && store.Valid() ==>
      r.Ok? && r.value.Some? &&
      (r.value.value == Continue <==> AddressExists(store, records[0].destination[0]) == Ok(true))
  {
    if records == [] then Ok(None)
    else if records[0].destination == [] then Err(IndexError)
    else match AddressExists(store, records[0].destination[0])
      case Err(e) => Err(e)
      case Ok(exists_) => Ok(Some(if exists_ then Continue else StopRuleSet))
  }

  /** The lookup ignores case: an address and its lower-cased form are admitted alike. */
  lemma AddressExistsIgnoresCase(store: Store, address: string)
    ensures AddressExists(store, address) == AddressExists(store, Lower(address))
  {
    LowerIdempotent(address);
  }

  /** Later records and later recipients never change the answer. */
  lemma OnlyFirstRecipientMatters(store: Store, records: seq<Mail>, others: seq<Mail>, more: seq<string>)
    requires records != [] && records[0].destination != []
    ensures var first := records[0].(destination := [records[0].destination[0]] + more);
      LambdaHandler(store, records) == LambdaHandler(store, [first] + others)
  {
    var first := records[0].(destination := [records[0].destination[0]] + more);
    assert ([first] + others)[0] == first;
  }
}
