/**
  Listing the messages of one address (lambda/get_emails_list_function.py):
  after the ownership check, the address's records, newest first by their
  `timestamp` attribute.
 */
module EmailList {
  import opened Values
  import opened Cloud
  import Util

  // ---- Python's ordering of timestamps ----

  /** Python's `a <= b` on strings: lexicographic by code point. */
  predicate StrLe(a: string, b: string)
    decreases |a|
  {
    if a == [] then true
    else if b == [] then false
    else if a[0] != b[0] then a[0] < b[0]
    else StrLe(a[1..], b[1..])
  }

  lemma {:induction false} StrLeTotal(a: string, b: string)
    ensures StrLe(a, b) || StrLe(b, a)
    decreases |a|
  {
    if a != [] && b != [] && a[0] == b[0] {
      StrLeTotal(a[1..], b[1..]);
    }
  }

  lemma {:induction false} StrLeTrans(a: string, b: string, c: string)
    requires StrLe(a, b) && StrLe(b, c)
    ensures StrLe(a, c)
    decreases |a|
  {
    if a != [] && b != [] && c != [] && a[0] == b[0] && b[0] == c[0] {
      StrLeTrans(a[1..], b[1..], c[1..]);
    }
  }

  /** Booleans compare as the integers 0 and 1. */
  predicate Numeric(v: Value) {
    v.Num? || v.Bool?
  }

  function Number(v: Value): int
    requires Numeric(v)
  {
    if v.Num? then v.n else if v.b then 1 else 0
  }

  /** Two timestamps Python can compare. */
  predicate SameKind(a: Value, b: Value) {
    (a.Str? && b.Str?) || (Numeric(a) && Numeric(b))
  }

  /** `a >= b` for two comparable timestamps. */
  predicate Ge(a: Value, b: Value) {
    if a.Str? && b.Str? then StrLe(b.s, a.s)
    else Numeric(a) && Numeric(b) && Number(a) >= Number(b)
  }

  lemma GeTotal(a: Value, b: Value)
    requires SameKind(a, b)
    ensures Ge(a, b) || Ge(b, a)
  {
    if a.Str? && b.Str? {
      StrLeTotal(a.s, b.s);
    }
  }

  lemma GeTrans(a: Value, b: Value, c: Value)
    requires Ge(a, b) && Ge(b, c)
    ensures Ge(a, c)
  {
    if a.Str? && b.Str? && c.Str? {
      StrLeTrans(c.s, b.s, a.s);
    }
  }

  // ---- `sorted(items, key=lambda x: x["timestamp"], reverse=True)` ----

  predicate HasTimestamps(items: seq<Item>) {
    forall i :: 0 <= i < |items| ==> "timestamp" in items[i]
  }

  /** Every pair of timestamps can be compared. */
  predicate Uniform(items: seq<Item>)
    requires HasTimestamps(items)
  {
    forall i, j :: 0 <= i < |items| && 0 <= j < |items| ==> SameKind(items[i]["timestamp"], items[j]["timestamp"])
  }

  predicate Descending(items: seq<Item>)
    requires HasTimestamps(items)
  {
    forall i, j :: 0 <= i < j < |items| ==> Ge(items[i]["timestamp"], items[j]["timestamp"])
  }

  /** Insert x after every element at least as new, so earlier equals stay ahead of it. */
  function Insert(x: Item, s: seq<Item>): (r: seq<Item>)
    requires "timestamp" in x && HasTimestamps(s)
    ensures HasTimestamps(r) && |r| == |s| + 1
  {
    if s == [] then [x]
    else if Ge(s[0]["timestamp"], x["timestamp"]) then [s[0]] + Insert(x, s[1..])
    else [x] + s
  }

  lemma {:induction false} InsertPermutes(x: Item, s: seq<Item>)
    requires "timestamp" in x && HasTimestamps(s)
    ensures multiset(Insert(x, s)) == multiset(s) + multiset{x}
  {
    if s != [] {
      assert s == [s[0]] + s[1..];
      if Ge(s[0]["timestamp"], x["timestamp"]) {
        InsertPermutes(x, s[1..]);
      }
    }
  }

  /** The sort only reorders: the result is a permutation of its input. */
  lemma {:induction false} SortPermutes(s: seq<Item>)
    requires HasTimestamps(s)
    ensures multiset(Sort(s)) == multiset(s)
  {
    if s != [] {
      assert s == s[..|s| - 1] + [s[|s| - 1]];
      SortPermutes(s[..|s| - 1]);
      InsertPermutes(s[|s| - 1], Sort(s[..|s| - 1]));
    }
  }

  /** A stable sort, newest first: each item in turn inserted into the sorted prefix. */
  function Sort(s: seq<Item>): (r: seq<Item>)
    requires HasTimestamps(s)
    ensures HasTimestamps(r)
    ensures |r| == |s|
  {
    if s == [] then []
    else Insert(s[|s| - 1], Sort(s[..|s| - 1]))
  }

  lemma {:induction false} InsertDescending(x: Item, s: seq<Item>)
    requires "timestamp" in x && HasTimestamps(s)
    requires forall i :: 0 <= i < |s| ==> SameKind(x["timestamp"], s[i]["timestamp"])
    requires Descending(s)
    ensures Descending(Insert(x, s))
  {
    if s == [] {
    } else if Ge(s[0]["timestamp"], x["timestamp"]) {
      InsertDescending(x, s[1..]);
      InsertPermutes(x, s[1..]);
      var tail := Insert(x, s[1..]);
      forall j | 0 <= j < |tail|
        ensures Ge(s[0]["timestamp"], tail[j]["timestamp"])
      {
        assert tail[j] in multiset(tail);
        if tail[j] != x {
          assert tail[j] in multiset(s[1..]);
          var k :| 0 <= k < |s[1..]| && s[1..][k] == tail[j];
          assert s[k + 1] == tail[j];
        }
      }
    } else {
      GeTotal(x["timestamp"], s[0]["timestamp"]);
      forall j | 0 <= j < |s|
        ensures Ge(x["timestamp"], s[j]["timestamp"])
      {
        if j > 0 {
          GeTrans(x["timestamp"], s[0]["timestamp"], s[j]["timestamp"]);
        }
      }
    }
  }

  lemma {:induction false} SortDescending(s: seq<Item>)
    requires HasTimestamps(s) && Uniform(s)
    ensures Descending(Sort(s))
  {
    if s != [] {
      var init := s[..|s| - 1];
      var last := s[|s| - 1];
      assert Uniform(init) by {
        forall i, j | 0 <= i < |init| && 0 <= j < |init|
          ensures SameKind(init[i]["timestamp"], init[j]["timestamp"])
        {
          assert init[i] == s[i] && init[j] == s[j];
        }
      }
      SortDescending(init);
      SortPermutes(init);
      var sorted := Sort(init);
      forall i | 0 <= i < |sorted|
        ensures SameKind(last["timestamp"], sorted[i]["timestamp"])
      {
        assert sorted[i] in multiset(init);
        var k :| 0 <= k < |init| && init[k] == sorted[i];
        assert s[k] == sorted[i];
      }
      InsertDescending(last, sorted);
    }
  }

  /** The items whose timestamp equals t, in order. */
  function Ties(s: seq<Item>, t: Value): (r: seq<Item>)
    requires HasTimestamps(s)
  {
    if s == [] then []
    else (if Tie(s[0], t) then [s[0]] else []) + Ties(s[1..], t)
  }

  lemma {:induction false} TiesSnoc(s: seq<Item>, x: Item, t: Value)
    requires HasTimestamps(s) && "timestamp" in x
    ensures HasTimestamps(s + [x])
    ensures Ties(s + [x], t) == Ties(s, t) + (if Tie(x, t) then [x] else [])
  {
    if s != [] {
      assert (s + [x])[1..] == s[1..] + [x];
      TiesSnoc(s[1..], x, t);
    }
  }

  lemma {:induction false} NoTies(s: seq<Item>, t: Value)
    requires HasTimestamps(s)
    requires forall j :: 0 <= j < |s| ==> !Tie(s[j], t)
    ensures Ties(s, t) == []
  {
    if s != [] {
      NoTies(s[1..], t);
    }
  }

  /** x's timestamp equals t. */
  predicate Tie(x: Item, t: Value)
    requires "timestamp" in x
  {
    Ge(x["timestamp"], t) && Ge(t, x["timestamp"])
  }

  lemma TiesCons(x: Item, s: seq<Item>, t: Value)
    requires "timestamp" in x && HasTimestamps(s)
    ensures HasTimestamps([x] + s)
    ensures Ties([x] + s, t) == (if Tie(x, t) then [x] else []) + Ties(s, t)
  {
    assert ([x] + s)[0] == x && ([x] + s)[1..] == s;
  }

  lemma {:induction false} InsertTies(x: Item, s: seq<Item>, t: Value)
    requires "timestamp" in x && HasTimestamps(s) && Descending(s)
    ensures Ties(Insert(x, s), t) == Ties(s, t) + (if Tie(x, t) then [x] else [])
  {
    if s == [] {
      TiesCons(x, [], t);
    } else if Ge(s[0]["timestamp"], x["timestamp"]) {
      DescendingTail(s);
      InsertTies(x, s[1..], t);
      InsertBehind(x, s, t);
    } else {
      assert Insert(x, s) == [x] + s;
      TiesCons(x, s, t);
      if Tie(x, t) {
        NewerTies(x, s, t);
      }
    }
  }

  lemma DescendingTail(s: seq<Item>)
    requires HasTimestamps(s) && Descending(s) && s != []
    ensures HasTimestamps(s[1..]) && Descending(s[1..])
  {
  }

  /** The step of InsertTies where x goes behind the head. */
  lemma InsertBehind(x: Item, s: seq<Item>, t: Value)
    requires "timestamp" in x && HasTimestamps(s) && s != []
    requires Ge(s[0]["timestamp"], x["timestamp"])
    requires Ties(Insert(x, s[1..]), t) == Ties(s[1..], t) + (if Tie(x, t) then [x] else [])
    ensures Ties(Insert(x, s), t) == Ties(s, t) + (if Tie(x, t) then [x] else [])
  {
    var tail := Insert(x, s[1..]);
    var h := if Tie(s[0], t) then [s[0]] else [];
    var more := if Tie(x, t) then [x] else [];
    var rest := Ties(s[1..], t);
    calc {
      Ties(Insert(x, s), t);
      { assert Insert(x, s) == [s[0]] + tail; TiesCons(s[0], tail, t); }
      h + Ties(tail, t);
      h + (rest + more);
      { SeqAssoc(h, rest, more); }
      (h + rest) + more;
      { TiesCons(s[0], s[1..], t); assert [s[0]] + s[1..] == s; }
      Ties(s, t) + more;
    }
  }

  lemma SeqAssoc(a: seq<Item>, b: seq<Item>, c: seq<Item>)
    ensures a + (b + c) == (a + b) + c
  {
  }

  /** When x goes in front, nothing after it has x's timestamp. */
  lemma NewerTies(x: Item, s: seq<Item>, t: Value)
    requires "timestamp" in x && HasTimestamps(s) && Descending(s)
    requires s != [] && !Ge(s[0]["timestamp"], x["timestamp"]) && Tie(x, t)
    ensures Ties(s, t) == []
  {
    forall j | 0 <= j < |s|
      ensures !Tie(s[j], t)
    {
      if Ge(s[j]["timestamp"], t) {
        GeTrans(s[j]["timestamp"], t, x["timestamp"]);
        if j > 0 {
          GeTrans(s[0]["timestamp"], s[j]["timestamp"], x["timestamp"]);
        }
      }
    }
    NoTies(s, t);
  }

  /** Stability: the items with any one timestamp keep their relative order. */
  lemma {:induction false} SortStable(s: seq<Item>, t: Value)
    requires HasTimestamps(s) && Uniform(s)
    ensures Ties(Sort(s), t) == Ties(s, t)
  {
    if s != [] {
      var init := s[..|s| - 1];
      var last := s[|s| - 1];
      assert Uniform(init) by {
        forall i, j | 0 <= i < |init| && 0 <= j < |init|
          ensures SameKind(init[i]["timestamp"], init[j]["timestamp"])
        {
          assert init[i] == s[i] && init[j] == s[j];
        }
      }
      SortStable(init, t);
      SortDescending(init);
      InsertTies(last, Sort(init), t);
      assert s == init + [last];
      TiesSnoc(init, last, t);
    }
  }

  /**
    The sorted listing. Every key is read first, so a record without a
    timestamp raises KeyError; two timestamps Python cannot compare raise
    TypeError (a single item is never compared).
   */
  function NewestFirst(items: seq<Item>): (r: Result<seq<Item>>)
    ensures r.Err? <==> !HasTimestamps(items) || (|items| >= 2 && !Uniform(items))
    ensures r.Err? ==> r.error == (if HasTimestamps(items) then TypeError else KeyError)
    ensures r.Ok? ==> HasTimestamps(r.value) && |r.value| == |items|
  {
    if !HasTimestamps(items) then Err(KeyError)
    else if |items| >= 2 && !Uniform(items) then Err(TypeError)
    else Ok(Sort(items))
  }

  /** A successful listing is newest first, a permutation of the records, and stable. */
  lemma NewestFirstSorted(items: seq<Item>)
    requires NewestFirst(items).Ok?
    ensures var r := NewestFirst(items).value;
      && multiset(r) == multiset(items)
      && Descending(r)
      && forall t :: Ties(r, t) == Ties(items, t)
  {
    SortPermutes(items);
    if |items| >= 2 {
      SortDescending(items);
      forall t
        ensures Ties(Sort(items), t) == Ties(items, t)
      {
        SortStable(items, t);
      }
    } else if |items| == 1 {
      assert Sort(items) == Insert(items[0], []);
    }
  }

  // ---- the handler ----

  /**
    `get_emails`: without access the answer is [] and the records are not
    read; with access, the address's records newest first. A refused
    lookup or query is re-raised as `raise <str>`, a TypeError.
   */
  method GetEmails(store: Store, d: string, userSub: Value) returns (r: Result<seq<Item>>, ghost queried: seq<Item>)
    requires store.Valid()
    ensures var access := Util.CheckAccess(store, userSub, d, false);
      && (access.Err? ==> r == Err(TypeError))
      && (access == Ok(Util.Decision(false)) ==> r == Ok([]))
      && (access == Ok(Util.Decision(true)) && Call.QueryEmails(d) in store.faults ==> r == Err(TypeError))
      && (access == Ok(Util.Decision(true)) && Call.QueryEmails(d) !in store.faults ==>
            store.QueryAnswer(d, queried) && r == NewestFirst(queried))
  {
    queried := [];
    var access := Util.CheckAccess(store, userSub, d, false);
    if access.Err? { return Err(TypeError), queried; }
    if !access.value.granted { return Ok([]), queried; }
    var found := store.QueryEmails(d);
    if found.Err? { return Err(TypeError), queried; }
    queried := found.value;
    r := NewestFirst(found.value);
  }

  /** The listing as the JSON list the handler answers. */
  function AsList(items: seq<Item>): (r: Value)
    ensures r.List? && |r.elems| == |items|
    ensures forall i :: 0 <= i < |items| ==> r.elems[i] == Dict(items[i])
  {
    List(seq(|items|, i requires 0 <= i < |items| => Dict(items[i])))
  }

  /**
    `lambda_handler`: 200 with the listing (an empty one without access),
    500 with whatever was raised.
   */
  method LambdaHandler(store: Store, event: Value) returns (r: Util.Reply, ghost queried: seq<Item>)
    requires store.Valid()
    ensures r.status in {200, 500}
    ensures r.status == 500 ==> r.body.Exc?
    ensures var request := Util.AddressRequest(event);
      request.Err? ==> r == Util.Reply(500, Util.Exc(request.error))
    ensures var request := Util.AddressRequest(event);
      request.Ok? ==>
        var (d, userSub) := request.value;
        var access := Util.CheckAccess(store, userSub, d, false);
        && (access.Err? ==> r == Util.Reply(500, Util.Exc(TypeError)))
        && (access == Ok(Util.Decision(false)) ==> r == Util.Reply(200, Util.Val(List([]))))
        && (access == Ok(Util.Decision(true)) && Call.QueryEmails(d) in store.faults ==>
              r == Util.Reply(500, Util.Exc(TypeError)))
        && (access == Ok(Util.Decision(true)) && Call.QueryEmails(d) !in store.faults ==>
              && store.QueryAnswer(d, queried)
              && var listing := NewestFirst(queried);
              && (listing.Ok? ==> r == Util.Reply(200, Util.Val(AsList(listing.value))))
              && (listing.Err? ==> r == Util.Reply(500, Util.Exc(listing.error))))
  {
    queried := [];
    var d := Util.PathParameter(event, "addressId");
    if d.Err? { return Util.Reply(500, Util.Exc(d.error)), queried; }
    var userSub := Util.UserSub(event);
    if userSub.Err? { return Util.Reply(500, Util.Exc(userSub.error)), queried; }
    var items;
    items, queried := GetEmails(store, d.value, userSub.value);
    if items.Err? { return Util.Reply(500, Util.Exc(items.error)), queried; }
    r := Util.Reply(200, Util.Val(AsList(items.value)));
  }
}
