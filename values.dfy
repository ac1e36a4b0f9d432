/**
  Python-level values shared by every handler: the dynamic attribute values
  that the key-value tables and the request/event dictionaries hold, the
  outcome of an operation that may raise, and the few string operations
  (ASCII lower-casing, substring search) the handlers rely on.
 */
module Values {

  datatype Option<+T> = None | Some(value: T)

  /** The exception classes the handlers can observe. */
  datatype Error =
    | ClientError      // botocore ClientError: the service rejected the call
    | KeyError         // a missing dictionary key
    | TypeError        // wrong type, including `raise <str>` and json.dumps(exception)
    | IndexError       // indexing an empty list
    | ParamError       // botocore parameter validation (e.g. Body=None)
    | DecodeError      // bytes that are not UTF-8
    | ValueError       // text that is not JSON
    | AttributeError   // a method called on a value of the wrong type (e.g. `.get` on a list)

  datatype Result<+T> = Ok(value: T) | Err(error: Error)

  /** A JSON/DynamoDB-like value, as a Python dict holds it. */
  datatype Value =
    | Null
    | Bool(b: bool)
    | Num(n: int)
    | Str(s: string)
    | List(elems: seq<Value>)
    | Dict(fields: map<string, Value>)

  /** A table item or an event: a dictionary from attribute names to values. */
  type Item = map<string, Value>

  /** Python truthiness. */
  predicate Truthy(v: Value) {
    match v
    case Null => false
    case Bool(b) => b
    case Num(n) => n != 0
    case Str(s) => s != []
    case List(e) => e != []
    case Dict(m) => m != map[]
  }

  /** Python's `v == True`: also holds of the number 1, since bool is a subclass of int. */
  predicate EqualsTrue(v: Value) {
    v == Bool(true) || v == Num(1)
  }

  /** `d.get(name, default)` */
  function Get(d: Item, name: string, default: Value): (r: Value)
    ensures name in d ==> r == d[name]
    ensures name !in d ==> r == default
  {
    if name in d then d[name] else default
  }

  /** `d[name]` where the value must be a string (a boto3 key or bucket parameter). */
  function StrField(d: Item, name: string): (r: Result<string>)
    ensures r.Ok? <==> name in d && d[name].Str?
    ensures r.Ok? ==> d[name] == Str(r.value)
  {
    if name !in d then Err(KeyError)
    else if !d[name].Str? then Err(TypeError)
    else Ok(d[name].s)
  }

  /**
    `d[k1][k2]...[kn]` on nested dictionaries: KeyError for a missing key
    at a dictionary level, TypeError when a level is not a dictionary.
   */
  function Path(v: Value, keys: seq<string>): (r: Result<Value>)
    ensures keys == [] ==> r == Ok(v)
    ensures r.Ok? ==> DictsAlong(v, keys)
    ensures r.Err? ==> (r.error == KeyError <==> DictsAlong(v, keys))
    ensures r.Err? ==> (r.error == TypeError <==> !DictsAlong(v, keys))
    decreases |keys|
  {
    if keys == [] then Ok(v)
    else if !v.Dict? then Err(TypeError)
    else if keys[0] !in v.fields then Err(KeyError)
    else Path(v.fields[keys[0]], keys[1..])
  }

  /** Every level a lookup along `keys` reaches before it stops is a dictionary. */
  predicate DictsAlong(v: Value, keys: seq<string>)
    decreases |keys|
  {
    keys == [] || (v.Dict? && (keys[0] in v.fields ==> DictsAlong(v.fields[keys[0]], keys[1..])))
  }

  /** A lookup along a longer path is the lookup along its first part, continued. */
  lemma {:induction false} PathConcat(v: Value, a: seq<string>, b: seq<string>)
    ensures Path(v, a + b) == match Path(v, a) case Err(e) => Err(e) case Ok(w) => Path(w, b)
    decreases |a|
  {
    if a != [] {
      assert (a + b)[0] == a[0] && (a + b)[1..] == a[1..] + b;
      if v.Dict? && a[0] in v.fields {
        PathConcat(v.fields[a[0]], a[1..], b);
      }
    } else {
      assert a + b == b;
    }
  }

  /** ASCII lower-casing of one character (str.lower on the ASCII range). */
  function LowerChar(c: char): (r: char)
    ensures 'A' <= c <= 'Z' ==> 'a' <= r <= 'z'
    ensures !('A' <= c <= 'Z') ==> r == c
  {
    if 'A' <= c <= 'Z' then (c as int + 32) as char else c
  }

  function Lower(s: string): (r: string)
    ensures |r| == |s|
    ensures forall i :: 0 <= i < |s| ==> r[i] == LowerChar(s[i])
  {
    if s == [] then [] else [LowerChar(s[0])] + Lower(s[1..])
  }

  predicate IsLowerChar(c: char) {
    !('A' <= c <= 'Z')
  }

  /** Lower-casing is the identity exactly on strings without upper-case letters. */
  lemma LowerIdentity(s: string)
    ensures Lower(s) == s <==> forall i :: 0 <= i < |s| ==> IsLowerChar(s[i])
  {
    if forall i :: 0 <= i < |s| ==> IsLowerChar(s[i]) {
      assert forall i :: 0 <= i < |s| ==> Lower(s)[i] == s[i];
    } else {
      var i :| 0 <= i < |s| && !IsLowerChar(s[i]);
      assert Lower(s)[i] != s[i];
    }
  }

  /** Lower-casing twice is lower-casing once. */
  lemma LowerIdempotent(s: string)
    ensures Lower(Lower(s)) == Lower(s)
  {
    assert forall i :: 0 <= i < |s| ==> Lower(Lower(s))[i] == Lower(s)[i];
  }

  /** `t in s` for strings: t occurs in s at some position. */
  ghost predicate IsSubstring(t: string, s: string) {
    exists i :: OccursAt(t, s, i)
  }

  /** t occurs in s starting at index i. */
  ghost predicate OccursAt(t: string, s: string, i: int) {
    0 <= i <= |s| - |t| && s[i..i + |t|] == t
  }

  /** `sub in s`, computed by scanning the start positions left to right. */
  function Contains(s: string, sub: string): (r: bool)
    ensures r <==> IsSubstring(sub, s)
    decreases |s|
  {
    if |sub| > |s| then false
    else if s[..|sub|] == sub then
      assert OccursAt(sub, s, 0);
      true
    else
      var r := Contains(s[1..], sub);
      assert IsSubstring(sub, s[1..]) ==> IsSubstring(sub, s) by {
        if IsSubstring(sub, s[1..]) {
          var i :| OccursAt(sub, s[1..], i);
          assert s[i + 1..i + 1 + |sub|] == s[1..][i..i + |sub|];
          assert OccursAt(sub, s, i + 1);
        }
      }
      assert IsSubstring(sub, s) ==> IsSubstring(sub, s[1..]) by {
        if IsSubstring(sub, s) {
          var i :| OccursAt(sub, s, i);
          assert i != 0;
          assert s[1..][i - 1..i - 1 + |sub|] == s[i..i + |sub|];
          assert OccursAt(sub, s[1..], i - 1);
        }
      }
      r
  }
}
