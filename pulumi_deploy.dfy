/**
  The two pieces of text and document handling in the deployment script
  (pulumi_deploy.py): `pulumi_yaml`, which writes dotted-path settings into
  the project's YAML document, and the substitution loop of
  `frontend_env_config`, which rewrites quoted values in the frontend's
  configuration source. The document is a Value as `yaml.safe_load` gives
  it; reading and writing the files is left to the caller.
 */
module PulumiDeploy {
  import opened Values
  import opened Text

  // ---------------------------------------------------------------------
  // pulumi_yaml
  // ---------------------------------------------------------------------

  /**
    `set_nested_value` on the dictionary d for the path keys: every key but
    the last descends, first replacing a missing or non-dictionary value by
    an empty dictionary; the last key is then bound to v.
   */
  function SetNested(d: map<string, Value>, keys: seq<string>, v: Value): (r: map<string, Value>)
    requires |keys| >= 1
    ensures r.Keys == d.Keys + {keys[0]}
    ensures forall k :: k in d && k != keys[0] ==> r[k] == d[k]
    ensures |keys| > 1 ==> r[keys[0]].Dict?
    decreases |keys|
  {
    if |keys| == 1 then d[keys[0] := v]
    else
      var child := if keys[0] in d && d[keys[0]].Dict? then d[keys[0]].fields else map[];
      d[keys[0] := Dict(SetNested(child, keys[1..], v))]
  }

  /** The dictionary found below a path, or the empty one that replaces whatever else is there. */
  function Base(p: Result<Value>): map<string, Value> {
    if p.Ok? && p.value.Dict? then p.value.fields else map[]
  }

  /** `set_nested_value(doc, key_path, value)`: a document that is not a dictionary cannot be indexed or assigned. */
  function SetNestedValue(doc: Value, keyPath: string, v: Value): (r: Result<Value>)
    ensures r.Ok? <==> doc.Dict?
    ensures r.Err? ==> r.error == TypeError
    ensures r.Ok? ==> r.value.Dict?
  {
    if !doc.Dict? then Err(TypeError)
    else Ok(Dict(SetNested(doc.fields, Split(keyPath, '.'), v)))
  }

  /** After the update, following the path gives the value set. */
  lemma {:induction false} SetThenGet(d: map<string, Value>, keys: seq<string>, v: Value)
    requires |keys| >= 1
    ensures Path(Dict(SetNested(d, keys, v)), keys) == Ok(v)
    decreases |keys|
  {
    if |keys| > 1 {
      var child := if keys[0] in d && d[keys[0]].Dict? then d[keys[0]].fields else map[];
      SetThenGet(child, keys[1..], v);
    }
  }

  /**
    At every intermediate level i the update leaves a dictionary: the one
    that was there, updated below, when the old value was a dictionary, and
    otherwise one built from nothing, so the old contents are gone.
   */
  lemma {:induction false} Intermediate(d: map<string, Value>, keys: seq<string>, v: Value, i: nat)
    requires i < |keys|
    ensures Path(Dict(SetNested(d, keys, v)), keys[..i]) == Ok(Dict(SetNested(Base(Path(Dict(d), keys[..i])), keys[i..], v)))
    decreases i
  {
    if i == 0 {
      assert keys[..0] == [];
      assert keys[0..] == keys;
    } else {
      var child := if keys[0] in d && d[keys[0]].Dict? then d[keys[0]].fields else map[];
      var rest := keys[1..];
      Intermediate(child, rest, v, i - 1);
      assert keys[..i][1..] == rest[..i - 1];
      assert rest[i - 1..] == keys[i..];
      assert Path(Dict(SetNested(d, keys, v)), keys[..i]) == Path(Dict(SetNested(child, rest, v)), rest[..i - 1]);
      if keys[0] in d && d[keys[0]].Dict? {
        assert Path(Dict(d), keys[..i]) == Path(Dict(child), rest[..i - 1]);
      } else {
        ReplacedBelow(rest[..i - 1]);
        if keys[0] in d {
          NotDictBelow(d[keys[0]], rest[..i - 1]);
        }
      }
    }
  }

  /** Below an empty dictionary, a non-empty path leads nowhere. */
  lemma ReplacedBelow(p: seq<string>)
    ensures Base(Path(Dict(map[]), p)) == map[]
  {
  }

  /** Below a value that is not a dictionary, a non-empty path leads nowhere; the empty path gives the value itself. */
  lemma NotDictBelow(x: Value, p: seq<string>)
    requires !x.Dict?
    ensures Base(Path(x, p)) == map[]
  {
  }

  /** A freshly built path holds exactly one key at its top. */
  lemma FreshPathAlone(keys: seq<string>, v: Value)
    requires |keys| >= 1
    ensures SetNested(map[], keys, v).Keys == {keys[0]}
  {
  }

  /**
    A path of the old document that leaves the updated path at index j
    (they agree before j and differ at j) reads the same afterwards.
   */
  lemma {:induction false} OffPathUnchanged(d: map<string, Value>, keys: seq<string>, v: Value, other: seq<string>, j: nat)
    requires j < |keys| && j < |other|
    requires other[..j] == keys[..j] && other[j] != keys[j]
    requires Path(Dict(d), other).Ok?
    ensures Path(Dict(SetNested(d, keys, v)), other) == Path(Dict(d), other)
    decreases j
  {
    if j > 0 {
      assert other[0] == other[..j][0] == keys[0];
      var x := d[other[0]];
      assert Path(Dict(d), other) == Path(x, other[1..]);
      assert |other| >= 2;
      assert other[1..][..j - 1] == keys[1..][..j - 1];
      OffPathUnchanged(x.fields, keys[1..], v, other[1..], j - 1);
    }
  }

  /** The updates one at a time, in order; the first one to raise stops the rest. */
  function Applied(doc: Value, updates: seq<(string, Value)>): (r: Result<Value>)
    decreases |updates|
  {
    if updates == [] then Ok(doc)
    else match Applied(doc, updates[..|updates| - 1])
      case Err(e) => Err(e)
      case Ok(d) => SetNestedValue(d, updates[|updates| - 1].0, updates[|updates| - 1].1)
  }

  /** Applying updates fails exactly when there is one and the document is not a dictionary. */
  lemma {:induction false} AppliedOk(doc: Value, updates: seq<(string, Value)>)
    ensures Applied(doc, updates).Ok? <==> doc.Dict? || updates == []
    ensures Applied(doc, updates).Err? ==> Applied(doc, updates).error == TypeError
    ensures doc.Dict? ==> Applied(doc, updates).value.Dict?
    decreases |updates|
  {
    if updates != [] {
      AppliedOk(doc, updates[..|updates| - 1]);
    }
  }

  /** The last update applied decides the value under its own path. */
  lemma LastUpdateWins(doc: Value, updates: seq<(string, Value)>, keyPath: string, v: Value)
    requires doc.Dict?
    ensures Applied(doc, updates + [(keyPath, v)]).Ok?
    ensures Path(Applied(doc, updates + [(keyPath, v)]).value, Split(keyPath, '.')) == Ok(v)
  {
    AppliedOk(doc, updates);
    assert (updates + [(keyPath, v)])[..|updates|] == updates;
    SetThenGet(Applied(doc, updates).value.fields, Split(keyPath, '.'), v);
  }

  /** A later update whose path leaves an earlier one's path keeps what the earlier one wrote. */
  lemma LaterUpdateElsewhere(doc: Value, updates: seq<(string, Value)>, keyPath: string, v: Value, other: seq<string>, j: nat)
    requires doc.Dict? && Applied(doc, updates).Ok?
    requires j < |Split(keyPath, '.')| && j < |other|
    requires other[..j] == Split(keyPath, '.')[..j] && other[j] != Split(keyPath, '.')[j]
    requires Path(Applied(doc, updates).value, other).Ok?
    ensures Path(Applied(doc, updates + [(keyPath, v)]).value, other) == Path(Applied(doc, updates).value, other)
  {
    AppliedOk(doc, updates);
    assert (updates + [(keyPath, v)])[..|updates|] == updates;
    OffPathUnchanged(Applied(doc, updates).value.fields, Split(keyPath, '.'), v, other, j);
  }

  /** The loop of lines 43-44: each update in the dictionary's order. */
  method ApplyUpdates(doc: Value, updates: seq<(string, Value)>) returns (r: Result<Value>)
    ensures r == Applied(doc, updates)
  {
    var content := doc;
    var i := 0;
    while i < |updates|
      invariant 0 <= i <= |updates|
      invariant Applied(doc, updates[..i]) == Ok(content)
    {
      assert updates[..i + 1][..i] == updates[..i];
      var next := SetNestedValue(content, updates[i].0, updates[i].1);
      if next.Err? {
        ErrorStops(doc, updates, i + 1);
        return next;
      }
      content := next.value;
      i := i + 1;
    }
    assert updates[..i] == updates;
    r := Ok(content);
  }

  /** Once an update raises, applying more of them raises the same. */
  lemma {:induction false} ErrorStops(doc: Value, updates: seq<(string, Value)>, n: nat)
    requires n <= |updates|
    requires Applied(doc, updates[..n]).Err?
    ensures Applied(doc, updates) == Applied(doc, updates[..n])
    decreases |updates| - n
  {
    if n < |updates| {
      assert updates[..n + 1][..n] == updates[..n];
      ErrorStops(doc, updates, n + 1);
    } else {
      assert updates[..n] == updates;
    }
  }

  /**
    The document `pulumi_yaml` starts from: the parsed file, or an empty
    dictionary when the file is missing (None) or its document is empty or
    otherwise falsy (`yaml.safe_load(file) or {}`).
   */
  function LoadDocument(file: Option<Value>): (r: Value)
    ensures file.None? ==> r == Dict(map[])
    ensures file.Some? && !Truthy(file.value) ==> r == Dict(map[])
    ensures file.Some? && Truthy(file.value) ==> r == file.value
    ensures Truthy(r) || r == Dict(map[])
  {
    if file.None? || !Truthy(file.value) then Dict(map[]) else file.value
  }

  /** `pulumi_yaml`: the document written back, or the exception that stops it before the write. */
  method PulumiYaml(file: Option<Value>, updates: seq<(string, Value)>) returns (r: Result<Value>)
    ensures r == Applied(LoadDocument(file), updates)
    ensures r.Ok? <==> LoadDocument(file).Dict? || updates == []
  {
    AppliedOk(LoadDocument(file), updates);
    r := ApplyUpdates(LoadDocument(file), updates);
  }

  const ProjectName := "PULUMI_PROJECT_NAME"
  const ProjectDescription := "pulumi code to support and deploy the email catcher"

  /** `pulumi_yaml_settings`, in its dictionary order; the dotted keys are spelled out around their dots. */
  const Settings: seq<(string, Value)> := [
    ("name", Str(ProjectName)),
    ("runtime" + "." + "name", Str("python")),
    ("runtime" + "." + ("options" + "." + "virtualenv"), Str("venv")),
    ("description", Str(ProjectDescription))]

  /**
    The call at line 51: whatever dictionary the project file held, the
    written document names the project, its runtime and its virtual
    environment.
   */
  lemma ProjectSettingsWritten(file: Option<Value>)
    requires LoadDocument(file).Dict?
    ensures Applied(LoadDocument(file), Settings).Ok?
    ensures var doc := Applied(LoadDocument(file), Settings).value;
      && Path(doc, ["name"]) == Ok(Str(ProjectName))
      && Path(doc, ["runtime", "name"]) == Ok(Str("python"))
      && Path(doc, ["runtime", "options", "virtualenv"]) == Ok(Str("venv"))
      && Path(doc, ["description"]) == Ok(Str(ProjectDescription))
  {
    var doc := LoadDocument(file);
    var s3 := Settings[..3];
    assert Settings == s3 + [("description", Str(ProjectDescription))];
    SplitPlain("description", '.');
    RuntimeWritten(doc);
    LastUpdateWins(doc, s3, "description", Str(ProjectDescription));
    RuntimeKept(doc, s3, "description", Str(ProjectDescription));
  }

  /** A later update of another plain top-level key leaves the name and the runtime settings as they were. */
  lemma RuntimeKept(doc: Value, updates: seq<(string, Value)>, key: string, v: Value)
    requires doc.Dict? && Applied(doc, updates).Ok?
    requires '.' !in key && key != "name" && key != "runtime"
    requires var d := Applied(doc, updates).value;
      Path(d, ["name"]).Ok? && Path(d, ["runtime", "name"]).Ok? && Path(d, ["runtime", "options", "virtualenv"]).Ok?
    ensures Applied(doc, updates + [(key, v)]).Ok?
    ensures var d, e := Applied(doc, updates).value, Applied(doc, updates + [(key, v)]).value;
      && Path(e, ["name"]) == Path(d, ["name"])
      && Path(e, ["runtime", "name"]) == Path(d, ["runtime", "name"])
      && Path(e, ["runtime", "options", "virtualenv"]) == Path(d, ["runtime", "options", "virtualenv"])
  {
    AppliedOk(doc, updates + [(key, v)]);
    TopLevelElsewhere(doc, updates, key, v, ["name"]);
    TopLevelElsewhere(doc, updates, key, v, ["runtime", "name"]);
    TopLevelElsewhere(doc, updates, key, v, ["runtime", "options", "virtualenv"]);
  }

  /** An update of a plain top-level key leaves every path through another top-level key alone. */
  lemma TopLevelElsewhere(doc: Value, updates: seq<(string, Value)>, key: string, v: Value, other: seq<string>)
    requires doc.Dict? && Applied(doc, updates).Ok?
    requires '.' !in key && other != [] && other[0] != key
    requires Path(Applied(doc, updates).value, other).Ok?
    ensures Path(Applied(doc, updates + [(key, v)]).value, other) == Path(Applied(doc, updates).value, other)
  {
    SplitPlain(key, '.');
    LaterUpdateElsewhere(doc, updates, key, v, other, 0);
  }

  /** The first three settings: the name, then the runtime's name and its virtual environment. */
  lemma RuntimeWritten(doc: Value)
    requires doc.Dict?
    ensures Applied(doc, Settings[..3]).Ok?
    ensures var d := Applied(doc, Settings[..3]).value;
      && Path(d, ["name"]) == Ok(Str(ProjectName))
      && Path(d, ["runtime", "name"]) == Ok(Str("python"))
      && Path(d, ["runtime", "options", "virtualenv"]) == Ok(Str("venv"))
  {
    NameWritten(doc);
    SplitVirtualenv();
    assert Settings[..3] == Settings[..2] + [Settings[2]];
    NestedWritten(doc, Settings[..2], Settings[2].0, Str("venv"), ["runtime", "options", "virtualenv"],
      ["name"], 0, ["runtime", "name"], 1);
  }

  /** The first two settings: the name, then the runtime's name. */
  lemma NameWritten(doc: Value)
    requires doc.Dict?
    ensures Applied(doc, Settings[..2]).Ok?
    ensures var d := Applied(doc, Settings[..2]).value;
      && Path(d, ["name"]) == Ok(Str(ProjectName))
      && Path(d, ["runtime", "name"]) == Ok(Str("python"))
  {
    SplitPlain("name", '.');
    SplitRuntimeName();
    assert Settings[..2] == [Settings[0], Settings[1]];
    TwoWritten(doc, "name", Str(ProjectName), Settings[1].0, Str("python"), ["runtime", "name"]);
  }

  /** A plain key followed by a key whose path starts elsewhere: both values can be read back. */
  lemma TwoWritten(doc: Value, k1: string, v1: Value, k2: string, v2: Value, p2: seq<string>)
    requires doc.Dict?
    requires Split(k1, '.') == [k1] && Split(k2, '.') == p2 && p2[0] != k1
    ensures Applied(doc, [(k1, v1), (k2, v2)]).Ok?
    ensures var d := Applied(doc, [(k1, v1), (k2, v2)]).value;
      Path(d, [k1]) == Ok(v1) && Path(d, p2) == Ok(v2)
  {
    var u1: seq<(string, Value)> := [(k1, v1)];
    assert u1 == [] + [(k1, v1)] && [(k1, v1), (k2, v2)] == u1 + [(k2, v2)];
    LastUpdateWins(doc, [], k1, v1);
    LastUpdateWins(doc, u1, k2, v2);
    LaterUpdateElsewhere(doc, u1, k2, v2, [k1], 0);
  }

  /**
    One more update, whose path leaves the paths a and b at positions i and
    j: its own value can be read back, and a and b read as before.
   */
  lemma NestedWritten(doc: Value, updates: seq<(string, Value)>, key: string, v: Value, path: seq<string>,
                      a: seq<string>, i: nat, b: seq<string>, j: nat)
    requires doc.Dict? && Split(key, '.') == path
    requires i < |path| && i < |a| && a[..i] == path[..i] && a[i] != path[i]
    requires j < |path| && j < |b| && b[..j] == path[..j] && b[j] != path[j]
    requires Applied(doc, updates).Ok?
    requires Path(Applied(doc, updates).value, a).Ok? && Path(Applied(doc, updates).value, b).Ok?
    ensures Applied(doc, updates + [(key, v)]).Ok?
    ensures var d, e := Applied(doc, updates).value, Applied(doc, updates + [(key, v)]).value;
      Path(e, path) == Ok(v) && Path(e, a) == Path(d, a) && Path(e, b) == Path(d, b)
  {
    LastUpdateWins(doc, updates, key, v);
    LaterUpdateElsewhere(doc, updates, key, v, a, i);
    LaterUpdateElsewhere(doc, updates, key, v, b, j);
  }

  /** `"runtime.name"` is the path runtime, name. */
  lemma SplitRuntimeName()
    ensures Split("runtime" + "." + "name", '.') == ["runtime", "name"]
  {
    SplitPlain("name", '.');
    SplitFirst("runtime", "name", '.');
  }

  /** `"runtime.options.virtualenv"` is the path runtime, options, virtualenv. */
  lemma SplitVirtualenv()
    ensures Split("runtime" + "." + ("options" + "." + "virtualenv"), '.') == ["runtime", "options", "virtualenv"]
  {
    SplitPlain("virtualenv", '.');
    SplitFirst("options", "virtualenv", '.');
    SplitFirst("runtime", "options" + "." + "virtualenv", '.');
  }

  /** A key without a dot is a path of one key. */
  lemma {:induction false} SplitPlain(w: string, sep: char)
    requires sep !in w
    ensures Split(w, sep) == [w]
    decreases |w|
  {
    if w != [] {
      SplitPlain(w[1..], sep);
      assert w == [w[0]] + w[1..];
    }
  }

  /** A dotted key splits into its first part followed by the split of the rest. */
  lemma {:induction false} SplitFirst(w: string, rest: string, sep: char)
    requires sep !in w
    ensures Split(w + [sep] + rest, sep) == [w] + Split(rest, sep)
    decreases |w|
  {
    var s := w + [sep] + rest;
    if w == [] {
      assert s == [sep] + rest;
      assert s[1..] == rest;
    } else {
      SplitFirst(w[1..], rest, sep);
      assert s[1..] == w[1..] + [sep] + rest;
      assert w == [w[0]] + w[1..];
    }
  }

  // ---------------------------------------------------------------------
  // frontend_env_config
  // ---------------------------------------------------------------------

  /** The literal head of the pattern `({key}: )"[^"]*"`: the key, a colon, a space and the opening quote. */
  function Opening(key: string): (r: string)
    ensures |r| == |key| + 3 && r[|r| - 1] == '"'
  {
    key + ": \""
  }

  /**
    Where a match of `{key}: "[^"]*"` that starts at the head of s ends
    (just past its closing quote): the quoted text runs to the first quote
    after the opening one, and may span lines.
   */
  function MatchEnd(s: string, key: string): (r: Option<nat>)
    ensures r.Some? ==> |key| + 4 <= r.value <= |s|
  {
    if !StartsWith(s, Opening(key)) then None
    else match ClosingQuote(s, |key| + 3)
      case None => None
      case Some(j) => Some(j + 1)
  }

  /** The index of the first quote of s at or after i. */
  function ClosingQuote(s: string, i: nat): (r: Option<nat>)
    ensures r.Some? ==> i <= r.value < |s|
    decreases |s| - i
  {
    if i >= |s| then None
    else if s[i] == '"' then Some(i)
    else ClosingQuote(s, i + 1)
  }

  /** The quote found is a quote, and none comes before it; without one there is no quote from i on. */
  lemma {:induction false} ClosingQuoteFacts(s: string, i: nat)
    ensures ClosingQuote(s, i).Some? ==> s[ClosingQuote(s, i).value] == '"'
    ensures ClosingQuote(s, i).Some? ==> forall j :: i <= j < ClosingQuote(s, i).value ==> s[j] != '"'
    ensures ClosingQuote(s, i).None? ==> forall j :: i <= j < |s| ==> s[j] != '"'
    decreases |s| - i
  {
    if i < |s| && s[i] != '"' {
      ClosingQuoteFacts(s, i + 1);
    }
  }

  /** A quote at k with none between i and k is the one found from i. */
  lemma {:induction false} ClosingQuoteAt(s: string, i: nat, k: nat)
    requires i <= k < |s| && s[k] == '"'
    requires forall j :: i <= j < k ==> s[j] != '"'
    ensures ClosingQuote(s, i) == Some(k)
    decreases k - i
  {
    if i < k {
      ClosingQuoteAt(s, i + 1, k);
    }
  }

  /** A match is the key's head, text without quotes, and the first quote after it; there is none without such a quote. */
  lemma MatchEndFacts(s: string, key: string)
    ensures MatchEnd(s, key).Some? <==> StartsWith(s, Opening(key)) && '"' in s[|key| + 3..]
    ensures MatchEnd(s, key).Some? ==> s[MatchEnd(s, key).value - 1] == '"'
    ensures MatchEnd(s, key).Some? ==> forall j :: |key| + 3 <= j < MatchEnd(s, key).value - 1 ==> s[j] != '"'
  {
    var n := |key| + 3;
    ClosingQuoteFacts(s, n);
    if ClosingQuote(s, n).Some? {
      assert s[n..][ClosingQuote(s, n).value - n] == '"';
    } else if n <= |s| {
      assert forall j :: 0 <= j < |s[n..]| ==> s[n..][j] == s[n + j];
    }
  }

  /** What a match is replaced by: `\1"{value}"`, the captured head followed by the quoted value. */
  function Replacement(key: string, value: string): (r: string)
    ensures |r| == |key| + |value| + 4
  {
    Opening(key) + value + "\""
  }

  /**
    `re.sub(rf'({key}: )"[^"]*"', rf'\1"{value}"', content)`: scanning left
    to right, each match is replaced and scanning resumes after it; every
    other character is copied.
   */
  function Substitute(s: string, key: string, value: string): (r: string)
    decreases |s|
  {
    if s == [] then []
    else match MatchEnd(s, key)
      case Some(e) => Replacement(key, value) + Substitute(s[e..], key, value)
      case None => [s[0]] + Substitute(s[1..], key, value)
  }

  /** Text with no match anywhere comes back as it was. */
  lemma {:induction false} NoMatchUnchanged(s: string, key: string, value: string)
    requires forall i :: 0 <= i <= |s| ==> MatchEnd(s[i..], key).None?
    ensures Substitute(s, key, value) == s
    decreases |s|
  {
    if s != [] {
      assert MatchEnd(s[0..], key).None?;
      assert s[0..] == s;
      forall i | 0 <= i <= |s[1..]|
        ensures MatchEnd(s[1..][i..], key).None?
      {
        assert s[1..][i..] == s[i + 1..];
      }
      NoMatchUnchanged(s[1..], key, value);
      assert s == [s[0]] + s[1..];
    }
  }

  /** The scan never changes the first |key| + 3 characters: a match keeps its captured head. */
  lemma {:induction false} HeadKept(s: string, key: string, value: string)
    ensures var n := if |s| < |key| + 3 then |s| else |key| + 3;
      |Substitute(s, key, value)| >= n && forall i :: 0 <= i < n ==> Substitute(s, key, value)[i] == s[i]
    decreases |s|
  {
    if s != [] {
      match MatchEnd(s, key)
      case Some(e) =>
        MatchHeadKept(s, key, value, e);
      case None =>
        HeadKept(s[1..], key, value);
        CopyHeadKept(s, key, value);
    }
  }

  /** A match at the head keeps its |key| + 3 opening characters. */
  lemma MatchHeadKept(s: string, key: string, value: string, e: nat)
    requires MatchEnd(s, key) == Some(e)
    ensures |Substitute(s, key, value)| >= |key| + 3
    ensures forall i :: 0 <= i < |key| + 3 ==> Substitute(s, key, value)[i] == s[i]
  {
    var out := Substitute(s, key, value);
    assert out == Opening(key) + (value + "\"" + Substitute(s[e..], key, value));
    assert s[..|key| + 3] == Opening(key);
    assert forall i :: 0 <= i < |key| + 3 ==> s[..|key| + 3][i] == s[i];
  }

  /** A copied head character followed by a scan that keeps its own head keeps the longer head. */
  lemma CopyHeadKept(s: string, key: string, value: string)
    requires s != [] && MatchEnd(s, key).None?
    requires var m := if |s| - 1 < |key| + 3 then |s| - 1 else |key| + 3;
      |Substitute(s[1..], key, value)| >= m && forall i :: 0 <= i < m ==> Substitute(s[1..], key, value)[i] == s[1..][i]
    ensures var n := if |s| < |key| + 3 then |s| else |key| + 3;
      |Substitute(s, key, value)| >= n && forall i :: 0 <= i < n ==> Substitute(s, key, value)[i] == s[i]
  {
    var out := Substitute(s, key, value);
    var rest := Substitute(s[1..], key, value);
    assert out == [s[0]] + rest;
    forall i | 1 <= i < |out| ensures out[i] == rest[i - 1] { }
  }

  /** Text shorter than a match is never changed. */
  lemma {:induction false} ShortUnchanged(s: string, key: string, value: string)
    requires |s| < |key| + 4
    ensures Substitute(s, key, value) == s
    decreases |s|
  {
    if s != [] {
      ShortUnchanged(s[1..], key, value);
      assert s == [s[0]] + s[1..];
    }
  }

  /** With no quote from index m on (m at most |key| + 3) there is no match to replace. */
  lemma {:induction false} NoClosingQuote(s: string, key: string, value: string, m: nat)
    requires m <= |key| + 3
    requires forall i :: m <= i < |s| ==> s[i] != '"'
    ensures Substitute(s, key, value) == s
    decreases |s|
  {
    if s != [] {
      MatchEndFacts(s, key);
      NoClosingQuote(s[1..], key, value, if m == 0 then 0 else m - 1);
      assert s == [s[0]] + s[1..];
    }
  }

  /**
    Rewriting twice is rewriting once, when the new value holds no quote:
    running the configuration step again leaves the file as it is.
   */
  lemma {:induction false} SubstituteIdempotent(s: string, key: string, value: string)
    requires '"' !in value
    ensures Substitute(Substitute(s, key, value), key, value) == Substitute(s, key, value)
    decreases |s|
  {
    if s != [] {
      var out := Substitute(s, key, value);
      match MatchEnd(s, key)
      case Some(e) =>
        var rep := Replacement(key, value);
        var rest := Substitute(s[e..], key, value);
        ReplacementMatches(key, value, rest);
        assert (rep + rest)[|rep|..] == rest;
        SubstituteIdempotent(s[e..], key, value);
      case None =>
        var rest := Substitute(s[1..], key, value);
        SubstituteIdempotent(s[1..], key, value);
        NoNewMatch(s, key, value);
        assert out == [s[0]] + rest;
        assert out[1..] == rest;
    }
  }

  /** A head that does not match before the scan does not match after it either. */
  lemma NoNewMatch(s: string, key: string, value: string)
    requires s != [] && MatchEnd(s, key).None?
    ensures MatchEnd([s[0]] + Substitute(s[1..], key, value), key).None?
  {
    assert Substitute(s, key, value) == [s[0]] + Substitute(s[1..], key, value);
    if !StartsWith(s, Opening(key)) {
      OpeningStillMissing(s, key, value);
    } else {
      QuoteStillMissing(s, key, value);
      assert s == [s[0]] + s[1..];
    }
  }

  /** Text that does not open with the key's head still does not after the scan. */
  lemma OpeningStillMissing(s: string, key: string, value: string)
    requires !StartsWith(s, Opening(key))
    ensures !StartsWith(Substitute(s, key, value), Opening(key))
  {
    var n := |key| + 3;
    var out := Substitute(s, key, value);
    if |s| >= n {
      HeadKept(s, key, value);
      assert out[..n] == s[..n];
    } else {
      ShortUnchanged(s, key, value);
    }
  }

  /** Text that opens with the key's head but has no closing quote is left as it is. */
  lemma QuoteStillMissing(s: string, key: string, value: string)
    requires s != [] && StartsWith(s, Opening(key)) && MatchEnd(s, key).None?
    ensures Substitute(s[1..], key, value) == s[1..]
  {
    var n := |key| + 3;
    MatchEndFacts(s, key);
    assert '"' !in s[n..];
    assert forall i :: n - 1 <= i < |s[1..]| ==> s[1..][i] == s[n..][i - (n - 1)];
    NoClosingQuote(s[1..], key, value, n - 1);
  }

  /** A replacement with a quote-free value is itself a complete match. */
  lemma ReplacementMatches(key: string, value: string, rest: string)
    requires '"' !in value
    ensures MatchEnd(Replacement(key, value) + rest, key) == Some(|Replacement(key, value)|)
  {
    var t := Replacement(key, value) + rest;
    var n := |key| + 3;
    assert t[..n] == Opening(key);
    assert forall j :: n <= j < n + |value| ==> t[j] == value[j - n];
    assert t[n + |value|] == '"';
    ClosingQuoteAt(t, n, n + |value|);
  }

  /**
    The pattern has no word boundary: a key preceded by other text, such as
    `awsregion` for the key `region`, is rewritten all the same.
   */
  lemma NoWordBoundary(prefix: string, key: string, was: string, value: string)
    requires key != [] && key[0] !in prefix && '"' !in was
    ensures Substitute(prefix + Opening(key) + was + "\"", key, value) == prefix + Replacement(key, value)
  {
    var line := Replacement(key, was);
    var s := prefix + line;
    assert prefix + Opening(key) + was + "\"" == s;
    CopiedPrefix(s, key, value, |prefix|);
    assert s[..|prefix|] == prefix && s[|prefix|..] == line;
    ReplacementMatches(key, was, []);
    assert line + [] == line;
    assert line[|line|..] == [];
  }

  /** Leading characters where the key cannot begin are copied as they are. */
  lemma {:induction false} CopiedPrefix(s: string, key: string, value: string, n: nat)
    requires n <= |s| && key != [] && key[0] !in s[..n]
    ensures Substitute(s, key, value) == s[..n] + Substitute(s[n..], key, value)
    decreases n
  {
    if n > 0 {
      var tail := s[1..];
      assert s[..n] == [s[0]] + tail[..n - 1];
      CopiedPrefix(tail, key, value, n - 1);
      CopiedStep(s, key, value, n);
    }
  }

  /** One more copied character in front of a copied prefix. */
  lemma CopiedStep(s: string, key: string, value: string, n: nat)
    requires 0 < n <= |s| && key != [] && s[0] != key[0]
    requires Substitute(s[1..], key, value) == s[1..][..n - 1] + Substitute(s[1..][n - 1..], key, value)
    ensures Substitute(s, key, value) == s[..n] + Substitute(s[n..], key, value)
  {
    var tail := s[1..];
    HeadCopied(s, key, value);
    assert tail[n - 1..] == s[n..];
    assert s[..n] == [s[0]] + tail[..n - 1];
    var later := Substitute(s[n..], key, value);
    calc {
      Substitute(s, key, value);
      [s[0]] + Substitute(tail, key, value);
      [s[0]] + (tail[..n - 1] + later);
      { AppendAssoc([s[0]], tail[..n - 1], later); }
      ([s[0]] + tail[..n - 1]) + later;
    }
  }

  lemma AppendAssoc(a: string, b: string, c: string)
    ensures a + (b + c) == (a + b) + c
  {
  }

  /** A character where the key cannot begin is copied as it is. */
  lemma HeadCopied(s: string, key: string, value: string)
    requires s != [] && key != [] && s[0] != key[0]
    ensures Substitute(s, key, value) == [s[0]] + Substitute(s[1..], key, value)
  {
    assert Opening(key)[0] == key[0];
    assert |s| < |key| + 3 || s[..|key| + 3][0] != Opening(key)[0];
  }

  /**
    The replacements built from the stack outputs, in their dictionary
    order; the API URL gains a trailing slash. A missing output raises
    KeyError.
   */
  function Replacements(outputs: map<string, string>): (r: Result<seq<(string, string)>>)
    ensures r.Ok? <==> {"cognito_region", "cognito_user_pool_id", "cognito_user_pool_client", "api_gateway_url", "ses_email_domain"} <= outputs.Keys
    ensures r.Err? ==> r.error == KeyError
    ensures r.Ok? ==> r.value == [
      ("region", outputs["cognito_region"]),
      ("userPoolId", outputs["cognito_user_pool_id"]),
      ("userPoolWebClientId", outputs["cognito_user_pool_client"]),
      ("apiGatewayurl", outputs["api_gateway_url"] + "/"),
      ("emailDomain", outputs["ses_email_domain"])]
  {
    if "cognito_region" !in outputs || "cognito_user_pool_id" !in outputs || "cognito_user_pool_client" !in outputs
      || "api_gateway_url" !in outputs || "ses_email_domain" !in outputs
    then Err(KeyError)
    else Ok([
      ("region", outputs["cognito_region"]),
      ("userPoolId", outputs["cognito_user_pool_id"]),
      ("userPoolWebClientId", outputs["cognito_user_pool_client"]),
      ("apiGatewayurl", outputs["api_gateway_url"] + "/"),
      ("emailDomain", outputs["ses_email_domain"])])
  }

  /** The substitutions one after another, each on the result of the previous. */
  function Configured(content: string, reps: seq<(string, string)>): (r: string)
    decreases |reps|
  {
    if reps == [] then content
    else Substitute(Configured(content, reps[..|reps| - 1]), reps[|reps| - 1].0, reps[|reps| - 1].1)
  }

  /** The loop of lines 67-73, reassigning the content once per key. */
  method SubstituteAll(content: string, reps: seq<(string, string)>) returns (r: string)
    ensures r == Configured(content, reps)
  {
    r := content;
    var i := 0;
    while i < |reps|
      invariant 0 <= i <= |reps|
      invariant r == Configured(content, reps[..i])
    {
      assert reps[..i + 1][..i] == reps[..i];
      r := Substitute(r, reps[i].0, reps[i].1);
      i := i + 1;
    }
    assert reps[..i] == reps;
  }

  /** `frontend_env_config` between the read and the write: the rewritten file, or KeyError for a missing output. */
  method FrontendEnvConfig(content: string, outputs: map<string, string>) returns (r: Result<string>)
    ensures r.Ok? <==> Replacements(outputs).Ok?
    ensures r.Err? ==> r.error == KeyError
    ensures r.Ok? ==> r.value == Configured(content, Replacements(outputs).value)
  {
    var reps := Replacements(outputs);
    if reps.Err? { return Err(reps.error); }
    var text := SubstituteAll(content, reps.value);
    r := Ok(text);
  }

  /** A file holding none of the five keys is written back unchanged. */
  lemma {:induction false} UntouchedWithoutKeys(content: string, reps: seq<(string, string)>)
    requires forall k, i :: 0 <= k < |reps| && 0 <= i <= |content| ==> MatchEnd(content[i..], reps[k].0).None?
    ensures Configured(content, reps) == content
    decreases |reps|
  {
    if reps != [] {
      var front := reps[..|reps| - 1];
      assert forall k :: 0 <= k < |front| ==> front[k] == reps[k];
      UntouchedWithoutKeys(content, front);
      NoMatchUnchanged(content, reps[|reps| - 1].0, reps[|reps| - 1].1);
    }
  }
}
