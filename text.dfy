/**
  The text clean-up applied to a message body before it is handed to the
  summarising model, each step written as the left-to-right, non-overlapping
  scan that Python's `re.sub` performs for its pattern, plus Python's prefix
  slice `s[:n]`.
 */
module Text {
  import opened Values

  /** `s[:n]` for any integer n: a negative n counts from the end. */
  function Prefix(s: string, n: int): (r: string)
    ensures n >= 0 ==> r == s[..if n < |s| then n else |s|]
    ensures n < 0 ==> r == s[..if |s| + n > 0 then |s| + n else 0]
    ensures |r| <= |s|
    ensures n >= 0 ==> |r| <= n
  {
    var end := if n >= 0 then (if n < |s| then n else |s|) else (if |s| + n > 0 then |s| + n else 0);
    s[..end]
  }

  /** Index of the first occurrence of c in s. */
  function IndexOf(s: string, c: char): (r: Option<nat>)
    ensures r.Some? ==> r.value < |s| && s[r.value] == c && forall j :: 0 <= j < r.value ==> s[j] != c
    ensures r.None? ==> forall j :: 0 <= j < |s| ==> s[j] != c
  {
    if s == [] then None
    else if s[0] == c then Some(0)
    else match IndexOf(s[1..], c)
      case None => None
      case Some(i) => Some(i + 1)
  }

  /** s starts with t. */
  predicate StartsWith(s: string, t: string) {
    |t| <= |s| && s[..|t|] == t
  }

  /**
    Where a match of `<https?://[^>]*>` that starts at the head of s ends:
    the index of its closing '>', which is the first '>' of s because the
    opening `<http://` or `<https://` holds none.
   */
  function UrlMatchEnd(s: string): (r: Option<nat>)
    ensures r.Some? ==> 8 <= r.value < |s| && s[r.value] == '>'
    ensures r.Some? ==> forall j :: 0 <= j < r.value ==> s[j] != '>'
    ensures r.Some? <==> (StartsWith(s, "<http://") || StartsWith(s, "<https://")) && '>' in s
  {
    if !(StartsWith(s, "<http://") || StartsWith(s, "<https://")) then None
    else
      assert s[0] == '<' && s[1] == 'h' && s[2] == 't' && s[3] == 't' && s[4] == 'p';
      assert s[5] == ':' || s[5] == 's';
      assert s[6] == '/' || s[6] == ':';
      assert s[7] == '/';
      var i := IndexOf(s, '>');
      assert i.None? <==> '>' !in s by {
        if '>' in s {
          var j :| 0 <= j < |s| && s[j] == '>';
        }
      }
      i
  }

  /** `re.sub(r"<https?://[^>]*>", "", s)`: drop every angle-bracketed web link. */
  function RemoveUrls(s: string): (r: string)
    ensures |r| <= |s|
    decreases |s|
  {
    if s == [] then []
    else match UrlMatchEnd(s)
      case Some(e) => RemoveUrls(s[e + 1..])
      case None => [s[0]] + RemoveUrls(s[1..])
  }

  /** `re.sub(r"\n>", "", s)`: drop every line break followed by '>'. */
  function RemoveQuoteBreaks(s: string): (r: string)
    ensures |r| <= |s|
  {
    if s == [] then []
    else if |s| >= 2 && s[0] == '\n' && s[1] == '>' then RemoveQuoteBreaks(s[2..])
    else [s[0]] + RemoveQuoteBreaks(s[1..])
  }

  /** `re.sub(r">+", "", s)`: drop every '>'. */
  function RemoveGt(s: string): (r: string)
    ensures |r| <= |s|
  {
    if s == [] then []
    else if s[0] == '>' then RemoveGt(s[1..])
    else [s[0]] + RemoveGt(s[1..])
  }

  predicate IsBlank(c: char) {
    c == ' ' || c == '\t'
  }

  /** s without its leading run of spaces and tabs. */
  function DropBlanks(s: string): (r: string)
    ensures |r| <= |s|
    ensures r == [] || !IsBlank(r[0])
    ensures forall c :: c in r ==> c in s
  {
    if s != [] && IsBlank(s[0]) then DropBlanks(s[1..]) else s
  }

  /** `re.sub(r"[ \t]+", " ", s)`: every run of spaces and tabs becomes one space. */
  function CollapseBlanks(s: string): (r: string)
    ensures |r| <= |s|
    decreases |s|
  {
    if s == [] then []
    else if IsBlank(s[0]) then " " + CollapseBlanks(DropBlanks(s[1..]))
    else [s[0]] + CollapseBlanks(s[1..])
  }

  /** The clean-up chain, in its order: links, quote breaks, every '>', blank runs. */
  function Normalise(s: string): (r: string)
    ensures |r| <= |s|
  {
    CollapseBlanks(RemoveGt(RemoveQuoteBreaks(RemoveUrls(s))))
  }

  /** Text that is fit for the model: no '>', no tab, no two spaces in a row. */
  predicate Clean(s: string) {
    && (forall i :: 0 <= i < |s| ==> s[i] != '>' && s[i] != '\t')
    && (forall i :: 0 <= i < |s| - 1 ==> !(s[i] == ' ' && s[i + 1] == ' '))
  }

  /** Removing every '>' leaves none, and keeps every other character. */
  lemma {:induction false} RemoveGtFacts(s: string)
    ensures forall c :: c in RemoveGt(s) <==> c in s && c != '>'
  {
    if s != [] {
      RemoveGtFacts(s[1..]);
      assert s == [s[0]] + s[1..];
    }
  }

  /** Collapsing introduces only spaces, leaves no tab and no two spaces in a row. */
  lemma {:induction false} CollapseBlanksFacts(s: string)
    ensures forall c :: c in CollapseBlanks(s) ==> c in s || c == ' '
    ensures forall c :: c in CollapseBlanks(s) ==> c != '\t'
    ensures forall i :: 0 <= i < |CollapseBlanks(s)| - 1 ==>
      !(CollapseBlanks(s)[i] == ' ' && CollapseBlanks(s)[i + 1] == ' ')
    ensures CollapseBlanks(s) != [] && CollapseBlanks(s)[0] == ' ' ==> s != [] && IsBlank(s[0])
    decreases |s|
  {
    if s == [] {
    } else if IsBlank(s[0]) {
      var t := DropBlanks(s[1..]);
      CollapseBlanksFacts(t);
      var r := CollapseBlanks(t);
      assert CollapseBlanks(s) == " " + r;
      assert r != [] ==> r[0] != ' ';
      assert forall i :: 1 <= i < |" " + r| ==> (" " + r)[i] == r[i - 1];
    } else {
      CollapseBlanksFacts(s[1..]);
      var r := CollapseBlanks(s[1..]);
      assert CollapseBlanks(s) == [s[0]] + r;
      assert s[0] != ' ';
      assert forall i :: 1 <= i < |[s[0]] + r| ==> ([s[0]] + r)[i] == r[i - 1];
    }
  }

  /** Every normalised text is clean. */
  lemma NormaliseIsClean(s: string)
    ensures Clean(Normalise(s))
  {
    var g := RemoveGt(RemoveQuoteBreaks(RemoveUrls(s)));
    RemoveGtFacts(RemoveQuoteBreaks(RemoveUrls(s)));
    CollapseBlanksFacts(g);
    var r := Normalise(s);
    forall i | 0 <= i < |r|
      ensures r[i] != '>' && r[i] != '\t'
    {
      assert r[i] in r;
    }
  }

  /** A prefix of a clean text is clean. */
  lemma PrefixClean(s: string, n: int)
    requires Clean(s)
    ensures Clean(Prefix(s, n))
  {
    var r := Prefix(s, n);
    assert forall i :: 0 <= i < |r| ==> r[i] == s[i];
  }

  /** Collapsing blank runs twice is collapsing them once. */
  lemma {:induction false} CollapseBlanksIdempotent(s: string)
    ensures CollapseBlanks(CollapseBlanks(s)) == CollapseBlanks(s)
    decreases |s|
  {
    if s == [] {
    } else if IsBlank(s[0]) {
      var t := DropBlanks(s[1..]);
      var r := CollapseBlanks(t);
      CollapseBlanksIdempotent(t);
      CollapseBlanksFacts(t);
      assert r != [] ==> r[0] in r;
      assert r == [] || !IsBlank(r[0]);
      assert DropBlanks(r) == r;
      assert (" " + r)[1..] == r;
    } else {
      CollapseBlanksIdempotent(s[1..]);
      assert ([s[0]] + CollapseBlanks(s[1..]))[1..] == CollapseBlanks(s[1..]);
    }
  }

  /** Text without '>' holds no link span and no quote break: both removals leave it as it is. */
  lemma {:induction false} WithoutGtUnchanged(s: string)
    requires '>' !in s
    ensures RemoveUrls(s) == s && RemoveQuoteBreaks(s) == s && RemoveGt(s) == s
  {
    if s != [] {
      assert '>' !in s[1..];
      WithoutGtUnchanged(s[1..]);
      assert s == [s[0]] + s[1..];
    }
  }

  /** `s.split(sep)`: the pieces between separators, with an empty piece at each end or doubled separator. */
  function Split(s: string, sep: char): (r: seq<string>)
    ensures |r| >= 1
    ensures forall i :: 0 <= i < |r| ==> sep !in r[i]
  {
    if s == [] then [[]]
    else if s[0] == sep then [[]] + Split(s[1..], sep)
    else
      var rest := Split(s[1..], sep);
      [[s[0]] + rest[0]] + rest[1..]
  }

  /** `sep.join(pieces)` */
  function Join(pieces: seq<string>, sep: char): (r: string)
    requires |pieces| >= 1
    decreases |pieces|
  {
    if |pieces| == 1 then pieces[0] else pieces[0] + [sep] + Join(pieces[1..], sep)
  }

  /** Joining the pieces of a split gives back the text. */
  lemma {:induction false} JoinSplit(s: string, sep: char)
    ensures Join(Split(s, sep), sep) == s
  {
    if s == [] {
    } else if s[0] == sep {
      JoinSplit(s[1..], sep);
      assert s == [sep] + s[1..];
    } else {
      JoinSplit(s[1..], sep);
      var rest := Split(s[1..], sep);
      var r := Split(s, sep);
      assert r[0] == [s[0]] + rest[0] && r[1..] == rest[1..];
      if |rest| > 1 {
        assert Join(r, sep) == [s[0]] + rest[0] + [sep] + Join(rest[1..], sep);
      }
      assert s == [s[0]] + s[1..];
    }
  }

  /** Splitting a join of separator-free pieces gives back the pieces. */
  lemma {:induction false} SplitJoin(pieces: seq<string>, sep: char)
    requires |pieces| >= 1
    requires forall i :: 0 <= i < |pieces| ==> sep !in pieces[i]
    ensures Split(Join(pieces, sep), sep) == pieces
    decreases |pieces|, |pieces[0]|
  {
    var p := pieces[0];
    if p == [] {
      if |pieces| > 1 {
        SplitJoin(pieces[1..], sep);
        assert Join(pieces, sep) == [sep] + Join(pieces[1..], sep);
        assert ([sep] + Join(pieces[1..], sep))[1..] == Join(pieces[1..], sep);
        assert [p] + pieces[1..] == pieces;
      }
    } else {
      var shorter := [p[1..]] + pieces[1..];
      assert forall i :: 0 <= i < |shorter| ==> sep !in shorter[i] by {
        assert forall c :: c in p[1..] ==> c in p;
      }
      SplitJoin(shorter, sep);
      assert p[0] in p;
      if |pieces| == 1 {
        assert Join(pieces, sep) == [p[0]] + Join(shorter, sep);
      } else {
        assert Join(pieces, sep) == [p[0]] + Join(shorter, sep);
      }
      assert ([p[0]] + Join(shorter, sep))[1..] == Join(shorter, sep);
      assert [p[0]] + p[1..] == p;
    }
  }

  /** Every character of a text is the separator or a character of one of its pieces. */
  lemma SplitCovers(s: string, sep: char)
    ensures forall c :: c in s && c != sep ==> exists i :: 0 <= i < |Split(s, sep)| && c in Split(s, sep)[i]
  {
    JoinSplit(s, sep);
    JoinCovers(Split(s, sep), sep);
  }

  lemma {:induction false} JoinCovers(pieces: seq<string>, sep: char)
    requires |pieces| >= 1
    ensures forall c :: c in Join(pieces, sep) && c != sep ==> exists i :: 0 <= i < |pieces| && c in pieces[i]
    decreases |pieces|
  {
    if |pieces| > 1 {
      JoinCovers(pieces[1..], sep);
      forall c | c in Join(pieces, sep) && c != sep
        ensures exists i :: 0 <= i < |pieces| && c in pieces[i]
      {
        if c !in pieces[0] {
          assert c in Join(pieces[1..], sep);
          var i :| 0 <= i < |pieces[1..]| && c in pieces[1..][i];
          assert c in pieces[i + 1];
        }
      }
    }
  }
}
