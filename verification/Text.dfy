/**
 Splitting and joining of delimited text: the library's `string_split` loop
 against the list of fields that a text is the join of.
 */
module Text {

  /** Position of the first `c` in `s` at or after `start`, or `|s|` when there is none. */
  function FindFrom(s: string, c: char, start: nat): (i: nat)
    requires start <= |s|
    ensures start <= i <= |s|
    ensures i < |s| ==> s[i] == c
    ensures forall k :: start <= k < i ==> s[k] != c
    decreases |s| - start
  {
    if start == |s| || s[start] == c then start else FindFrom(s, c, start + 1)
  }

  /** The fields of `s` between separators, in order; `n` separators give `n + 1` fields. */
  function Fields(s: string, sep: char): (fs: seq<string>)
    ensures |fs| > 0
    decreases |s|
  {
    var i := FindFrom(s, sep, 0);
    if i == |s| then [s] else [s[..i]] + Fields(s[i + 1..], sep)
  }

  /** The fields with one separator between neighbours. */
  function Join(fs: seq<string>, sep: char): (s: string)
  {
    if fs == [] then "" else if |fs| == 1 then fs[0] else fs[0] + [sep] + Join(fs[1..], sep)
  }

  /** The non-empty members of `fs`, in order. */
  function NonEmpty(fs: seq<string>): (r: seq<string>)
    ensures forall f <- r :: f != "" && f in fs
  {
    if fs == [] then [] else (if fs[0] == "" then [] else [fs[0]]) + NonEmpty(fs[1..])
  }

  /** A trailing empty field is not a token. */
  function DropTrailingEmpty(fs: seq<string>): (r: seq<string>)
    ensures r <= fs
  {
    if fs != [] && fs[|fs| - 1] == "" then fs[..|fs| - 1] else fs
  }

  /** The tokens `string_split` returns. */
  function Tokens(s: string, sep: char, collapse: bool): (r: seq<string>)
  {
    Kept(DropTrailingEmpty(Fields(s, sep)), collapse)
  }

  function Kept(fs: seq<string>, collapse: bool): (r: seq<string>)
  {
    if collapse then NonEmpty(fs) else fs
  }

  /** The scan has passed the fields `done` and stands at `start`. */
  ghost predicate Scanned(s: string, sep: char, start: nat, done: seq<string>)
  {
    start <= |s| && Fields(s, sep) == done + Fields(s[start..], sep)
  }

  /** string_split. */
  method StringSplit(s: string, sep: char, collapse: bool) returns (result: seq<string>)
    ensures result == Tokens(s, sep, collapse)
  {
    hide Fields, Scanned, FindFrom, Kept, Tokens;
    SplitStart(s, sep, collapse);
    result := [];
    if s == "" { return; }
    var start := 0;
    var end := FindFrom(s, sep, start);
    ghost var done: seq<string> := [];
    while end < |s|
      invariant start <= |s|
      invariant end == FindFrom(s, sep, start)
      invariant Scanned(s, sep, start, done)
      invariant result == Kept(done, collapse)
      decreases |s| - start
    {
      var token := s[start..end];
      ScanStep(s, sep, start, done);
      KeptStep(done, token, collapse);
      if !collapse || token != "" { result := result + [token]; }
      done := done + [token];
      start := end + 1;
      end := FindFrom(s, sep, start);
    }
    ScanLast(s, sep, start, done);
    assert s[start..] == s[start..|s|];
    LastToken(s, sep, done, s[start..], collapse);
    if start < |s| {
      var token := s[start..];
      if !collapse || token != "" { result := result + [token]; }
    }
  }

  lemma SplitStart(s: string, sep: char, collapse: bool)
    ensures Scanned(s, sep, 0, []) && Kept([], collapse) == [] && Tokens("", sep, collapse) == []
  {
    assert s[0..] == s;
  }

  lemma LastToken(s: string, sep: char, done: seq<string>, last: string, collapse: bool)
    requires Fields(s, sep) == done + [last]
    ensures Tokens(s, sep, collapse) == Kept(done, collapse) + if last != "" then [last] else []
  {
    KeptStep(done, last, collapse);
    assert (done + [last])[..|done|] == done;
  }

  lemma ScanStep(s: string, sep: char, start: nat, done: seq<string>)
    requires start <= |s| && FindFrom(s, sep, start) < |s|
    requires Scanned(s, sep, start, done)
    ensures var end := FindFrom(s, sep, start); Scanned(s, sep, end + 1, done + [s[start..end]])
  {
    FieldsStep(s, sep, start);
  }

  lemma ScanLast(s: string, sep: char, start: nat, done: seq<string>)
    requires Scanned(s, sep, start, done) && FindFrom(s, sep, start) == |s|
    ensures Fields(s, sep) == done + [s[start..|s|]]
  {
    FieldsStep(s, sep, start);
    assert s[start..] == s[start..|s|];
  }

  lemma KeptStep(done: seq<string>, token: string, collapse: bool)
    ensures Kept(done + [token], collapse) ==
            Kept(done, collapse) + if !collapse || token != "" then [token] else []
  {
    NonEmptyConcat(done, [token]);
  }

  /** One turn of the scan: the field at `start`, then the fields after its separator. */
  lemma {:induction false} FieldsStep(s: string, sep: char, start: nat)
    requires start <= |s|
    ensures var end := FindFrom(s, sep, start);
            Fields(s[start..], sep) ==
            if end == |s| then [s[start..]] else [s[start..end]] + Fields(s[end + 1..], sep)
  {
    hide FindFrom;
    var end := FindFrom(s, sep, start);
    var tail := s[start..];
    FirstOccurrence(tail, sep, end - start);
    assert tail[..end - start] == s[start..end];
    if end < |s| { assert tail[end - start + 1..] == s[end + 1..]; }
  }

  /** The first occurrence is the only position with no earlier `c`. */
  lemma {:induction false} FirstOccurrence(s: string, c: char, i: nat)
    requires i <= |s| && (forall k :: 0 <= k < i ==> s[k] != c) && (i < |s| ==> s[i] == c)
    ensures FindFrom(s, c, 0) == i
  {
    var j := FindFrom(s, c, 0);
    assert !(j < i) && !(i < j);
  }

  lemma {:induction false} NonEmptyConcat(a: seq<string>, b: seq<string>)
    ensures NonEmpty(a + b) == NonEmpty(a) + NonEmpty(b)
  {
    if a == [] {
      assert a + b == b;
    } else {
      assert (a + b)[1..] == a[1..] + b;
      NonEmptyConcat(a[1..], b);
    }
  }

  ghost predicate SepFree(fs: seq<string>, sep: char)
  {
    forall i :: 0 <= i < |fs| ==> sep !in fs[i]
  }

  lemma FieldsAfterFirst(w: string, rest: string, sep: char)
    requires sep !in w
    ensures Fields(w + [sep] + rest, sep) == [w] + Fields(rest, sep)
  {
    var s := w + [sep] + rest;
    assert forall k :: 0 <= k < |w| ==> s[k] == w[k];
    FirstOccurrence(s, sep, |w|);
    assert s[..|w|] == w && s[|w| + 1..] == rest;
  }

  /** Fields undo a join of separator-free fields. */
  lemma {:induction false} FieldsOfJoin(fs: seq<string>, sep: char)
    requires fs != [] && SepFree(fs, sep)
    ensures Fields(Join(fs, sep), sep) == fs
  {
    if |fs| == 1 {
      FirstOccurrence(fs[0], sep, |fs[0]|);
    } else {
      FieldsAfterFirst(fs[0], Join(fs[1..], sep), sep);
      FieldsOfJoin(fs[1..], sep);
    }
  }

  lemma JoinCons(w: string, fs: seq<string>, sep: char)
    requires fs != []
    ensures Join([w] + fs, sep) == w + [sep] + Join(fs, sep)
  {
    assert ([w] + fs)[1..] == fs;
  }

  /** And a join undoes the fields, so the fields are the only separator-free list that joins to `s`. */
  lemma {:induction false} JoinOfFields(s: string, sep: char)
    ensures Join(Fields(s, sep), sep) == s
    decreases |s|
  {
    hide FindFrom;
    var i := FindFrom(s, sep, 0);
    if i < |s| {
      JoinOfFields(s[i + 1..], sep);
      hide Join;
      JoinCons(s[..i], Fields(s[i + 1..], sep), sep);
      assert s == s[..i] + [sep] + s[i + 1..];
    }
  }

  lemma {:induction false} JoinConcat(a: seq<string>, b: seq<string>, sep: char)
    requires a != [] && b != []
    ensures Join(a + b, sep) == Join(a, sep) + [sep] + Join(b, sep)
  {
    if |a| == 1 {
      assert (a + b)[1..] == b;
    } else {
      assert (a + b)[1..] == a[1..] + b;
      JoinConcat(a[1..], b, sep);
    }
  }

  /** A field holds only characters of the text. */
  lemma {:induction false} FieldChars(s: string, sep: char, f: string, c: char)
    requires f in Fields(s, sep) && c in f
    ensures c in s
    decreases |s|
  {
    var i := FindFrom(s, sep, 0);
    if i < |s| && f != s[..i] { FieldChars(s[i + 1..], sep, f, c); }
  }

  lemma FieldsSepFree(s: string, sep: char)
    ensures SepFree(Fields(s, sep), sep)
  {
    forall k | 0 <= k < |Fields(s, sep)| ensures sep !in Fields(s, sep)[k] { FieldsAreSplit(s, sep, k); }
  }

  lemma {:induction false} FieldsAreSplit(s: string, sep: char, k: nat)
    requires k < |Fields(s, sep)|
    ensures sep !in Fields(s, sep)[k]
    decreases |s|
  {
    var i := FindFrom(s, sep, 0);
    if i < |s| && k > 0 { FieldsAreSplit(s[i + 1..], sep, k - 1); }
  }
}
