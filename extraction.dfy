/** The text recovery inside the `source` setter of MetadocPlugin: when the
    value cannot be loaded as a module, it is split on '{', the first piece is
    dropped, and the rest is joined with '{' behind a leading '{'. */
module Extraction {
  import opened Values

  const Brace: char := '{'

  /** String.prototype.split with a one-character separator: the maximal
      runs between separators, in order; there is always at least one. */
  function Split(s: string, sep: char): (pieces: seq<string>)
    ensures |pieces| >= 1
    ensures forall i :: 0 <= i < |pieces| ==> sep !in pieces[i]
  {
    if s == [] then [[]]
    else
      var rest := Split(s[1..], sep);
      if s[0] == sep then [[]] + rest
      else [[s[0]] + rest[0]] + rest[1..]
  }

  /** Array.prototype.join with a one-character separator; the empty array joins to "". */
  function Join(parts: seq<string>, sep: char): (r: string)
    ensures |parts| == 0 ==> r == []
    ensures |parts| >= 1 ==> parts[0] <= r
    ensures |parts| >= 2 ==> |r| > |parts[0]| && r[|parts[0]|] == sep
  {
    if |parts| == 0 then []
    else if |parts| == 1 then parts[0]
    else parts[0] + [sep] + Join(parts[1..], sep)
  }

  /** The text handed to JSON.parse: split on '{', shift, join with '{', prefix '{'. */
  function Extract(s: string): (t: string)
    ensures |t| >= 1 && t[0] == Brace
  {
    var pieces := Split(s, Brace);
    [Brace] + Join(pieces[1..], Brace)
  }

  /** Position of the first occurrence of `c` in `s`, if there is one. */
  function FirstIndex(s: string, c: char): (r: Option<nat>)
    ensures r.None? <==> c !in s
    ensures r.Some? ==> r.value < |s| && s[r.value] == c && c !in s[..r.value]
  {
    if s == [] then None
    else if s[0] == c then Some(0)
    else
      match FirstIndex(s[1..], c)
      case None => None
      case Some(i) =>
        assert s[..i + 1] == [s[0]] + s[1..][..i];
        Some(i + 1)
  }

  /** What the extraction is for: everything from the first '{' on, or a lone
      '{' when there is none. */
  function FromFirstBrace(s: string): string
  {
    match FirstIndex(s, Brace)
    case None => [Brace]
    case Some(i) => s[i..]
  }

  /** Joining the pieces of a split gives back the original text. */
  lemma {:induction false} JoinSplit(s: string, sep: char)
    ensures Join(Split(s, sep), sep) == s
  {
    if s != [] {
      var rest := Split(s[1..], sep);
      JoinSplit(s[1..], sep);
      if s[0] == sep {
        assert Split(s, sep) == [[]] + rest;
      } else {
        var pieces := Split(s, sep);
        assert pieces == [[s[0]] + rest[0]] + rest[1..];
        if |rest| == 1 {
          assert Join(rest, sep) == rest[0];
        } else {
          assert Join(rest, sep) == rest[0] + [sep] + Join(rest[1..], sep);
          assert pieces[1..] == rest[1..];
        }
      }
    }
  }

  /** Splitting a join of separator-free parts gives back the parts. */
  lemma {:induction false} SplitJoin(parts: seq<string>, sep: char)
    requires |parts| >= 1
    requires forall i :: 0 <= i < |parts| ==> sep !in parts[i]
    ensures Split(Join(parts, sep), sep) == parts
  {
    if |parts| == 1 {
      SplitNoSeparator(parts[0], sep);
    } else {
      SplitJoin(parts[1..], sep);
      var tail := Join(parts[1..], sep);
      SplitAt(parts[0] + [sep] + tail, sep, |parts[0]|);
      assert (parts[0] + [sep] + tail)[..|parts[0]|] == parts[0];
      assert (parts[0] + [sep] + tail)[|parts[0]| + 1..] == tail;
    }
  }

  /** Text without the separator splits into itself alone. */
  lemma {:induction false} SplitNoSeparator(s: string, sep: char)
    requires sep !in s
    ensures Split(s, sep) == [s]
  {
    if s != [] {
      SplitNoSeparator(s[1..], sep);
      assert [s[0]] + s[1..] == s;
    }
  }

  /** The first piece of a split ends at the first separator, and the
      remaining pieces are those of the text after it. */
  lemma {:induction false} SplitAt(s: string, sep: char, i: nat)
    requires i < |s| && s[i] == sep && sep !in s[..i]
    ensures Split(s, sep) == [s[..i]] + Split(s[i + 1..], sep)
  {
    if i > 0 {
      assert s[1..][..i - 1] == s[1..i];
      assert s[1..][i..] == s[i + 1..];
      assert s[1..][i - 1] == s[i];
      SplitAt(s[1..], sep, i - 1);
      assert s[..i] == [s[0]] + s[1..i];
    }
  }

  /** The extraction keeps exactly the suffix from the first '{', later '{'
      included, and yields "{" for text that has none. */
  lemma ExtractIsFromFirstBrace(s: string)
    ensures Extract(s) == FromFirstBrace(s)
  {
    match FirstIndex(s, Brace)
    case None =>
      SplitNoSeparator(s, Brace);
    case Some(i) =>
      SplitAt(s, Brace, i);
      JoinSplit(s[i + 1..], Brace);
      assert s[i..] == [Brace] + s[i + 1..];
  }

  /** Text with no '{' extracts to the one-character string "{". */
  lemma ExtractWithoutBrace(s: string)
    requires Brace !in s
    ensures Extract(s) == [Brace]
  {
    ExtractIsFromFirstBrace(s);
  }

  /** Text with a '{' is its extraction behind a prefix free of '{': only
      the noise before the first '{' is dropped. */
  lemma ExtractDropsOnlyPrefix(s: string)
    requires Brace in s
    ensures |Extract(s)| <= |s|
    ensures s == s[..|s| - |Extract(s)|] + Extract(s)
    ensures Brace !in s[..|s| - |Extract(s)|]
  {
    ExtractIsFromFirstBrace(s);
    var i := FirstIndex(s, Brace).value;
    assert s == s[..i] + s[i..];
  }

  /** Text that already starts with '{' comes back unchanged. */
  lemma ExtractKeepsBraceLed(s: string)
    requires |s| >= 1 && s[0] == Brace
    ensures Extract(s) == s
  {
    ExtractIsFromFirstBrace(s);
    assert FirstIndex(s, Brace) == Some(0);
  }

  /** Extracting twice is extracting once. */
  lemma ExtractIdempotent(s: string)
    ensures Extract(Extract(s)) == Extract(s)
  {
    ExtractKeepsBraceLed(Extract(s));
  }

  /** Log noise without '{' in front of a '{'-led body is cut away. */
  lemma ExtractDropsNoise(noise: string, body: string)
    requires Brace !in noise
    requires |body| >= 1 && body[0] == Brace
    ensures Extract(noise + body) == body
  {
    var s := noise + body;
    assert s[|noise|] == Brace;
    assert s[..|noise|] == noise;
    assert s[|noise|..] == body;
    SplitAt(s, Brace, |noise|);
    assert s[|noise| + 1..] == body[1..];
    JoinSplit(body[1..], Brace);
    assert [Brace] + body[1..] == body;
  }
}
