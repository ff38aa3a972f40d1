/** JavaScript's `String.prototype.split` and `Array.prototype.join` for a
    one-character separator. The registry stores several target countries in
    one element as a comma-separated list, and the language grammar is a
    hyphen-separated list of subtags. */
module Strings {

  /** The separator-free pieces of `s` between occurrences of `sep`; there is
      always at least one piece (the empty string splits into `[""]`). */
  function Split(s: string, sep: char): (parts: seq<string>)
    ensures |parts| >= 1
    ensures forall k :: 0 <= k < |parts| ==> sep !in parts[k]
    ensures |s| == 0 || s[0] == sep ==> parts[0] == ""
    ensures |s| > 0 && s[0] != sep ==> |parts[0]| > 0 && parts[0][0] == s[0]
    decreases |s|
  {
    if |s| == 0 then [""]
    else
      var rest := Split(s[1..], sep);
      if s[0] == sep then [""] + rest
      else [[s[0]] + rest[0]] + rest[1..]
  }

  /** The pieces with `sep` between consecutive ones. */
  function Join(parts: seq<string>, sep: char): string
    decreases |parts|
  {
    if |parts| == 0 then ""
    else if |parts| == 1 then parts[0]
    else parts[0] + [sep] + Join(parts[1..], sep)
  }

  /** A separator-free prefix of `t` becomes the front of the first piece. */
  lemma {:induction false} SplitPrefix(t: string, n: nat, sep: char)
    requires n <= |t|
    requires forall k :: 0 <= k < n ==> t[k] != sep
    ensures Split(t, sep) == [t[..n] + Split(t[n..], sep)[0]] + Split(t[n..], sep)[1..]
    decreases n
  {
    if n == 0 {
      var parts := Split(t, sep);
      assert t[..0] == "" && t[0..] == t;
      assert "" + parts[0] == parts[0];
      assert parts == [parts[0]] + parts[1..];
    } else {
      SplitPrefix(t[1..], n - 1, sep);
      var rest := Split(t[1..], sep);
      var tail := Split(t[n..], sep);
      assert t[1..][n - 1..] == t[n..];
      assert rest == [t[1..][..n - 1] + tail[0]] + tail[1..];
      assert rest[0] == t[1..][..n - 1] + tail[0];
      assert rest[1..] == tail[1..];
      assert Split(t, sep) == [[t[0]] + rest[0]] + rest[1..];
      assert [t[0]] + t[1..][..n - 1] == t[..n];
      assert [t[0]] + rest[0] == t[..n] + tail[0];
    }
  }

  /** Joining the pieces of a split gives back the original string. */
  lemma {:induction false} JoinSplit(s: string, sep: char)
    ensures Join(Split(s, sep), sep) == s
    decreases |s|
  {
    if |s| > 0 {
      var rest := Split(s[1..], sep);
      JoinSplit(s[1..], sep);
      if s[0] == sep {
        assert Split(s, sep) == [""] + rest;
        assert ([""] + rest)[1..] == rest;
        assert s == [sep] + s[1..];
      } else {
        var parts := Split(s, sep);
        assert parts[0] == [s[0]] + rest[0];
        assert parts[1..] == rest[1..];
        if |rest| == 1 {
          assert s == [s[0]] + rest[0];
        } else {
          assert Join(rest, sep) == rest[0] + [sep] + Join(rest[1..], sep);
          assert s == [s[0]] + s[1..];
        }
      }
    }
  }

  /** Splitting a join of separator-free pieces gives back the pieces: a
      comma-joined list of codes splits into exactly those codes. */
  lemma {:induction false} SplitJoin(parts: seq<string>, sep: char)
    requires |parts| >= 1
    requires forall k :: 0 <= k < |parts| ==> sep !in parts[k]
    ensures Split(Join(parts, sep), sep) == parts
    decreases |parts|
  {
    var p0 := parts[0];
    if |parts| == 1 {
      SplitPrefix(p0, |p0|, sep);
      assert p0[..|p0|] == p0 && p0[|p0|..] == "";
      assert Split("", sep) == [""];
      assert Join(parts, sep) == p0;
      assert Split(p0, sep) == [p0 + ""] + [""][1..];
      assert p0 + "" == p0;
    } else {
      var tail := Join(parts[1..], sep);
      var t := p0 + [sep] + tail;
      assert forall k :: 0 <= k < |p0| ==> t[k] == p0[k];
      SplitPrefix(t, |p0|, sep);
      assert t[..|p0|] == p0;
      assert t[|p0|..] == [sep] + tail;
      assert ([sep] + tail)[1..] == tail;
      SplitJoin(parts[1..], sep);
      var u := [sep] + tail;
      assert u[0] == sep && u[1..] == tail;
      assert Split(u, sep) == [""] + Split(tail, sep);
      assert Split(u, sep)[0] == "" && Split(u, sep)[1..] == parts[1..];
      assert Join(parts, sep) == t;
      assert Split(t, sep) == [p0 + ""] + parts[1..];
      assert p0 + "" == p0;
      assert parts == [p0] + parts[1..];
    }
  }
}
