/** The language check of the query validator (app.js:158-163): the source
    runs the regular expression `[a-zA-Z]{1,8}(-[a-zA-Z0-9]{1,8})*` (with the
    global flag) over the value and accepts when the first match is the whole value. This
    module models that regex engine's first match and proves it agrees with
    the lexical space of xs:language (section 3.3.3 of XML Schema Part 2)
    read as a whole-string grammar. */
module LanguageTag {

  import opened Optional
  import Strings

  predicate IsLetter(c: char) {
    'a' <= c <= 'z' || 'A' <= c <= 'Z'
  }

  predicate IsDigit(c: char) {
    '0' <= c <= '9'
  }

  /** The character class of a subtag: `[a-zA-Z]` for the primary subtag,
      `[a-zA-Z0-9]` for the subtags after a hyphen. */
  predicate InClass(c: char, alnum: bool) {
    IsLetter(c) || (alnum && IsDigit(c))
  }

  /** A subtag: one to eight characters of its class. */
  predicate IsSubtag(p: string, alnum: bool) {
    1 <= |p| <= 8 && forall k :: 0 <= k < |p| ==> InClass(p[k], alnum)
  }

  /** Every piece after the first is a letter-or-digit subtag. */
  predicate TailSubtags(parts: seq<string>) {
    forall k :: 1 <= k < |parts| ==> IsSubtag(parts[k], true)
  }

  /** The xs:language grammar `[a-zA-Z]{1,8}(-[a-zA-Z0-9]{1,8})*` over the
      whole string: its hyphen-separated pieces are a letter subtag followed
      by letter-or-digit subtags. */
  predicate IsXsLanguage(s: string) {
    var parts := Strings.Split(s, '-');
    IsSubtag(parts[0], false) && TailSubtags(parts)
  }

  /** `t` is a (possibly empty) run of `-subtag` groups and nothing else. */
  predicate IsSubtagList(t: string) {
    var parts := Strings.Split(t, '-');
    parts[0] == "" && TailSubtags(parts)
  }

  /** What the greedy quantifier `[class]{1,max}` consumes at the start of
      `t`: the longest prefix of at most `max` characters of the class. */
  function Run(t: string, max: nat, alnum: bool): (n: nat)
    ensures n <= |t| && n <= max
    ensures forall k :: 0 <= k < n ==> InClass(t[k], alnum)
    ensures n < |t| && n < max ==> !InClass(t[n], alnum)
    decreases max
  {
    if |t| == 0 || max == 0 || !InClass(t[0], alnum) then 0
    else 1 + Run(t[1..], max - 1, alnum)
  }

  /** What the greedy group `(-[a-zA-Z0-9]{1,8})*` consumes at the start of
      `t`. Nothing follows the group in the pattern, so the engine never
      backtracks into it. */
  function SubtagsRun(t: string): (n: nat)
    ensures n <= |t|
    ensures n > 0 ==> t[0] == '-'
    decreases |t|
  {
    if 2 <= |t| && t[0] == '-' && InClass(t[1], true) then
      var m := 1 + Run(t[1..], 8, true);
      m + SubtagsRun(t[m..])
    else 0
  }

  /** The first index at or after `from` holding a letter. */
  function FirstLetter(s: string, from: nat): (r: Option<nat>)
    requires from <= |s|
    ensures r.None? <==> forall k :: from <= k < |s| ==> !IsLetter(s[k])
    ensures r.Some? ==> from <= r.value < |s| && IsLetter(s[r.value])
    ensures r.Some? ==> forall k :: from <= k < r.value ==> !IsLetter(s[k])
    decreases |s| - from
  {
    if from == |s| then None
    else if IsLetter(s[from]) then Some(from)
    else FirstLetter(s, from + 1)
  }

  /** Start and end of element 0 of `s.match(languageRegex)`: a match can
      start only at a letter and always succeeds there, so the first match
      starts at the first letter and extends as far as the greedy
      quantifiers take it. None where `match` returns null. */
  function FirstMatch(s: string): (m: Option<(nat, nat)>)
    ensures m.None? <==> forall k :: 0 <= k < |s| ==> !IsLetter(s[k])
    ensures m.Some? ==> m.value.0 < m.value.1 <= |s| && IsLetter(s[m.value.0])
  {
    match FirstLetter(s, 0)
    case None => None
    case Some(i) =>
      var e := i + Run(s[i..], 8, false);
      Some((i, e + SubtagsRun(s[e..])))
  }

  /** The outcome of a JavaScript call that may throw. */
  datatype Outcome = Returned(value: bool) | Threw

  /** `isTVAAudioLanguageType` as written: `s[0] === languageCode`, which
      throws a TypeError when `match` returned null. */
  function IsTVAAudioLanguageTypeAsWritten(s: string): (o: Outcome)
    ensures o.Threw? <==> forall k :: 0 <= k < |s| ==> !IsLetter(s[k])
  {
    match FirstMatch(s)
    case None => Threw
    case Some((i, e)) => Returned(s[i..e] == s)
  }

  /** `isTVAAudioLanguageType` with the missing-match case treated as a
      rejection instead of an exception. */
  function IsTVAAudioLanguageType(s: string): (r: bool)
    ensures r <==> IsTVAAudioLanguageTypeAsWritten(s) == Returned(true)
    ensures r ==> |s| > 0 && IsLetter(s[0]) && FirstMatch(s) == Some((0, |s|))
  {
    match FirstMatch(s)
    case None => false
    case Some((i, e)) => s[i..e] == s
  }

  /** A value with no letter at all, "123" for one, makes the source throw
      instead of returning false. */
  lemma DigitsOnlyLanguageThrows()
    ensures IsTVAAudioLanguageTypeAsWritten("123") == Threw
    ensures !IsTVAAudioLanguageType("123")
  {
    assert !IsLetter("123"[0]) && !IsLetter("123"[1]) && !IsLetter("123"[2]);
  }

  /** Wherever the source returns, the corrected check returns the same. */
  lemma AsWrittenAgreesWhenItReturns(s: string)
    ensures IsTVAAudioLanguageTypeAsWritten(s).Returned? ==>
      IsTVAAudioLanguageTypeAsWritten(s).value == IsTVAAudioLanguageType(s)
    ensures IsTVAAudioLanguageTypeAsWritten(s).Threw? ==> !IsTVAAudioLanguageType(s)
  {
  }

  /** After a maximal run of subtag characters, the piece the run starts is
      a subtag exactly when the run ends the piece. */
  lemma MaximalRunIsSubtag(t: string, alnum: bool)
    requires Run(t, 8, alnum) >= 1
    ensures var n := Run(t, 8, alnum);
            var u := Strings.Split(t[n..], '-');
            IsSubtag(t[..n] + u[0], alnum) <==> u[0] == ""
  {
    var n := Run(t, 8, alnum);
    var u := Strings.Split(t[n..], '-');
    var w := t[..n] + u[0];
    if u[0] != "" {
      assert |t[n..]| > 0 && t[n..][0] != '-';
      assert u[0][0] == t[n];
      assert w[n] == t[n];
      if n < 8 {
        assert !InClass(w[n], alnum);
      } else {
        assert |w| > 8;
      }
    } else {
      assert w == t[..n];
    }
  }

  lemma TailSubtagsNewHead(x: string, u: seq<string>)
    requires |u| >= 1
    ensures TailSubtags([x] + u[1..]) <==> TailSubtags(u)
  {
    assert forall k :: 1 <= k < |u| ==> ([x] + u[1..])[k] == u[k];
  }

  lemma TailSubtagsCons(x: string, u: seq<string>)
    requires |u| >= 1
    ensures TailSubtags([x] + u) <==> IsSubtag(u[0], true) && TailSubtags(u)
  {
    assert forall k :: 0 <= k < |u| ==> ([x] + u)[k + 1] == u[k];
    if IsSubtag(u[0], true) && TailSubtags(u) {
      forall k | 1 <= k < |u| + 1 ensures IsSubtag(([x] + u)[k], true) {
        assert ([x] + u)[k] == u[k - 1];
      }
    }
  }

  /** A string that starts with a hyphen not followed by a subtag character
      is neither consumed by the group nor a list of groups. */
  lemma NoGroupStart(t: string)
    requires |t| >= 1 && t[0] == '-'
    requires |t| == 1 || !InClass(t[1], true)
    ensures SubtagsRun(t) == 0
    ensures !IsSubtagList(t)
  {
    var parts := Strings.Split(t, '-');
    var q := Strings.Split(t[1..], '-');
    assert parts == [""] + q;
    assert parts[1] == q[0];
    if |t| > 1 && t[1] != '-' {
      assert q[0][0] == t[1];
    }
    assert !IsSubtag(parts[1], true);
  }

  /** One `-subtag` group at the front of `t`: the group consumes `t` exactly
      when the rest after the maximal run is itself a list of groups. */
  lemma OneGroup(t: string)
    requires 2 <= |t| && t[0] == '-' && InClass(t[1], true)
    ensures var m := 1 + Run(t[1..], 8, true);
            m <= |t| && (IsSubtagList(t) <==> IsSubtagList(t[m..]))
  {
    var t' := t[1..];
    var n := Run(t', 8, true);
    var m := 1 + n;
    assert t'[n..] == t[m..];
    var q := Strings.Split(t', '-');
    var u := Strings.Split(t[m..], '-');
    assert Strings.Split(t, '-') == [""] + q;
    Strings.SplitPrefix(t', n, '-');
    assert q == [t'[..n] + u[0]] + u[1..];
    MaximalRunIsSubtag(t', true);
    TailSubtagsCons("", q);
    TailSubtagsNewHead(t'[..n] + u[0], u);
  }

  /** The greedy group consumes all of `t` exactly when `t` is a list of
      `-subtag` groups. */
  lemma {:induction false} SubtagsRunExact(t: string)
    ensures SubtagsRun(t) == |t| <==> IsSubtagList(t)
    decreases |t|
  {
    if |t| == 0 {
    } else if t[0] != '-' {
      assert Strings.Split(t, '-')[0] != "";
    } else if |t| == 1 || !InClass(t[1], true) {
      NoGroupStart(t);
    } else {
      var m := 1 + Run(t[1..], 8, true);
      OneGroup(t);
      SubtagsRunExact(t[m..]);
      assert SubtagsRun(t) == m + SubtagsRun(t[m..]);
      assert |t[m..]| == |t| - m;
    }
  }

  /** A value that does not start with a letter is rejected by both: the
      first match, if any, starts later, and the first piece is not a
      letter subtag. */
  lemma LeadingNonLetter(s: string)
    requires |s| == 0 || !IsLetter(s[0])
    ensures !IsTVAAudioLanguageType(s)
    ensures !IsXsLanguage(s)
  {
    var parts := Strings.Split(s, '-');
    if |s| > 0 && s[0] != '-' {
      assert parts[0][0] == s[0];
    }
    assert !IsSubtag(parts[0], false);
    match FirstMatch(s)
    case None =>
    case Some((i, e)) =>
      assert i != 0;
      assert |s[i..e]| < |s|;
  }

  /** For a value that starts with a letter, the first match starts at 0 and
      covers the primary subtag run and then whatever the group consumes. */
  lemma LeadingLetterMatch(s: string)
    requires |s| > 0 && IsLetter(s[0])
    ensures FirstMatch(s).Some? && FirstMatch(s).value.0 == 0
    ensures var n := Run(s, 8, false);
            FirstMatch(s).value.1 == n + SubtagsRun(s[n..])
  {
    assert FirstLetter(s, 0) == Some(0);
    assert s[0..] == s;
    var n := Run(s, 8, false);
    assert Run(s[0..], 8, false) == n;
  }

  /** For a value that starts with a letter, the grammar holds exactly when
      what follows the maximal primary run is a list of `-subtag` groups. */
  lemma LeadingLetterGrammar(s: string)
    requires |s| > 0 && IsLetter(s[0])
    ensures var n := Run(s, 8, false);
            IsXsLanguage(s) <==> IsSubtagList(s[n..])
  {
    var parts := Strings.Split(s, '-');
    var n := Run(s, 8, false);
    var u := Strings.Split(s[n..], '-');
    Strings.SplitPrefix(s, n, '-');
    assert parts == [s[..n] + u[0]] + u[1..];
    MaximalRunIsSubtag(s, false);
    TailSubtagsNewHead(s[..n] + u[0], u);
  }

  /** A value that starts with a letter: the match covers it exactly when the
      pieces after the primary subtag are all subtags. */
  lemma LeadingLetter(s: string)
    requires |s| > 0 && IsLetter(s[0])
    ensures IsTVAAudioLanguageType(s) <==> IsXsLanguage(s)
  {
    var n := Run(s, 8, false);
    var e := n + SubtagsRun(s[n..]);
    LeadingLetterMatch(s);
    LeadingLetterGrammar(s);
    SubtagsRunExact(s[n..]);
    assert |s[0..e]| == e;
  }

  /** The source's whole-match idiom (corrected to reject where it throws)
      accepts exactly the strings of the xs:language grammar: a partial
      match is never accepted. */
  lemma TVAAudioLanguageTypeIsXsLanguage(s: string)
    ensures IsTVAAudioLanguageType(s) <==> IsXsLanguage(s)
  {
    if |s| > 0 && IsLetter(s[0]) {
      LeadingLetter(s);
    } else {
      LeadingNonLetter(s);
    }
  }
}
