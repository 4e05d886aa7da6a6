/**
 * Redaction of URL userinfo from error text. A URL runs from its "scheme://" to
 * the first whitespace; its userinfo is everything up to the last '@' in that
 * run. Bytes are modelled as characters.
 */
module Redactor {
  import opened Strings

  const SCHEME_END := "://"
  const MASK := "***@"

  predicate IsLetter(c: char) { 'a' <= c <= 'z' || 'A' <= c <= 'Z' }

  predicate IsSchemeByte(c: char) { IsLetter(c) || '0' <= c <= '9' || c == '+' || c == '-' || c == '.' }

  predicate IsBoundary(c: char) {
    c == ' ' || c == '\t' || c == '\n' || c == '\r' || c == '\U{000B}' || c == '\U{000C}'
  }

  /** The scheme bytes just before sep include a letter. */
  predicate SchemeBefore(msg: string, sep: nat)
    requires sep <= |msg|
  {
    sep > 0 && IsSchemeByte(msg[sep - 1]) && (IsLetter(msg[sep - 1]) || SchemeBefore(msg, sep - 1))
  }

  /** That is: back from sep there is a letter, and from it on nothing but letters, digits, '+', '-' and '.'. */
  lemma {:induction false} SchemeBeforeIff(msg: string, sep: nat)
    requires sep <= |msg|
    ensures SchemeBefore(msg, sep) <==> exists j ::
      && 0 <= j < sep && ('a' <= msg[j] <= 'z' || 'A' <= msg[j] <= 'Z')
      && forall k :: j <= k < sep ==>
           || 'a' <= msg[k] <= 'z' || 'A' <= msg[k] <= 'Z' || '0' <= msg[k] <= '9'
           || msg[k] == '+' || msg[k] == '-' || msg[k] == '.'
  {
    if sep > 0 { SchemeBeforeIff(msg, sep - 1); }
  }

  /** A URL's "://" stands at sep. */
  predicate URLAt(msg: string, sep: nat) {
    At(msg, SCHEME_END, sep) && SchemeBefore(msg, sep)
  }

  method HasSchemeBefore(msg: string, sep: nat) returns (r: bool)
    requires sep <= |msg|
    ensures r == SchemeBefore(msg, sep)
    ensures r <==> exists j ::
      && 0 <= j < sep && ('a' <= msg[j] <= 'z' || 'A' <= msg[j] <= 'Z')
      && forall k :: j <= k < sep ==>
           || 'a' <= msg[k] <= 'z' || 'A' <= msg[k] <= 'Z' || '0' <= msg[k] <= '9'
           || msg[k] == '+' || msg[k] == '-' || msg[k] == '.'
  {
    SchemeBeforeIff(msg, sep);
    var i := sep;
    while i > 0
      invariant 0 <= i <= sep && SchemeBefore(msg, i) == SchemeBefore(msg, sep)
    {
      var c := msg[i - 1];
      if !IsSchemeByte(c) { return false; }
      if IsLetter(c) { return true; }
      i := i - 1;
    }
    return false;
  }

  // ---- The rule, run by run -----------------------------------------------

  /** The end of the whitespace-free run at i. */
  function End(msg: string, i: nat): (e: nat)
    requires i <= |msg|
    ensures i <= e <= |msg| && (e < |msg| ==> IsBoundary(msg[e]))
    decreases |msg| - i
  {
    if i == |msg| || IsBoundary(msg[i]) then i else End(msg, i + 1)
  }

  lemma {:induction false} EndIsFirst(msg: string, i: nat)
    requires i <= |msg|
    ensures forall j :: i <= j < End(msg, i) ==> !IsBoundary(msg[j])
    decreases |msg| - i
  {
    if i < |msg| && !IsBoundary(msg[i]) { EndIsFirst(msg, i + 1); }
  }

  /** A URL's "://" never straddles the end of its run. */
  lemma {:induction false} URLEndsInRun(msg: string, s: nat, e: nat)
    requires s < e <= |msg| && URLAt(msg, s) && (e < |msg| ==> IsBoundary(msg[e]))
    ensures s + 3 <= e
  {
    AtShows(msg, SCHEME_END, s, 1);
    AtShows(msg, SCHEME_END, s, 2);
  }

  /** The first URL in the run msg[i..e]; e if there is none. */
  function FirstURL(msg: string, i: nat, e: nat): (s: nat)
    requires i <= e <= |msg| && (e < |msg| ==> IsBoundary(msg[e]))
    ensures i <= s <= e && (s < e ==> URLAt(msg, s) && s + 3 <= e)
    decreases e - i
  {
    if i == e then i
    else if URLAt(msg, i) then URLEndsInRun(msg, i, e); i
    else FirstURL(msg, i + 1, e)
  }

  /** One past the last '@' in msg[i..e], or i if there is none. */
  function PastLastAt(msg: string, i: nat, e: nat): (k: nat)
    requires i <= e <= |msg|
    ensures i <= k <= e
  {
    if i == e then i else if msg[e - 1] == '@' then e else PastLastAt(msg, i, e - 1)
  }

  lemma {:induction false} PastLastAtIsLast(msg: string, i: nat, e: nat)
    requires i <= e <= |msg|
    ensures var k := PastLastAt(msg, i, e); (k > i ==> msg[k - 1] == '@') && forall j :: k <= j < e ==> msg[j] != '@'
  {
    if i < e { PastLastAtIsLast(msg, i, e - 1); }
  }

  /** The run msg[i..e] with the userinfo of the URL at s masked; s is e if there is none. */
  function RunText(msg: string, i: nat, s: nat, e: nat): string
    requires i <= s <= e <= |msg| && (s < e ==> s + 3 <= e)
  {
    if s == e || PastLastAt(msg, s + 3, e) == s + 3 then msg[i..e]
    else msg[i..s + 3] + MASK + msg[PastLastAt(msg, s + 3, e)..e]
  }

  /** What is left to write of the run msg[i..e]. */
  function RedactRun(msg: string, i: nat, e: nat): string
    requires i <= e <= |msg| && (e < |msg| ==> IsBoundary(msg[e]))
  {
    RunText(msg, i, FirstURL(msg, i, e), e)
  }

  /** What is left to write of msg from i on. */
  function RedactFrom(msg: string, i: nat): string
    requires i <= |msg|
    decreases |msg| - i, 1
  {
    RedactRun(msg, i, End(msg, i)) + RedactAfter(msg, End(msg, i))
  }

  /** What is left to write from the whitespace that ends a run. */
  function RedactAfter(msg: string, e: nat): string
    requires e <= |msg|
    decreases |msg| - e, 0
  {
    if e == |msg| then "" else [msg[e]] + RedactFrom(msg, e + 1)
  }

  function Redact(msg: string): string { RedactFrom(msg, 0) }

  // ---- The loop -----------------------------------------------------------

  lemma {:induction false} Assoc(a: string, b: string, c: string)
    ensures a + b + c == a + (b + c)
  {}

  lemma {:induction false} Cut(msg: string, i: nat, j: nat, k: nat)
    requires i <= j <= k <= |msg|
    ensures msg[i..j] + msg[j..k] == msg[i..k]
  {}

  lemma {:induction false} RunStep(msg: string, i: nat, e: nat)
    requires i < e <= |msg| && !URLAt(msg, i) && (e < |msg| ==> IsBoundary(msg[e]))
    ensures RedactRun(msg, i, e) == [msg[i]] + RedactRun(msg, i + 1, e)
  {
    assert FirstURL(msg, i + 1, e) == FirstURL(msg, i, e);
    RunTextStep(msg, i, FirstURL(msg, i, e), e);
  }

  lemma {:induction false} RunTextStep(msg: string, i: nat, s: nat, e: nat)
    requires i < s <= e <= |msg| && (s < e ==> s + 3 <= e)
    ensures RunText(msg, i, s, e) == [msg[i]] + RunText(msg, i + 1, s, e)
  {
    FirstOff(msg, i, e);
    if s < e { MaskedOff(msg, i, s + 3, PastLastAt(msg, s + 3, e), e); }
  }

  lemma {:induction false} MaskedOff(msg: string, i: nat, j: nat, k: nat, e: nat)
    requires i < j <= k <= e <= |msg|
    ensures msg[i..j] + MASK + msg[k..e] == [msg[i]] + (msg[i + 1..j] + MASK + msg[k..e])
  {
    FirstOff(msg, i, j);
    Assoc([msg[i]], msg[i + 1..j], MASK);
    Assoc([msg[i]], msg[i + 1..j] + MASK, msg[k..e]);
  }

  lemma {:induction false} FirstOff(msg: string, i: nat, j: nat)
    requires i < j <= |msg|
    ensures msg[i..j] == [msg[i]] + msg[i + 1..j]
  {}

  lemma {:induction false} OneStep(msg: string, i: nat)
    requires i < |msg| && !URLAt(msg, i)
    ensures RedactFrom(msg, i) == [msg[i]] + RedactFrom(msg, i + 1)
  {
    var e := End(msg, i);
    if i < e {
      RunStep(msg, i, e);
      assert End(msg, i + 1) == e;
      Assoc([msg[i]], RedactRun(msg, i + 1, e), RedactAfter(msg, e));
    } else {
      assert RedactRun(msg, i, i) == "";
    }
  }

  lemma {:induction false} NoURLNoChange(msg: string, i: nat, j: nat)
    requires i <= j <= |msg| && forall k: nat :: i <= k < j ==> !URLAt(msg, k)
    ensures RedactFrom(msg, i) == msg[i..j] + RedactFrom(msg, j)
    decreases j - i
  {
    if i == j {
      assert msg[i..j] == "";
    } else {
      assert !URLAt(msg, i);
      var rest := RedactFrom(msg, j);
      calc {
        RedactFrom(msg, i);
        { OneStep(msg, i); }
        [msg[i]] + RedactFrom(msg, i + 1);
        { NoURLNoChange(msg, i + 1, j); }
        [msg[i]] + (msg[i + 1..j] + rest);
        { FirstOff(msg, i, j); Assoc([msg[i]], msg[i + 1..j], rest); }
        msg[i..j] + rest;
      }
    }
  }

  lemma {:induction false} URLRun(msg: string, s: nat)
    requires s < |msg| && URLAt(msg, s)
    ensures s + 3 <= |msg| && End(msg, s) == End(msg, s + 3)
  {
    AtShows(msg, SCHEME_END, s, 0);
    AtShows(msg, SCHEME_END, s, 1);
    AtShows(msg, SCHEME_END, s, 2);
    assert End(msg, s) == End(msg, s + 1) == End(msg, s + 2);
  }

  /** With no '@' ahead in it, a run is written out as it stands. */
  lemma {:induction false} RunWithoutAt(msg: string, i: nat, e: nat)
    requires i <= e <= |msg| && (e < |msg| ==> IsBoundary(msg[e])) && forall j :: i <= j < e ==> msg[j] != '@'
    ensures RedactRun(msg, i, e) == msg[i..e]
  {
    var s := FirstURL(msg, i, e);
    if s < e {
      URLEndsInRun(msg, s, e);
      PastLastAtIsLast(msg, s + 3, e);
    }
  }

  lemma {:induction false} AtURL(msg: string, s: nat, e: nat, k: nat)
    requires s + 3 <= |msg| && URLAt(msg, s) && e == End(msg, s + 3) && k == PastLastAt(msg, s + 3, e)
    ensures RedactFrom(msg, s) ==
      if k == s + 3 then msg[s..e] + RedactFrom(msg, e) else msg[s..s + 3] + MASK + RedactFrom(msg, k)
  {
    hide URLAt, SchemeBefore, IsBoundary;
    URLRun(msg, s);
    assert RedactFrom(msg, s) == RedactRun(msg, s, e) + RedactAfter(msg, e);
    RunAtURL(msg, s, e, k);
    EndFrom(msg, s + 3, k);
    if k == s + 3 {
      RunWithoutAt(msg, e, e);
      assert RedactFrom(msg, e) == RedactRun(msg, e, e) + RedactAfter(msg, e);
    } else {
      PastLastAtIsLast(msg, s + 3, e);
      RunWithoutAt(msg, k, e);
      Assoc(msg[s..s + 3] + MASK, msg[k..e], RedactAfter(msg, e));
    }
  }

  lemma {:induction false} RunAtURL(msg: string, s: nat, e: nat, k: nat)
    requires s + 3 <= e <= |msg| && URLAt(msg, s)
    requires (e < |msg| ==> IsBoundary(msg[e])) && k == PastLastAt(msg, s + 3, e)
    ensures RedactRun(msg, s, e) == if k == s + 3 then msg[s..e] else msg[s..s + 3] + MASK + msg[k..e]
  {
    assert FirstURL(msg, s, e) == s;
  }

  lemma {:induction false} EndFrom(msg: string, i: nat, j: nat)
    requires i <= |msg| && i <= j <= End(msg, i)
    ensures End(msg, j) == End(msg, i)
    decreases j - i
  {
    if i < j { EndFrom(msg, i + 1, j); }
  }

  /** b is what is written before i. */
  ghost predicate Written(msg: string, b: string, i: nat) {
    i <= |msg| && b + RedactFrom(msg, i) == Redact(msg)
  }

  /** The next write when no URL starts before j. */
  lemma {:induction false} SkipTo(b: string, msg: string, i: nat, j: nat)
    requires i <= j <= |msg| && forall k: nat :: i <= k < j ==> !URLAt(msg, k)
    ensures b + RedactFrom(msg, i) == b + msg[i..j] + RedactFrom(msg, j)
    ensures Written(msg, b, i) ==> Written(msg, b + msg[i..j], j)
  {
    NoURLNoChange(msg, i, j);
    Assoc(b, msg[i..j], RedactFrom(msg, j));
  }

  /** The next write at the first URL from i, whose run ends at e: past its last '@' at k, or the whole run. */
  lemma {:induction false} WriteURL(b: string, msg: string, i: nat, s: nat, e: nat, k: nat)
    requires i <= s && At(msg, SCHEME_END, s) && SchemeBefore(msg, s)
    requires forall j: nat :: i <= j < s ==> !At(msg, SCHEME_END, j)
    requires Written(msg, b, i) && e == End(msg, s + 3) && k == PastLastAt(msg, s + 3, e)
    ensures k == s + 3 ==> Written(msg, b + msg[i..e], e)
    ensures k > s + 3 ==> Written(msg, b + msg[i..s + 3] + MASK, k)
  {
    SkipTo(b, msg, i, s);
    AtURL(msg, s, e, k);
    if k == s + 3 {
      Regroup(b, msg, i, s, e, "", RedactFrom(msg, e));
    } else {
      Regroup(b, msg, i, s, s + 3, MASK, RedactFrom(msg, k));
    }
  }

  lemma {:induction false} Regroup(b: string, msg: string, i: nat, s: nat, j: nat, m: string, rest: string)
    requires i <= s <= j <= |msg|
    ensures b + msg[i..s] + (msg[s..j] + m + rest) == b + msg[i..j] + m + rest
    ensures msg[s..j] + "" + rest == msg[s..j] + rest && b + msg[i..j] + "" + rest == b + msg[i..j] + rest
  {
    calc {
      b + msg[i..s] + (msg[s..j] + m + rest);
      { Assoc(msg[s..j], m, rest); }
      b + msg[i..s] + (msg[s..j] + (m + rest));
      { Assoc(b + msg[i..s], msg[s..j], m + rest); }
      b + msg[i..s] + msg[s..j] + (m + rest);
      { Assoc(b, msg[i..s], msg[s..j]); Cut(msg, i, s, j); }
      b + msg[i..j] + (m + rest);
      { Assoc(b + msg[i..j], m, rest); }
      b + msg[i..j] + m + rest;
    }
  }

  lemma {:induction false} WithoutURLs(msg: string, i: nat)
    requires i <= |msg| && forall k: nat :: i <= k ==> !At(msg, SCHEME_END, k)
    ensures RedactFrom(msg, i) == msg[i..]
  {
    forall k: nat | i <= k < |msg| ensures !URLAt(msg, k) { assert !At(msg, SCHEME_END, k); }
    NoURLNoChange(msg, i, |msg|);
    NothingLeft(msg);
  }

  lemma {:induction false} NothingLeft(msg: string)
    ensures RedactFrom(msg, |msg|) == ""
  {}

  /** A "://" does not overlap another. */
  lemma {:induction false} NoOverlap(msg: string, sep: nat)
    requires At(msg, SCHEME_END, sep)
    ensures sep + 3 <= |msg| && !At(msg, SCHEME_END, sep + 1) && !At(msg, SCHEME_END, sep + 2)
  {
    AtShows(msg, SCHEME_END, sep, 1);
    AtShows(msg, SCHEME_END, sep, 2);
    if At(msg, SCHEME_END, sep + 1) { AtShows(msg, SCHEME_END, sep + 1, 0); }
    if At(msg, SCHEME_END, sep + 2) { AtShows(msg, SCHEME_END, sep + 2, 0); }
  }

  /** A "://" with no scheme before it starts no URL, nor does anything up to its end. */
  lemma {:induction false} SkipPlain(b: string, msg: string, i: nat, sep: nat)
    requires i <= sep && At(msg, SCHEME_END, sep) && !SchemeBefore(msg, sep) && Written(msg, b, i)
    requires forall j: nat :: i <= j < sep ==> !At(msg, SCHEME_END, j)
    ensures Written(msg, b + msg[i..sep + 3], sep + 3)
  {
    NoOverlap(msg, sep);
    forall k: nat | i <= k < sep + 3 ensures !URLAt(msg, k) {
      assert k < sep || k == sep || k == sep + 1 || k == sep + 2;
    }
    SkipTo(b, msg, i, sep + 3);
  }

  method EndOfRun(msg: string, i: nat) returns (end: nat)
    requires i <= |msg|
    ensures end == End(msg, i)
  {
    end := i;
    while end < |msg| && !IsBoundary(msg[end])
      invariant end <= |msg| && End(msg, i) == End(msg, end)
    {
      end := end + 1;
    }
  }

  method LastIndexAt(msg: string, lo: nat, hi: nat) returns (at: int)
    requires lo <= hi <= |msg|
    ensures at == -1 || lo <= at < hi
    ensures PastLastAt(msg, lo, hi) == if at == -1 then lo else at + 1
  {
    at := hi;
    while at > lo
      invariant lo <= at <= hi && PastLastAt(msg, lo, hi) == PastLastAt(msg, lo, at)
    {
      at := at - 1;
      if msg[at] == '@' { return; }
    }
    at := -1;
  }

  /** What is written by the end of the turn that meets the "://" at sep, and where the next turn starts. */
  function Turn(msg: string, b: string, i: nat, sep: nat): (string, nat)
    requires i <= sep && sep + 3 <= |msg|
  {
    if !SchemeBefore(msg, sep) then (b + msg[i..sep + 3], sep + 3)
    else
      var e := End(msg, sep + 3);
      var k := PastLastAt(msg, sep + 3, e);
      if k == sep + 3 then (b + msg[i..e], e) else (b + msg[i..sep + 3] + MASK, k)
  }

  lemma {:induction false} TurnKeepsWritten(msg: string, b: string, i: nat, sep: nat)
    requires i <= sep && At(msg, SCHEME_END, sep) && Written(msg, b, i)
    requires forall j: nat :: i <= j < sep ==> !At(msg, SCHEME_END, j)
    ensures var (b', i') := Turn(msg, b, i, sep); Written(msg, b', i') && i < i' <= |msg|
  {
    if SchemeBefore(msg, sep) {
      var e := End(msg, sep + 3);
      WriteURL(b, msg, i, sep, e, PastLastAt(msg, sep + 3, e));
    } else {
      SkipPlain(b, msg, i, sep);
    }
  }

  method TakeTurn(msg: string, b: string, i: nat, sep: nat) returns (b': string, i': nat)
    requires i <= sep && sep + 3 <= |msg|
    ensures (b', i') == Turn(msg, b, i, sep)
  {
    var after := sep + |SCHEME_END|;
    var scheme := HasSchemeBefore(msg, sep);
    if !scheme {
      return b + msg[i..after], after;
    }
    var end := EndOfRun(msg, after);
    var at := LastIndexAt(msg, after, end);
    if at < 0 {
      return b + msg[i..end], end;
    }
    b' := b + msg[i..after];
    b' := b' + MASK;
    i' := at + 1;
  }

  method RedactURLUserinfo(msg: string) returns (r: string)
    ensures r == Redact(msg)
  {
    var sep := Index(msg, SCHEME_END);
    if sep < 0 {
      WithoutURLs(msg, 0);
      return msg;
    }
    var b, i := "", 0;
    while true
      invariant i <= |msg| && Written(msg, b, i)
      decreases |msg| - i
    {
      sep := IndexFrom(msg, SCHEME_END, i);
      if sep < 0 { break; }
      TurnKeepsWritten(msg, b, i, sep);
      b, i := TakeTurn(msg, b, i, sep);
    }
    WithoutURLs(msg, i);
    r := b + msg[i..];
  }
}
