/** What redaction guarantees: userinfo never shows, whatever surrounds it; and a second pass changes nothing. */
module RedactorTheorems {
  import opened Strings
  import opened Redactor
  import opened MarketplaceURL

  ghost predicate Blankless(s: string) { forall i :: 0 <= i < |s| ==> !IsBoundary(s[i]) }

  lemma {:induction false} BlanklessIff(s: string)
    ensures Blankless(s) <==> forall i :: 0 <= i < |s| ==> s[i] !in " \t\n\r\U{000B}\U{000C}"
  {
    forall i | 0 <= i < |s| ensures IsBoundary(s[i]) <==> s[i] in " \t\n\r\U{000B}\U{000C}" { BoundaryIff(s[i]); }
  }

  lemma {:induction false} BoundaryIff(c: char)
    ensures IsBoundary(c) <==> c in " \t\n\r\U{000B}\U{000C}"
  {
    var blanks := " \t\n\r\U{000B}\U{000C}";
    assert blanks[0] == ' ' && blanks[1] == '\t' && blanks[2] == '\n' && blanks[3] == '\r';
    assert blanks[4] == '\U{000B}' && blanks[5] == '\U{000C}' && |blanks| == 6;
  }

  // ---- Nothing before a byte that no scheme contains matters ---------------

  /** n is what m holds from d on, and no scheme of m reaches across d. */
  ghost predicate Local(m: string, d: nat, n: string) {
    && |m| == d + |n| && (forall x {:trigger n[x]} :: 0 <= x < |n| ==> m[d + x] == n[x])
    && (d > 0 ==> !IsSchemeByte(m[d - 1]))
  }

  lemma {:induction false} SchemeIsLocal(m: string, d: nat, n: string, j: nat)
    requires Local(m, d, n) && j <= |n|
    ensures SchemeBefore(m, d + j) == SchemeBefore(n, j)
  {
    if j > 0 {
      assert m[d + j - 1] == n[j - 1];
      SchemeIsLocal(m, d, n, j - 1);
    }
  }

  lemma {:induction false} Slice(m: string, d: nat, n: string, i: nat, j: nat)
    requires Local(m, d, n) && i <= j <= |n|
    ensures m[d + i..d + j] == n[i..j]
  {
    forall x | 0 <= x < j - i ensures m[d + i..d + j][x] == n[i..j][x] { assert n[i + x] == m[d + (i + x)]; }
  }

  lemma {:induction false} URLIsLocal(m: string, d: nat, n: string, j: nat)
    requires Local(m, d, n) && j <= |n|
    ensures URLAt(m, d + j) == URLAt(n, j)
  {
    SchemeIsLocal(m, d, n, j);
    if j + 3 <= |n| { Slice(m, d, n, j, j + 3); }
  }

  lemma {:induction false} EndIsLocal(m: string, d: nat, n: string, j: nat)
    requires Local(m, d, n) && j <= |n|
    ensures End(m, d + j) == d + End(n, j)
    decreases |n| - j
  {
    if j < |n| {
      assert m[d + j] == n[j];
      EndIsLocal(m, d, n, j + 1);
    }
  }

  lemma {:induction false} FirstURLIsLocal(m: string, d: nat, n: string, j: nat, e: nat)
    requires Local(m, d, n) && j <= e <= |n| && (e < |n| ==> IsBoundary(n[e]))
    ensures FirstURL(m, d + j, d + e) == d + FirstURL(n, j, e)
    decreases e - j
  {
    hide URLAt;
    URLIsLocal(m, d, n, j);
    if j < e { FirstURLIsLocal(m, d, n, j + 1, e); }
  }

  lemma {:induction false} PastLastAtIsLocal(m: string, d: nat, n: string, j: nat, e: nat)
    requires Local(m, d, n) && j <= e <= |n|
    ensures PastLastAt(m, d + j, d + e) == d + PastLastAt(n, j, e)
    decreases e
  {
    if j < e {
      assert m[d + (e - 1)] == n[e - 1];
      PastLastAtIsLocal(m, d, n, j, e - 1);
    }
  }

  lemma {:induction false} RunTextIsLocal(m: string, d: nat, n: string, j: nat, s: nat, e: nat)
    requires Local(m, d, n) && j <= s <= e <= |n| && (s < e ==> s + 3 <= e)
    ensures RunText(m, d + j, d + s, d + e) == RunText(n, j, s, e)
  {
    Slice(m, d, n, j, e);
    if s < e {
      var k := PastLastAt(n, s + 3, e);
      PastLastAtIsLocal(m, d, n, s + 3, e);
      assert PastLastAt(m, d + s + 3, d + e) == d + k;
      Slice(m, d, n, j, s + 3);
      assert m[d + j..d + s + 3] == n[j..s + 3];
      Slice(m, d, n, k, e);
    }
  }

  lemma {:induction false} RunIsLocal(m: string, d: nat, n: string, j: nat, e: nat)
    requires Local(m, d, n) && j <= e <= |n| && (e < |n| ==> IsBoundary(n[e]))
    ensures RedactRun(m, d + j, d + e) == RedactRun(n, j, e)
  {
    hide RunText, URLAt;
    FirstURLIsLocal(m, d, n, j, e);
    RunTextIsLocal(m, d, n, j, FirstURL(n, j, e), e);
  }

  lemma {:induction false} RedactIsLocal(m: string, d: nat, n: string, j: nat)
    requires Local(m, d, n) && j <= |n|
    ensures RedactFrom(m, d + j) == RedactFrom(n, j)
    decreases |n| - j
  {
    hide RedactRun;
    var e := End(n, j);
    EndIsLocal(m, d, n, j);
    RunIsLocal(m, d, n, j, e);
    if e < |n| {
      assert m[d + e] == n[e];
      RedactIsLocal(m, d, n, e + 1);
    }
  }

  // ---- Nothing after a run matters to it ----------------------------------

  lemma {:induction false} SchemeSame(m: string, n: string, s: nat)
    requires s <= |m| && s <= |n| && m[..s] == n[..s]
    ensures SchemeBefore(m, s) == SchemeBefore(n, s)
  {
    if s > 0 {
      assert m[s - 1] == m[..s][s - 1] == n[..s][s - 1] == n[s - 1];
      assert m[..s - 1] == m[..s][..s - 1] == n[..s][..s - 1] == n[..s - 1];
      SchemeSame(m, n, s - 1);
    }
  }

  lemma {:induction false} URLSame(m: string, n: string, s: nat)
    requires s + 3 <= |m| && s + 3 <= |n| && m[..s + 3] == n[..s + 3]
    ensures URLAt(m, s) == URLAt(n, s)
  {
    assert m[s..s + 3] == m[..s + 3][s..] == n[..s + 3][s..] == n[s..s + 3];
    assert m[..s] == m[..s + 3][..s] == n[..s + 3][..s] == n[..s];
    SchemeSame(m, n, s);
  }

  lemma {:induction false} FirstURLSame(m: string, n: string, i: nat, s: nat, e: nat, e': nat)
    requires i <= s && s + 3 <= e <= |m| && s + 3 <= e' <= |n| && m[..s + 3] == n[..s + 3]
    requires (e < |m| ==> IsBoundary(m[e])) && (e' < |n| ==> IsBoundary(n[e'])) && FirstURL(m, i, e) == s
    ensures FirstURL(n, i, e') == s
    decreases s - i
  {
    assert m[..i + 3] == m[..s + 3][..i + 3] == n[..s + 3][..i + 3] == n[..i + 3];
    URLSame(m, n, i);
    if i < s { FirstURLSame(m, n, i + 1, s, e, e'); }
  }

  lemma {:induction false} EndSame(m: string, n: string, i: nat, e: nat)
    requires i <= e <= |m| && e <= |n| && m[..e] == n[..e] && e == End(m, i) && (e < |n| ==> IsBoundary(n[e]))
    ensures End(n, i) == e
    decreases e - i
  {
    if i < e {
      assert n[i] == n[..e][i] == m[..e][i] == m[i];
      EndSame(m, n, i + 1, e);
    }
  }

  lemma {:induction false} PastLastAtSame(m: string, n: string, i: nat, e: nat)
    requires i <= e <= |m| && e <= |n| && m[..e] == n[..e]
    ensures PastLastAt(n, i, e) == PastLastAt(m, i, e)
  {
    if i < e {
      assert n[e - 1] == n[..e][e - 1] == m[..e][e - 1] == m[e - 1];
      assert m[..e - 1] == m[..e][..e - 1] == n[..e][..e - 1] == n[..e - 1];
      PastLastAtSame(m, n, i, e - 1);
    }
  }

  lemma {:induction false} NoURLSame(m: string, n: string, i: nat, e: nat)
    requires i <= e <= |m| && e <= |n| && m[..e] == n[..e]
    requires (e < |m| ==> IsBoundary(m[e])) && (e < |n| ==> IsBoundary(n[e])) && FirstURL(m, i, e) == e
    ensures FirstURL(n, i, e) == e
    decreases e - i
  {
    if i < e {
      if URLAt(n, i) {
        URLEndsInRun(n, i, e);
        assert m[..i + 3] == m[..e][..i + 3] == n[..e][..i + 3] == n[..i + 3];
        URLSame(m, n, i);
      }
      NoURLSame(m, n, i + 1, e);
    }
  }

  lemma {:induction false} RunSame(m: string, n: string, i: nat, e: nat)
    requires i <= e <= |m| && e <= |n| && m[..e] == n[..e]
    requires (e < |m| ==> IsBoundary(m[e])) && (e < |n| ==> IsBoundary(n[e]))
    ensures RedactRun(n, i, e) == RedactRun(m, i, e)
  {
    assert m[i..e] == m[..e][i..] == n[..e][i..] == n[i..e];
    var s := FirstURL(m, i, e);
    if s == e {
      NoURLSame(m, n, i, e);
    } else {
      URLEndsInRun(m, s, e);
      assert m[..s + 3] == m[..e][..s + 3] == n[..e][..s + 3] == n[..s + 3];
      FirstURLSame(m, n, i, s, e, e);
      RunTextSame(m, n, i, s, e);
    }
  }

  lemma {:induction false} RunTextSame(m: string, n: string, i: nat, s: nat, e: nat)
    requires i <= s && s + 3 <= e <= |m| && e <= |n| && m[..e] == n[..e]
    ensures RunText(n, i, s, e) == RunText(m, i, s, e)
  {
    PastLastAtSame(m, n, s + 3, e);
    forall p: nat, q: nat | p <= q <= e ensures m[p..q] == n[p..q] {
      assert m[p..q] == m[..e][p..q] == n[..e][p..q] == n[p..q];
    }
  }

  lemma {:induction false} OneRun(t: string)
    requires Blankless(t)
    ensures Redact(t) == RedactRun(t, 0, |t|)
  {
    EndOfBlankless(t, 0);
    assert RedactAfter(t, |t|) == "" && Redact(t) == RedactRun(t, 0, |t|) + RedactAfter(t, |t|);
  }

  lemma {:induction false} RestIsLocal(t: string, c: char, rest: string)
    requires IsBoundary(c)
    ensures RedactAfter(t + [c] + rest, |t|) == [c] + Redact(rest)
  {
    var m := t + [c] + rest;
    assert m[|t|] == c;
    RedactIsLocal(m, |t| + 1, rest, 0);
  }

  /** Redaction works run by run. */
  lemma {:induction false} RunThenRest(t: string, c: char, rest: string)
    requires Blankless(t) && IsBoundary(c)
    ensures Redact(t + [c] + rest) == Redact(t) + [c] + Redact(rest)
  {
    var m, e := t + [c] + rest, |t|;
    OneRun(t);
    EndOfBlankless(t, 0);
    assert m[..e] == t[..e] && m[e] == c;
    EndSame(t, m, 0, e);
    RunSame(t, m, 0, e);
    RestIsLocal(t, c, rest);
    calc {
      Redact(m);
      RedactRun(m, 0, e) + RedactAfter(m, e);
      Redact(t) + ([c] + Redact(rest));
      { Assoc(Redact(t), [c], Redact(rest)); }
      Redact(t) + [c] + Redact(rest);
    }
  }

  /** Text on either side of a space, tab, line feed, carriage return, vertical tab or form feed is redacted apart. */
  lemma {:induction false} BlankSeparates(a: string, c: char, b: string)
    requires c in " \t\n\r\U{000B}\U{000C}"
    ensures Redact(a + [c] + b) == Redact(a) + [c] + Redact(b)
    decreases |a|
  {
    hide Redact;
    BoundaryIff(c);
    EndIsFirst(a, 0);
    var e := End(a, 0);
    var t := a[..e];
    if e == |a| {
      assert t == a;
      RunThenRest(a, c, b);
    } else {
      var d, rest := a[e], a[e + 1..];
      BoundaryIff(d);
      assert a == t + [d] + rest && a + [c] + b == t + [d] + (rest + [c] + b);
      RunThenRest(t, d, rest);
      RunThenRest(t, d, rest + [c] + b);
      BlankSeparates(rest, c, b);
      FiveParts(Redact(t), [d], Redact(rest), [c], Redact(b));
    }
  }

  lemma {:induction false} FiveParts(a: string, b: string, c: string, d: string, e: string)
    ensures a + b + (c + d + e) == a + b + c + d + e
  {}

  lemma {:induction false} EndOfBlankless(t: string, i: nat)
    requires Blankless(t) && i <= |t|
    ensures End(t, i) == |t|
    decreases |t| - i
  {
    if i < |t| { EndOfBlankless(t, i + 1); }
  }

  // ---- One run ------------------------------------------------------------

  /** A run carries no userinfo that shows: no URL, no '@' past its "://", or only the mask. */
  ghost predicate Masked(t: string) {
    var s := FirstURL(t, 0, |t|);
    s < |t| ==>
      s + 3 <= |t| && var k := PastLastAt(t, s + 3, |t|); k == s + 3 || t[s + 3..k] == MASK
  }

  /** A run is left as it is exactly when it shows no userinfo. */
  lemma {:induction false} RunKeptIff(t: string)
    requires Blankless(t)
    ensures Redact(t) == t <==> Masked(t)
  {
    hide URLAt;
    OneRun(t);
    assert t[0..|t|] == t;
    var s := FirstURL(t, 0, |t|);
    if s < |t| {
      URLEndsInRun(t, s, |t|);
      MaskedInPlaceIff(t, s + 3, PastLastAt(t, s + 3, |t|));
    }
  }

  lemma {:induction false} MaskedInPlaceIff(t: string, x: nat, y: nat)
    requires x <= y <= |t|
    ensures t[0..x] + MASK + t[y..|t|] == t <==> t[x..y] == MASK
  {
    var r := t[0..x] + MASK + t[y..|t|];
    assert t == t[0..x] + t[x..y] + t[y..|t|];
    assert r[x..x + 4] == MASK && |r| == x + 4 + |t| - y;
  }

  lemma {:induction false} RunIsMasked(t: string)
    requires Blankless(t)
    ensures Blankless(Redact(t)) && Masked(Redact(t))
  {
    OneRun(t);
    assert t[0..|t|] == t;
    var s := FirstURL(t, 0, |t|);
    if s < |t| {
      URLEndsInRun(t, s, |t|);
      var k := PastLastAt(t, s + 3, |t|);
      if k > s + 3 { MaskShows(t, s, k); }
    }
  }

  lemma {:induction false} MaskShows(t: string, s: nat, k: nat)
    requires Blankless(t) && s + 3 < k <= |t| && FirstURL(t, 0, |t|) == s && k == PastLastAt(t, s + 3, |t|)
    ensures var r := t[0..s + 3] + MASK + t[k..|t|]; Blankless(r) && Masked(r)
  {
    var r := t[0..s + 3] + MASK + t[k..|t|];
    PastLastAtIsLast(t, s + 3, |t|);
    MaskedParts(t, s + 3, k);
    FirstURLSame(t, r, 0, s, |t|, |r|);
    PastLastAtIs(r, s + 3, |r|, s + 7);
  }

  lemma {:induction false} MaskedParts(t: string, x: nat, k: nat)
    requires Blankless(t) && x < k <= |t| && forall j :: k <= j < |t| ==> t[j] != '@'
    ensures var r := t[0..x] + MASK + t[k..|t|];
      && r[..x] == t[..x] && r[x..x + 4] == MASK && r[x + 3] == '@'
      && Blankless(r) && forall j :: x + 4 <= j < |r| ==> r[j] != '@'
  {
    var r := t[0..x] + MASK + t[k..|t|];
    assert forall j :: x + 4 <= j < |r| ==> r[j] == t[j - x - 4 + k];
  }

  lemma {:induction false} PastLastAtIs(m: string, i: nat, e: nat, k: nat)
    requires i < k <= e <= |m| && m[k - 1] == '@' && forall j :: k <= j < e ==> m[j] != '@'
    ensures PastLastAt(m, i, e) == k
  {
    if e > k { PastLastAtIs(m, i, e - 1, k); }
  }

  // ---- Whole texts --------------------------------------------------------

  /** Redacting redacted text changes nothing. */
  lemma {:induction false} RedactIsIdempotent(m: string)
    ensures Redact(Redact(m)) == Redact(m)
    decreases |m|
  {
    var e := End(m, 0);
    var t := m[..e];
    EndIsFirst(m, 0);
    RunIsMasked(t);
    RunKeptIff(Redact(t));
    if e < |m| {
      var c, rest := m[e], m[e + 1..];
      assert m == t + [c] + rest;
      RunThenRest(t, c, rest);
      RedactIsIdempotent(rest);
      RunThenRest(Redact(t), c, Redact(rest));
    } else {
      assert m == t;
    }
  }

  // ---- Userinfo never shows -----------------------------------------------

  /** What is written of text that ends in a URL's "://", up to the "://" of the first URL of its last run. */
  function Head(q: string, i: nat): string
    requires i <= |q|
    decreases |q| - i
  {
    var e := End(q, i);
    if e < |q| then RedactRun(q, i, e) + [q[e]] + Head(q, e + 1)
    else q[i..if FirstURL(q, i, e) < e then FirstURL(q, i, e) + 3 else e]
  }

  lemma {:induction false} EndSkips(m: string, i: nat, j: nat)
    requires i <= j <= |m| && forall k :: i <= k < j ==> !IsBoundary(m[k])
    ensures End(m, i) == End(m, j)
    decreases j - i
  {
    if i < j { EndSkips(m, i + 1, j); }
  }

  lemma {:induction false} FirstURLBy(m: string, i: nat, e: nat, x: nat)
    requires i <= x < e <= |m| && (e < |m| ==> IsBoundary(m[e])) && URLAt(m, x)
    ensures FirstURL(m, i, e) <= x
    decreases x - i
  {
    if i < x && !URLAt(m, i) { FirstURLBy(m, i + 1, e, x); }
  }

  lemma {:induction false} PastLastAtSkips(m: string, i: nat, d: nat, e: nat)
    requires i < d <= e <= |m| && m[d - 1] == '@'
    ensures PastLastAt(m, i, e) == PastLastAt(m, d, e)
    decreases e
  {
    if d < e { PastLastAtSkips(m, i, d, e - 1); }
  }

  /** A run is written masked at its first URL, and goes on past its last '@'. */
  lemma {:induction false} RunMasked(m: string, i: nat, s: nat, e: nat, k: nat)
    requires i <= s && s + 3 < k <= e <= |m| && e == End(m, i) && s == FirstURL(m, i, e) && k == PastLastAt(m, s + 3, e)
    ensures RedactFrom(m, i) == m[i..s + 3] + MASK + RedactFrom(m, k)
  {
    hide URLAt, FirstURL, End, IsBoundary;
    PastLastAtIsLast(m, s + 3, e);
    RunWithoutAt(m, k, e);
    EndFrom(m, i, k);
    Assoc(m[i..s + 3] + MASK, m[k..e], RedactAfter(m, e));
    assert RedactRun(m, i, e) == m[i..s + 3] + MASK + m[k..e];
    assert RedactFrom(m, k) == m[k..e] + RedactAfter(m, e);
  }

  /** m is q, then userinfo, then an '@' before d, then r. */
  ghost predicate Joined(m: string, q: string, r: string, d: nat) {
    && |q| < d && |m| == d + |r| && m[..|q|] == q && m[d - 1] == '@' && m[d..] == r
    && (forall k :: |q| <= k < d ==> !IsBoundary(m[k]))
    && |q| >= 3 && URLAt(q, |q| - 3)
  }

  lemma {:induction false} JoinedIsLocal(m: string, q: string, r: string, d: nat)
    requires Joined(m, q, r, d)
    ensures Local(m, d, r)
  {
    forall x | 0 <= x < |r| ensures m[d + x] == r[x] { assert m[d..][x] == r[x]; }
  }

  /** The run of m that holds q's end holds the userinfo and r's first run. */
  lemma {:induction false} JoinedRun(m: string, q: string, r: string, d: nat, i: nat)
    requires Joined(m, q, r, d) && i <= |q| - 3 && End(q, i) == |q|
    ensures End(m, i) == d + End(r, 0)
  {
    JoinedIsLocal(m, q, r, d);
    EndIsFirst(q, i);
    assert forall x :: i <= x < |q| ==> m[x] == m[..|q|][x];
    EndSkips(m, i, d);
    EndIsLocal(m, d, r, 0);
  }

  lemma {:induction false} JoinedURL(m: string, q: string, r: string, d: nat, i: nat, e: nat)
    requires Joined(m, q, r, d) && i <= |q| - 3 && |q| < e <= |m| && (e < |m| ==> IsBoundary(m[e]))
    ensures var s := FirstURL(q, i, |q|); s + 3 <= |q| && FirstURL(m, i, e) == s && m[i..s + 3] == q[i..s + 3]
  {
    var n := |q|;
    var s := FirstURL(q, i, n);
    FirstURLBy(q, i, n, n - 3);
    assert m[..s + 3] == m[..n][..s + 3] == q[..s + 3];
    assert m[i..s + 3] == m[..n][i..s + 3] == q[i..s + 3];
    FirstURLSame(q, m, i, s, n, e);
  }

  lemma {:induction false} JoinedPast(m: string, q: string, r: string, d: nat, j: nat)
    requires Joined(m, q, r, d) && j <= |q|
    ensures PastLastAt(m, j, d + End(r, 0)) == d + PastLastAt(r, 0, End(r, 0))
  {
    JoinedIsLocal(m, q, r, d);
    PastLastAtSkips(m, j, d, d + End(r, 0));
    PastLastAtIsLocal(m, d, r, 0, End(r, 0));
  }

  lemma {:induction false} LastRunMasked(m: string, q: string, r: string, d: nat, i: nat)
    requires Joined(m, q, r, d) && i <= |q| - 3 && End(q, i) == |q|
    ensures RedactFrom(m, i) == Head(q, i) + MASK + RedactFrom(r, PastLastAt(r, 0, End(r, 0)))
  {
    hide RedactFrom, Head, URLAt;
    var e, s, k := d + End(r, 0), FirstURL(q, i, |q|), PastLastAt(r, 0, End(r, 0));
    JoinedRun(m, q, r, d, i);
    JoinedURL(m, q, r, d, i, e);
    JoinedPast(m, q, r, d, s + 3);
    HeadOfLastRun(q, i, s);
    calc {
      RedactFrom(m, i);
      { RunMasked(m, i, s, e, d + k); }
      m[i..s + 3] + MASK + RedactFrom(m, d + k);
      { JoinedIsLocal(m, q, r, d); RedactIsLocal(m, d, r, k); }
      Head(q, i) + MASK + RedactFrom(r, k);
    }
  }

  lemma {:induction false} HeadOfLastRun(q: string, i: nat, s: nat)
    requires i <= s && s + 3 <= |q| && End(q, i) == |q| && FirstURL(q, i, |q|) == s
    ensures Head(q, i) == q[i..s + 3]
  {}

  lemma {:induction false} EarlierRun(m: string, q: string, r: string, d: nat, i: nat, e: nat)
    requires Joined(m, q, r, d) && i <= |q| - 3 && e == End(q, i) < |q|
    ensures e < |q| - 3 && End(m, i) == e && RedactRun(m, i, e) == RedactRun(q, i, e) && m[e] == q[e]
  {
    AtShows(q, SCHEME_END, |q| - 3, 0);
    AtShows(q, SCHEME_END, |q| - 3, 1);
    AtShows(q, SCHEME_END, |q| - 3, 2);
    assert e < |q| - 3;
    assert m[..e] == m[..|q|][..e] == q[..e] && m[e] == m[..|q|][e] == q[e];
    EndSame(q, m, i, e);
    RunSame(q, m, i, e);
  }

  lemma {:induction false} HeadThenMask(m: string, q: string, r: string, d: nat, i: nat)
    requires Joined(m, q, r, d) && i <= |q| - 3
    ensures RedactFrom(m, i) == Head(q, i) + MASK + RedactFrom(r, PastLastAt(r, 0, End(r, 0)))
    decreases |q| - i
  {
    hide RedactRun;
    var e := End(q, i);
    if e == |q| {
      LastRunMasked(m, q, r, d, i);
    } else {
      EarlierRun(m, q, r, d, i, e);
      HeadThenMask(m, q, r, d, e + 1);
      Regroups(RedactRun(q, i, e), [q[e]], Head(q, e + 1), MASK, RedactFrom(r, PastLastAt(r, 0, End(r, 0))));
    }
  }

  lemma {:induction false} Regroups(a: string, b: string, c: string, d: string, e: string)
    ensures a + (b + (c + d + e)) == a + b + c + d + e
  {}

  /**
   * Whatever text stands around "scheme://userinfo@", what is written does not
   * depend on the userinfo: it is the redaction of what comes before, the mask,
   * and the redaction of what follows the last '@' of the run.
   */
  lemma {:induction false} UserinfoNeverShows(p: string, u: string, r: string)
    requires exists j ::
      && 0 <= j < |p| && ('a' <= p[j] <= 'z' || 'A' <= p[j] <= 'Z')
      && forall k :: j <= k < |p| ==>
           || 'a' <= p[k] <= 'z' || 'A' <= p[k] <= 'Z' || '0' <= p[k] <= '9'
           || p[k] == '+' || p[k] == '-' || p[k] == '.'
    requires forall i :: 0 <= i < |u| ==> u[i] !in " \t\n\r\U{000B}\U{000C}"
    ensures Redact(p + SCHEME_END + u + "@" + r) ==
      Head(p + SCHEME_END, 0) + MASK + RedactFrom(r, PastLastAt(r, 0, End(r, 0)))
  {
    SchemeBeforeIff(p, |p|);
    BlanklessIff(u);
    var q := p + SCHEME_END;
    var m, d := q + u + "@" + r, |q| + |u| + 1;
    assert q[..|p|] == p[..|p|] && q[|p|..|p| + 3] == SCHEME_END;
    SchemeSame(p, q, |p|);
    assert m[..|q|] == q && m[d - 1] == '@' && m[d..] == r;
    assert forall k :: |q| <= k < d - 1 ==> m[k] == u[k - |q|];
    HeadThenMask(m, q, r, d, 0);
  }

  // ---- The startup check on the configured URL ----------------------------

  lemma {:induction false} RunWithoutUserinfo(m: string, i: nat, e: nat, sep: nat)
    requires i <= e <= |m| && (e < |m| ==> IsBoundary(m[e]))
    requires (forall j: nat :: j < sep ==> !URLAt(m, j)) && (forall k :: sep + 3 <= k < |m| ==> m[k] != '@')
    ensures RedactRun(m, i, e) == m[i..e]
  {
    var s := FirstURL(m, i, e);
    if s < e { PastLastAtIsLast(m, s + 3, e); }
  }

  /** Text with no '@' past its first "://" is left as it is. */
  lemma {:induction false} NoAtNoChange(m: string, i: nat, sep: nat)
    requires i <= |m| && (forall j: nat :: j < sep ==> !URLAt(m, j)) && (forall k :: sep + 3 <= k < |m| ==> m[k] != '@')
    ensures RedactFrom(m, i) == m[i..]
    decreases |m| - i
  {
    hide RedactRun;
    var e := End(m, i);
    RunWithoutUserinfo(m, i, e, sep);
    if e < |m| {
      NoAtNoChange(m, e + 1, sep);
      FirstOff(m, e, |m|);
      assert RedactAfter(m, e) == m[e..|m|];
      Cut(m, i, e, |m|);
    }
  }

  /** Every URL the startup check lets through survives redaction, so a redacted message still names it. */
  lemma {:induction false} AcceptedIsFixpoint(raw: string, parses: bool)
    ensures CheckMarketplaceGitURL(raw, parses) != EmbedsCredentials ==> Redact(raw) == raw
    ensures (forall a, b :: raw != a + "://" + b) ==> CheckMarketplaceGitURL(raw, parses) == Accepted
  {
    var sep := Index(raw, SCHEME_END);
    assert sep >= 0 ==> raw == raw[..sep] + "://" + raw[sep + 3..];
    if CheckMarketplaceGitURL(raw, parses) != EmbedsCredentials {
      forall j: nat | sep < 0 || j < sep ensures !URLAt(raw, j) { assert !At(raw, SCHEME_END, j); }
      NoAtNoChange(raw, 0, if sep < 0 then |raw| else sep);
    }
  }

  lemma {:induction false} SuffixPastLastAt(raw: string, d: nat, rest: string)
    requires 0 < d <= |raw| && raw[d..] == rest && !IsSchemeByte(raw[d - 1])
    ensures var k := PastLastAt(rest, 0, |rest|);
      PastLastAt(raw, d, |raw|) == d + k && raw[d + k..] == rest[k..] && (k > 0 <==> '@' in rest)
  {
    var n, k := |rest|, PastLastAt(rest, 0, |rest|);
    forall x | 0 <= x < n ensures raw[d + x] == rest[x] { assert raw[d..][x] == rest[x]; }
    PastLastAtIsLocal(raw, d, rest, 0, n);
    PastLastAtIsLast(rest, 0, n);
  }

  lemma {:induction false} OneURL(raw: string, s: nat)
    requires Blankless(raw) && s + 3 <= |raw| && FirstURL(raw, 0, |raw|) == s
    ensures var k := PastLastAt(raw, s + 3, |raw|);
      Redact(raw) == if k > s + 3 then raw[..s + 3] + MASK + raw[k..] else raw
    ensures raw[s + 2] == '/'
  {
    AtShows(raw, SCHEME_END, s, 2);
    OneRun(raw);
    assert raw[0..|raw|] == raw;
  }

  lemma {:induction false} OneURLRest(raw: string, s: nat, rest: string)
    requires Blankless(raw) && s + 3 <= |raw| && FirstURL(raw, 0, |raw|) == s && raw[s + 3..] == rest
    ensures Redact(raw) == if '@' in rest then raw[..s + 3] + MASK + rest[PastLastAt(rest, 0, |rest|)..] else raw
  {
    hide Redact, URLAt, PastLastAt;
    OneURL(raw, s);
    SuffixPastLastAt(raw, s + 3, rest);
  }

  /** In scheme + "://" + rest, where the scheme holds no ':', the first "://" is that one. */
  lemma {:induction false} SchemeEndsFirst(scheme: string, rest: string)
    requires ':' !in scheme
    ensures var raw := scheme + SCHEME_END + rest;
      && raw[..|scheme|] == scheme && raw[..|scheme| + 3] == scheme + SCHEME_END
      && raw[|scheme| + 3..] == rest && Index(raw, SCHEME_END) == |scheme|
  {
    var raw, s := scheme + SCHEME_END + rest, |scheme|;
    assert raw[s..s + 3] == SCHEME_END;
    forall j: nat | j < s ensures !At(raw, SCHEME_END, j) {
      assert raw[j] == scheme[j];
      if At(raw, SCHEME_END, j) { AtShows(raw, SCHEME_END, j, 0); }
    }
    FirstIs(raw, SCHEME_END, s);
  }

  lemma {:induction false} RefusedIffAt(raw: string, s: nat, rest: string, parses: bool)
    requires Index(raw, SCHEME_END) == s && s + 3 <= |raw| && raw[s + 3..] == rest
    ensures CheckMarketplaceGitURL(raw, parses) ==
      if '@' in rest then EmbedsCredentials else if parses then Accepted else Unparseable
  {
    forall k | s + 3 <= k < |raw| ensures raw[k] == rest[k - s - 3] { assert raw[k] == raw[s + 3..][k - s - 3]; }
    forall k | 0 <= k < |rest| ensures raw[s + 3 + k] == rest[k] { assert raw[s + 3..][k] == rest[k]; }
  }

  lemma {:induction false} BlanklessJoin(a: string, b: string)
    requires Blankless(a) && Blankless(b)
    ensures Blankless(a + b)
  {}

  lemma {:induction false} SchemeURLFirst(scheme: string, raw: string)
    requires |scheme| < |raw| && raw[..|scheme|] == scheme && Index(raw, SCHEME_END) == |scheme|
    requires SchemeBefore(scheme, |scheme|)
    ensures FirstURL(raw, 0, |raw|) == |scheme|
  {
    assert scheme[..|scheme|] == scheme;
    SchemeSame(scheme, raw, |scheme|);
    FirstURLBy(raw, 0, |raw|, |scheme|);
  }

  lemma {:induction false} RedactOfURL(scheme: string, rest: string)
    requires SchemeBefore(scheme, |scheme|) && ':' !in scheme && Blankless(scheme) && Blankless(rest)
    ensures var raw := scheme + SCHEME_END + rest;
      Redact(raw) == if '@' in rest then scheme + SCHEME_END + MASK + rest[PastLastAt(rest, 0, |rest|)..] else raw
  {
    hide Redact, URLAt, At, PastLastAt, SchemeBefore, FirstURL;
    var raw, s := scheme + SCHEME_END + rest, |scheme|;
    SchemeEndsFirst(scheme, rest);
    SchemeURLFirst(scheme, raw);
    BlanklessJoin(scheme, SCHEME_END);
    BlanklessJoin(scheme + SCHEME_END, rest);
    OneURLRest(raw, s, rest);
  }

  /**
   * On a URL that starts with its scheme the two rules agree: what the check
   * refuses is exactly what redaction masks, and all that stays is past the last '@'.
   */
  lemma {:induction false} RefusedIffMasked(scheme: string, rest: string, parses: bool)
    requires exists j :: 0 <= j < |scheme| && ('a' <= scheme[j] <= 'z' || 'A' <= scheme[j] <= 'Z')
    requires forall k :: 0 <= k < |scheme| ==>
      || 'a' <= scheme[k] <= 'z' || 'A' <= scheme[k] <= 'Z' || '0' <= scheme[k] <= '9'
      || scheme[k] == '+' || scheme[k] == '-' || scheme[k] == '.'
    requires forall i :: 0 <= i < |rest| ==> rest[i] !in " \t\n\r\U{000B}\U{000C}"
    ensures var raw := scheme + "://" + rest;
      && CheckMarketplaceGitURL(raw, parses) ==
           (if '@' in rest then EmbedsCredentials else if parses then Accepted else Unparseable)
      && ('@' !in rest ==> Redact(raw) == raw)
      && forall u, h :: rest == u + "@" + h && '@' !in h ==> Redact(raw) == scheme + "://***@" + h
  {
    hide Redact, CheckMarketplaceGitURL, PastLastAt, SchemeBefore, Blankless;
    SchemeShape(scheme);
    BlanklessIff(rest);
    SchemeEndsFirst(scheme, rest);
    RefusedIffAt(scheme + SCHEME_END + rest, |scheme|, rest, parses);
    RedactOfURL(scheme, rest);
    MaskEnds(scheme);
    forall u, h | rest == u + "@" + h && '@' !in h ensures Redact(scheme + "://" + rest) == scheme + "://***@" + h {
      HostIsPastAt(u, h);
    }
  }

  lemma {:induction false} MaskEnds(scheme: string)
    ensures scheme + SCHEME_END + MASK == scheme + "://***@"
  {}

  lemma {:induction false} HostIsPastAt(u: string, h: string)
    requires '@' !in h
    ensures var rest := u + "@" + h; '@' in rest && rest[PastLastAt(rest, 0, |rest|)..] == h
  {
    var rest := u + "@" + h;
    assert rest[|u|] == '@' && forall k :: |u| < k < |rest| ==> rest[k] == h[k - |u| - 1];
    PastLastAtIs(rest, 0, |rest|, |u| + 1);
  }

  lemma {:induction false} SchemeShape(scheme: string)
    requires exists j :: 0 <= j < |scheme| && ('a' <= scheme[j] <= 'z' || 'A' <= scheme[j] <= 'Z')
    requires forall k :: 0 <= k < |scheme| ==>
      || 'a' <= scheme[k] <= 'z' || 'A' <= scheme[k] <= 'Z' || '0' <= scheme[k] <= '9'
      || scheme[k] == '+' || scheme[k] == '-' || scheme[k] == '.'
    ensures SchemeBefore(scheme, |scheme|) && ':' !in scheme && Blankless(scheme)
  {
    SchemeBeforeIff(scheme, |scheme|);
  }

  lemma {:induction false} BlankBefore(pre: string, x: string)
    requires pre == "" || pre[|pre| - 1] in " \t\n\r\U{000B}\U{000C}"
    ensures Redact(pre + x) == Redact(pre) + Redact(x)
  {
    assert Redact("") == "";
    if pre == "" {
      assert pre + x == x;
    } else {
      var a, c := pre[..|pre| - 1], pre[|pre| - 1];
      BlankSeparates(a, c, x);
      BlankSeparates(a, c, "");
      assert pre + x == a + [c] + x && pre == a + [c] + "";
    }
  }

  lemma {:induction false} BlankAfter(x: string, post: string)
    requires post == "" || post[0] in " \t\n\r\U{000B}\U{000C}"
    ensures Redact(x + post) == Redact(x) + Redact(post)
  {
    assert Redact("") == "";
    if post == "" {
      assert x + post == x;
    } else {
      var c, b := post[0], post[1..];
      BlankSeparates(x, c, b);
      BlankSeparates("", c, b);
      assert x + post == x + [c] + b && post == "" + [c] + b;
    }
  }

  /**
   * Wherever a URL stands between whitespace or the ends of the text, all that
   * changes in it is that its userinfo, up to the last '@', becomes the mask.
   */
  lemma {:induction false} UserinfoBecomesMask(pre: string, scheme: string, u: string, h: string, post: string)
    requires pre == "" || pre[|pre| - 1] in " \t\n\r\U{000B}\U{000C}"
    requires exists j :: 0 <= j < |scheme| && ('a' <= scheme[j] <= 'z' || 'A' <= scheme[j] <= 'Z')
    requires forall k :: 0 <= k < |scheme| ==>
      || 'a' <= scheme[k] <= 'z' || 'A' <= scheme[k] <= 'Z' || '0' <= scheme[k] <= '9'
      || scheme[k] == '+' || scheme[k] == '-' || scheme[k] == '.'
    requires forall i :: 0 <= i < |u + h| ==> (u + h)[i] !in " \t\n\r\U{000B}\U{000C}"
    requires '@' !in h && (post == "" || post[0] in " \t\n\r\U{000B}\U{000C}")
    ensures Redact(pre + (scheme + "://" + (u + "@" + h) + post)) ==
      Redact(pre) + (scheme + "://***@" + h + Redact(post))
  {
    hide Redact;
    var rest := u + "@" + h;
    forall i | 0 <= i < |rest| ensures rest[i] !in " \t\n\r\U{000B}\U{000C}" {
      if i < |u| { assert rest[i] == (u + h)[i]; }
      if i > |u| { assert rest[i] == (u + h)[i - 1]; }
    }
    RefusedIffMasked(scheme, rest, true);
    BlankAfter(scheme + "://" + rest, post);
    BlankBefore(pre, scheme + "://" + rest + post);
  }
}
