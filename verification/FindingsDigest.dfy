/**
 * The fingerprint of a findings set: each finding rendered canonically, sorted,
 * joined by newlines and hashed. Text is in Unicode code points, whose order is
 * that of their UTF-8 bytes.
 */
module FindingsDigest {
  import opened Options
  import opened JsonText

  datatype Finding = Finding(rule: string, message: string, severity: string)

  const RULE := "{\"rule\":"
  const MESSAGE := ",\"message\":"
  const SEVERITY := ",\"severity\":"
  const CLOSE := "}"

  function Canon(f: Finding): string {
    RULE + Quote(f.rule) + MESSAGE + Quote(f.message) + SEVERITY + Quote(f.severity) + CLOSE
  }

  // ---- One finding --------------------------------------------------------

  /** The string literal after the given key, and the text after it. */
  function ReadField(key: string, s: string): Option<(string, string)> {
    if |s| < |key| || s[..|key|] != key then None else ReadString(s[|key|..])
  }

  function ReadFinding(s: string): Option<Finding> {
    match ReadField(RULE, s)
    case None => None
    case Some((rule, s1)) =>
      match ReadField(MESSAGE, s1)
      case None => None
      case Some((message, s2)) =>
        match ReadField(SEVERITY, s2)
        case None => None
        case Some((severity, s3)) => if s3 == CLOSE then Some(Finding(rule, message, severity)) else None
  }

  lemma {:induction false} ReadUndoesField(key: string, t: string, rest: string)
    ensures ReadField(key, key + (Quote(t) + rest)) == Some((t, rest))
  {
    var s := key + (Quote(t) + rest);
    assert s[..|key|] == key && s[|key|..] == Quote(t) + rest;
    ReadUndoesQuote(t, rest);
  }

  /** The rendering reads back as the finding, so distinct findings render apart. */
  lemma {:induction false} ReadUndoesCanon(f: Finding)
    ensures ReadFinding(Canon(f)) == Some(f)
    ensures Canon(f) == "{\"rule\":" + Quote(f.rule) + ",\"message\":" + Quote(f.message) +
      ",\"severity\":" + Quote(f.severity) + "}"
  {
    var s2 := SEVERITY + (Quote(f.severity) + CLOSE);
    var s1 := MESSAGE + (Quote(f.message) + s2);
    ReadUndoesField(SEVERITY, f.severity, CLOSE);
    ReadUndoesField(MESSAGE, f.message, s2);
    ReadUndoesField(RULE, f.rule, s1);
    CanonParts(f);
  }

  lemma {:induction false} CanonParts(f: Finding)
    ensures var s2 := SEVERITY + (Quote(f.severity) + CLOSE);
      Canon(f) == RULE + (Quote(f.rule) + (MESSAGE + (Quote(f.message) + s2)))
  {
    hide Quote;
    Assoc(SEVERITY, Quote(f.severity), CLOSE);
    Assoc(Quote(f.message), SEVERITY + Quote(f.severity), CLOSE);
    Assoc(Quote(f.message), SEVERITY, Quote(f.severity));
    Assoc(MESSAGE, Quote(f.message) + (SEVERITY + Quote(f.severity)), CLOSE);
  }

  lemma {:induction false} Assoc(a: string, b: string, c: string)
    ensures a + b + c == a + (b + c)
  {}

  lemma {:induction false} CanonIsInjective(f: Finding, g: Finding)
    requires Canon(f) == Canon(g)
    ensures f == g
  {
    ReadUndoesCanon(f);
    ReadUndoesCanon(g);
  }

  ghost predicate OneLine(s: string) { forall i :: 0 <= i < |s| ==> s[i] != '\n' }

  lemma {:induction false} CanonIsOneLine(f: Finding)
    ensures OneLine(Canon(f))
  {
    hide Quote;
    QuoteIsHarmless(f.rule);
    QuoteIsHarmless(f.message);
    QuoteIsHarmless(f.severity);
  }

  function CanonEach(findings: seq<Finding>): seq<string> {
    seq(|findings|, i requires 0 <= i < |findings| => Canon(findings[i]))
  }

  // ---- Sorting ------------------------------------------------------------

  predicate Le(a: string, b: string) {
    a == "" || (b != "" && (a[0] < b[0] || (a[0] == b[0] && Le(a[1..], b[1..]))))
  }

  lemma {:induction false} LeIsTotalOrder(a: string, b: string, c: string)
    ensures Le(a, b) || Le(b, a)
    ensures Le(a, b) && Le(b, a) ==> a == b
    ensures Le(a, b) && Le(b, c) ==> Le(a, c)
    decreases |a|
  {
    if a != "" {
      LeIsTotalOrder(a[1..], if b == "" then "" else b[1..], if c == "" then "" else c[1..]);
      assert a == [a[0]] + a[1..];
      assert b != "" ==> b == [b[0]] + b[1..];
    }
  }

  /** In order means one is a prefix of the other, or the first difference decides. */
  lemma {:induction false} LeIff(a: string, b: string)
    ensures Le(a, b) <==> a <= b || exists k ::
      0 <= k < |a| && k < |b| && a[..k] == b[..k] && a[k] < b[k]
    decreases |a|
  {
    if a != "" && b != "" && a[0] == b[0] {
      LeIff(a[1..], b[1..]);
      assert a <= b <==> a[1..] <= b[1..];
      if k :| 0 <= k < |a| && k < |b| && a[..k] == b[..k] && a[k] < b[k] {
        assert k > 0 && a[1..][..k - 1] == a[..k][1..] && b[1..][..k - 1] == b[..k][1..];
      }
      if k :| 0 <= k < |a[1..]| && k < |b[1..]| && a[1..][..k] == b[1..][..k] && a[1..][k] < b[1..][k] {
        assert a[..k + 1] == [a[0]] + a[1..][..k] && b[..k + 1] == [b[0]] + b[1..][..k];
      }
    }
  }

  ghost predicate Sorted(xs: seq<string>) { forall i, j :: 0 <= i < j < |xs| ==> Le(xs[i], xs[j]) }

  function Insert(x: string, xs: seq<string>): (r: seq<string>)
    ensures multiset(r) == multiset{x} + multiset(xs) && |r| == |xs| + 1
    decreases |xs|
  {
    if xs == [] || Le(x, xs[0]) then
      [x] + xs
    else
      assert xs == [xs[0]] + xs[1..];
      [xs[0]] + Insert(x, xs[1..])
  }

  /** What the source's library sort leaves: sorting has only one result. */
  function SortStrings(xs: seq<string>): (r: seq<string>)
    ensures multiset(r) == multiset(xs) && |r| == |xs|
  {
    if xs == [] then [] else
      assert xs == [xs[0]] + xs[1..];
      Insert(xs[0], SortStrings(xs[1..]))
  }

  lemma {:induction false} InsertKeepsSorted(x: string, xs: seq<string>)
    requires Sorted(xs)
    ensures Sorted(Insert(x, xs))
    decreases |xs|
  {
    if xs == [] || Le(x, xs[0]) {
      forall i | 0 <= i < |xs| ensures Le(x, xs[i]) {
        LeIsTotalOrder(x, xs[0], xs[i]);
        LeIsTotalOrder(xs[0], xs[0], x);
      }
    } else {
      var rest := Insert(x, xs[1..]);
      InsertKeepsSorted(x, xs[1..]);
      LeIsTotalOrder(x, xs[0], x);
      forall i | 0 <= i < |rest| ensures Le(xs[0], rest[i]) {
        assert rest[i] in multiset(rest);
        assert rest[i] == x || rest[i] in xs[1..];
      }
    }
  }

  lemma {:induction false} SortSorts(xs: seq<string>)
    ensures Sorted(SortStrings(xs))
    decreases |xs|
  {
    if xs != [] {
      SortSorts(xs[1..]);
      InsertKeepsSorted(xs[0], SortStrings(xs[1..]));
    }
  }

  lemma {:induction false} LeastIsFirst(xs: seq<string>, y: string)
    requires Sorted(xs) && y in multiset(xs)
    ensures xs != [] && Le(xs[0], y)
  {
    LeIsTotalOrder(y, y, y);
  }

  /** Two sorted lists of the same strings are the same list. */
  lemma {:induction false} SortedIsUnique(xs: seq<string>, ys: seq<string>)
    requires Sorted(xs) && Sorted(ys) && multiset(xs) == multiset(ys)
    ensures xs == ys
    decreases |xs|
  {
    assert |multiset(xs)| == |xs| && |multiset(ys)| == |ys|;
    if xs != [] {
      assert xs[0] in multiset(xs) && ys[0] in multiset(ys);
      LeastIsFirst(xs, ys[0]);
      LeastIsFirst(ys, xs[0]);
      LeIsTotalOrder(xs[0], ys[0], xs[0]);
      Tails(xs);
      Tails(ys);
      SortedIsUnique(xs[1..], ys[1..]);
    }
  }

  lemma {:induction false} Tails(xs: seq<string>)
    requires xs != []
    ensures xs == [xs[0]] + xs[1..] && multiset(xs[1..]) == multiset(xs) - multiset{xs[0]}
    ensures Sorted(xs) ==> Sorted(xs[1..])
  {
    assert xs == [xs[0]] + xs[1..];
  }

  // ---- Joining ------------------------------------------------------------

  function Join(lines: seq<string>): string {
    if lines == [] then "" else if |lines| == 1 then lines[0] else lines[0] + ['\n'] + Join(lines[1..])
  }

  /** Where a first line ends decides it. */
  lemma {:induction false} FirstLine(a: string, x: string, b: string, y: string)
    requires OneLine(a) && OneLine(b) && a + ['\n'] + x == b + ['\n'] + y
    ensures a == b && x == y
  {
    var s := a + ['\n'] + x;
    forall i | 0 <= i < |a| ensures s[i] != '\n' { assert s[i] == a[i]; }
    forall i | 0 <= i < |b| ensures s[i] != '\n' { assert s[i] == b[i]; }
    assert s[|a|] == '\n' && s[|b|] == '\n';
    assert a == s[..|a|] && b == s[..|b|];
    assert x == s[|a| + 1..] && y == s[|b| + 1..];
  }

  lemma {:induction false} JoinBreaks(lines: seq<string>)
    requires |lines| > 1
    ensures !OneLine(Join(lines))
  {
    assert Join(lines)[|lines[0]|] == '\n';
  }

  lemma {:induction false} JoinIsInjective(xs: seq<string>, ys: seq<string>)
    requires xs != [] && ys != [] && Join(xs) == Join(ys)
    requires (forall i :: 0 <= i < |xs| ==> OneLine(xs[i])) && (forall i :: 0 <= i < |ys| ==> OneLine(ys[i]))
    ensures xs == ys
    decreases |xs|
  {
    if |xs| > 1 { JoinBreaks(xs); }
    if |ys| > 1 { JoinBreaks(ys); }
    assert |xs| == 1 <==> |ys| == 1;
    if |xs| > 1 {
      FirstLine(xs[0], Join(xs[1..]), ys[0], Join(ys[1..]));
      JoinIsInjective(xs[1..], ys[1..]);
      Tails(xs);
      Tails(ys);
    } else {
      assert xs == [xs[0]] && ys == [ys[0]];
    }
  }

  // ---- The fingerprint ----------------------------------------------------

  function Preimage(findings: seq<Finding>): string { Join(SortStrings(CanonEach(findings))) }

  /** sum is the hash, in hex. */
  function DigestOf(findings: seq<Finding>, sum: string -> string): string {
    if findings == [] then "" else sum(Preimage(findings))
  }

  method Digest(findings: seq<Finding>, sum: string -> string) returns (r: string)
    ensures r == DigestOf(findings, sum)
  {
    hide Canon, SortStrings;
    if |findings| == 0 { return ""; }
    var canon := new string[|findings|];
    for i := 0 to |findings|
      invariant canon[..i] == CanonEach(findings)[..i]
    {
      canon[i] := Canon(findings[i]);
    }
    assert canon[..] == CanonEach(findings);
    var sorted := SortStrings(canon[..]);
    forall i | 0 <= i < canon.Length { canon[i] := sorted[i]; }
    assert canon[..] == sorted;
    r := sum(Join(canon[..]));
  }

  lemma {:induction false} CanonCounts(findings: seq<Finding>, f: Finding)
    ensures multiset(CanonEach(findings))[Canon(f)] == multiset(findings)[f]
    decreases |findings|
  {
    hide Canon;
    if findings != [] {
      var g, rest := findings[0], findings[1..];
      CanonCounts(rest, f);
      assert findings == [g] + rest;
      assert CanonEach(findings) == [Canon(g)] + CanonEach(rest);
      if Canon(f) == Canon(g) { CanonIsInjective(f, g); }
    }
  }

  lemma {:induction false} SameFindingsSameCanons(a: seq<Finding>, b: seq<Finding>)
    ensures multiset(CanonEach(a)) == multiset(CanonEach(b)) <==> multiset(a) == multiset(b)
  {
    if multiset(CanonEach(a)) == multiset(CanonEach(b)) {
      forall f: Finding ensures multiset(a)[f] == multiset(b)[f] {
        CanonCounts(a, f);
        CanonCounts(b, f);
      }
    }
    if multiset(a) == multiset(b) {
      forall s: string ensures multiset(CanonEach(a))[s] == multiset(CanonEach(b))[s] {
        CanonsAgree(a, b, s);
        CanonsAgree(b, a, s);
      }
    }
  }

  lemma {:induction false} CanonsAgree(a: seq<Finding>, b: seq<Finding>, s: string)
    requires multiset(a) == multiset(b)
    ensures s in multiset(CanonEach(a)) ==> multiset(CanonEach(a))[s] == multiset(CanonEach(b))[s]
  {
    if s in multiset(CanonEach(a)) {
      var i :| 0 <= i < |a| && CanonEach(a)[i] == s;
      CanonCounts(a, a[i]);
      CanonCounts(b, a[i]);
    }
  }

  lemma {:induction false} SortedLinesAreLines(a: seq<Finding>)
    ensures var xs := SortStrings(CanonEach(a)); forall i :: 0 <= i < |xs| ==> OneLine(xs[i])
  {
    var xs := SortStrings(CanonEach(a));
    forall i | 0 <= i < |xs| ensures OneLine(xs[i]) {
      assert xs[i] in multiset(xs);
      var j :| 0 <= j < |a| && CanonEach(a)[j] == xs[i];
      CanonIsOneLine(a[j]);
    }
  }

  lemma {:induction false} SortedCanonsEqualIff(a: seq<Finding>, b: seq<Finding>)
    ensures SortStrings(CanonEach(a)) == SortStrings(CanonEach(b)) <==> multiset(a) == multiset(b)
  {
    SortSorts(CanonEach(a));
    SortSorts(CanonEach(b));
    SameFindingsSameCanons(a, b);
    if multiset(a) == multiset(b) { SortedIsUnique(SortStrings(CanonEach(a)), SortStrings(CanonEach(b))); }
  }

  /**
   * The bytes hashed for two non-empty findings lists are equal exactly when the
   * lists are permutations of each other: order does not matter, duplicates do.
   */
  lemma {:induction false} PreimagesEqualIff(a: seq<Finding>, b: seq<Finding>)
    requires a != [] && b != []
    ensures Preimage(a) == Preimage(b) <==> multiset(a) == multiset(b)
  {
    SortedCanonsEqualIff(a, b);
    if Preimage(a) == Preimage(b) {
      SortedLinesAreLines(a);
      SortedLinesAreLines(b);
      JoinIsInjective(SortStrings(CanonEach(a)), SortStrings(CanonEach(b)));
    }
  }

  /**
   * With a 64-character hash that keeps the two preimages apart, digests are
   * equal exactly for permutations; only the empty list's is empty.
   */
  lemma {:induction false} DigestsEqualIff(a: seq<Finding>, b: seq<Finding>, sum: string -> string)
    requires |sum(Preimage(a))| == 64 && |sum(Preimage(b))| == 64
    requires sum(Preimage(a)) == sum(Preimage(b)) ==> Preimage(a) == Preimage(b)
    ensures DigestOf(a, sum) == DigestOf(b, sum) <==> multiset(a) == multiset(b)
    ensures DigestOf(a, sum) == "" <==> a == []
  {
    assert |multiset(a)| == |a| && |multiset(b)| == |b|;
    if a != [] && b != [] { PreimagesEqualIff(a, b); }
  }
}
