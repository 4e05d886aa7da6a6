/** Splitting an artifact's YAML frontmatter from its body, and putting it back with a memory scope. */
module Frontmatter {
  import opened Options
  import opened Strings

  datatype SplitError = NoOpening | Unterminated | InvalidYAML

  datatype Result<T> = Ok(value: T) | Err(error: SplitError)

  const OPEN := "---\n"
  const FENCE := "\n---"

  // ---- Line endings -------------------------------------------------------

  predicate CRLFAt(s: string, i: int) { 0 <= i && i + 1 < |s| && s[i] == '\r' && s[i + 1] == '\n' }

  /** Every "\r\n", left to right, becomes "\n". */
  function Normalize(s: string): string {
    if s == "" then "" else if CRLFAt(s, 0) then ['\n'] + Normalize(s[2..]) else [s[0]] + Normalize(s[1..])
  }

  ghost predicate HasCRLF(s: string) { exists i :: CRLFAt(s, i) }

  ghost predicate HasCRCRLF(s: string) { exists i :: CRLFAt(s, i) && 0 < i && s[i - 1] == '\r' }

  lemma {:induction false} NormalizeKeepsPlain(s: string)
    requires !HasCRLF(s)
    ensures Normalize(s) == s
    decreases |s|
  {
    if s != "" {
      assert !CRLFAt(s, 0);
      forall i ensures !CRLFAt(s[1..], i) { assert !CRLFAt(s, i + 1); }
      NormalizeKeepsPlain(s[1..]);
      assert s == [s[0]] + s[1..];
    }
  }

  lemma {:induction false} NormalizeGoesOn(a: string, b: string)
    requires a == "" || a[|a| - 1] != '\r' || b == "" || b[0] != '\n'
    ensures Normalize(a + b) == Normalize(a) + Normalize(b)
    decreases |a|
  {
    if a == "" {
      assert a + b == b;
    } else {
      var k := if CRLFAt(a, 0) then 2 else 1;
      assert CRLFAt(a + b, 0) == CRLFAt(a, 0);
      assert (a + b)[k..] == a[k..] + b;
      NormalizeGoesOn(a[k..], b);
    }
  }

  /** Every line break, however it is written, stays one, and all that stands between them stays as it is. */
  lemma {:induction false} NormalizeIsExact(a: string, b: string)
    ensures Normalize(a + "\r\n" + b) == Normalize(a) + "\n" + Normalize(b)
    ensures (forall i :: 0 <= i < |a| - 1 ==> a[i] != '\r' || a[i + 1] != '\n') ==> Normalize(a) == a
  {
    NormalizeGoesOn(a, "\r\n" + b);
    assert a + "\r\n" + b == a + ("\r\n" + b);
    assert ("\r\n" + b)[2..] == b;
    if forall i :: 0 <= i < |a| - 1 ==> a[i] != '\r' || a[i + 1] != '\n' {
      NormalizeKeepsPlain(a);
    }
  }

  // ---- Splitting ----------------------------------------------------------

  /** A "\n---" stands at i and a full line ends with it. */
  predicate FenceAt(s: string, i: nat) {
    At(s, FENCE, i) && (i + 4 == |s| || s[i + 4] == '\n')
  }

  /** The first closing fence at or after i, or -1. */
  function FirstFence(s: string, i: nat): (r: int)
    requires i <= |s|
    ensures r == -1 || (i <= r && FenceAt(s, r))
    ensures forall j: nat :: i <= j && (r == -1 || j < r) ==> !FenceAt(s, j)
    decreases |s| - i
  {
    if FenceAt(s, i) then i else if i == |s| then -1 else FirstFence(s, i + 1)
  }

  /** The frontmatter and the body of text whose line endings are normalized. */
  function SplitNormal(s: string): Result<(string, string)> {
    if |s| < 4 || s[..4] != OPEN then Err(NoOpening)
    else
      var rest := s[4..];
      var abs := FirstFence(rest, 0);
      if abs == -1 then Err(Unterminated)
      else Ok((rest[..abs], if abs + 4 == |rest| then "" else rest[abs + 5..]))
  }

  function Split(content: string): Result<(string, string)> { SplitNormal(Normalize(content)) }

  lemma {:induction false} SkipsToFence(s: string, i: nat, j: nat)
    requires i <= j <= |s| && forall k: nat :: i <= k < j ==> !FenceAt(s, k)
    ensures FirstFence(s, i) == FirstFence(s, j)
    decreases j - i
  {
    if i < j { SkipsToFence(s, i + 1, j); }
  }

  lemma {:induction false} NoFenceBefore(s: string, i: nat, j: nat)
    requires i <= j <= |s| && forall k: nat :: i <= k < j ==> !At(s, FENCE, k)
    ensures FirstFence(s, i) == FirstFence(s, j)
  {
    SkipsToFence(s, i, j);
  }

  /** A line that is exactly the fence closes; where a line goes on, no fence starts within its dashes. */
  lemma {:induction false} FenceClosesIff(s: string, i: nat)
    requires At(s, FENCE, i)
    ensures i + 4 == |s| || s[i + 4] == '\n' ==> FirstFence(s, i) == i
    ensures i + 4 < |s| && s[i + 4] != '\n' ==> FirstFence(s, i) == FirstFence(s, i + 4)
  {
    if i + 4 < |s| && s[i + 4] != '\n' {
      NotAFence(s, i);
      SkipsToFence(s, i, i + 4);
    }
  }

  /** Where a line goes on past "\n---", no other can start within it. */
  lemma {:induction false} NotAFence(s: string, i: nat)
    requires At(s, FENCE, i) && i + 4 < |s| && s[i + 4] != '\n'
    ensures forall k: nat :: i <= k < i + 4 ==> !FenceAt(s, k)
  {
    AtShows(s, FENCE, i, 1);
    AtShows(s, FENCE, i, 2);
    AtShows(s, FENCE, i, 3);
    forall k: nat | i < k < i + 4 ensures !At(s, FENCE, k) {
      if At(s, FENCE, k) { AtShows(s, FENCE, k, 0); }
    }
  }

  method SplitFrontmatter(content: string) returns (r: Result<(string, string)>)
    ensures r == Split(content)
  {
    hide Normalize, FenceAt, FirstFence;
    var s := Normalize(content);
    if |s| < 4 || s[..4] != OPEN { return Err(NoOpening); }
    var rest := s[4..];
    var from := 0;
    while true
      invariant from <= |rest| && FirstFence(rest, 0) == FirstFence(rest, from)
      decreases |rest| - from
    {
      var i := IndexFrom(rest, FENCE, from);
      if i < 0 {
        NoFenceBefore(rest, from, |rest|);
        NoFenceAtEnd(rest);
        return Err(Unterminated);
      }
      NoFenceBefore(rest, from, i);
      FenceClosesIff(rest, i);
      var after := rest[i + |FENCE|..];
      if after == "" || after[0] == '\n' {
        return Ok((rest[..i], if after == "" then "" else after[1..]));
      }
      from := i + |FENCE|;
    }
  }

  lemma {:induction false} NoFenceAtEnd(s: string)
    ensures FirstFence(s, |s|) == -1
  {}

  // ---- What a split means -------------------------------------------------

  ghost predicate NoFence(s: string) { forall j: nat :: !FenceAt(s, j) }

  /** What follows a closing fence: nothing, or a line break and the body. */
  ghost predicate Follows(tail: string, body: string) {
    (tail == "" && body == "") || tail == "\n" + body
  }

  lemma {:induction false} FenceBefore(fm: string, tail: string, j: nat)
    requires j < |fm| && (tail == "" || tail[0] == '\n')
    ensures FenceAt(fm + FENCE + tail, j) == FenceAt(fm, j)
  {
    var r := fm + FENCE + tail;
    if j + 4 <= |fm| {
      assert r[j..j + 4] == fm[j..j + 4];
      assert r[j + 4] == if j + 4 == |fm| then '\n' else fm[j + 4];
    } else if At(r, FENCE, j) {
      assert r[|fm|] == '\n';
      AtShows(r, FENCE, j, |fm| - j);
    }
  }

  lemma {:induction false} FenceHere(fm: string, tail: string)
    requires tail == "" || tail[0] == '\n'
    ensures FenceAt(fm + FENCE + tail, |fm|)
  {
    var r := fm + FENCE + tail;
    assert r[|fm|..|fm| + 4] == FENCE;
  }

  lemma {:induction false} FirstFenceIs(s: string, i: nat)
    requires i <= |s| && FenceAt(s, i) && forall j: nat :: j < i ==> !FenceAt(s, j)
    ensures FirstFence(s, 0) == i
  {}

  lemma {:induction false} SplitOfParts(fm: string, tail: string, body: string)
    requires Follows(tail, body)
    ensures NoFence(fm) ==> SplitNormal(OPEN + (fm + FENCE + tail)) == Ok((fm, body))
  {
    var rest := fm + FENCE + tail;
    assert (OPEN + rest)[..4] == OPEN && (OPEN + rest)[4..] == rest;
    if NoFence(fm) {
      forall j: nat | j < |fm| ensures !FenceAt(rest, j) { FenceBefore(fm, tail, j); }
      FenceHere(fm, tail);
      FirstFenceIs(rest, |fm|);
      assert rest[..|fm|] == fm;
      if tail != "" { assert rest[|fm| + 5..] == body; }
    }
  }

  lemma {:induction false} PartsOfSplit(s: string, fm: string, body: string) returns (tail: string)
    requires SplitNormal(s) == Ok((fm, body))
    ensures Follows(tail, body) && s == OPEN + (fm + FENCE + tail) && NoFence(fm)
  {
    var rest := s[4..];
    var i := FirstFence(rest, 0);
    tail := rest[i + 4..];
    assert rest[..i] == fm && rest[i..i + 4] == FENCE && rest == rest[..i] + rest[i..i + 4] + tail;
    assert tail != "" ==> tail == [tail[0]] + tail[1..] && tail[0] == rest[i + 4] && tail[1..] == rest[i + 5..];
    assert s == OPEN + rest;
    forall j: nat ensures !FenceAt(fm, j) {
      if j < |fm| {
        FenceBefore(fm, tail, j);
        assert !FenceAt(rest, j);
      }
    }
  }

  /**
   * A split is right exactly when the text is the opening fence, the
   * frontmatter, a closing fence line, and either nothing or a line break and
   * the body, with no closing fence line inside the frontmatter.
   */
  lemma {:induction false} SplitIff(s: string, fm: string, body: string)
    ensures SplitNormal(s) == Ok((fm, body)) <==>
      NoFence(fm) &&
      ((s == "---\n" + (fm + "\n---" + "") && body == "") || s == "---\n" + (fm + "\n---" + ("\n" + body)))
  {
    if SplitNormal(s) == Ok((fm, body)) {
      var tail := PartsOfSplit(s, fm, body);
    }
    SplitOfParts(fm, "\n" + body, body);
    if body == "" { SplitOfParts(fm, "", body); }
  }

  // ---- Which line closes --------------------------------------------------

  const DASHES := "---"

  /** A line starting at i reads exactly "---". */
  predicate FullLine(s: string, i: nat) {
    && (i == 0 || (i <= |s| && s[i - 1] == '\n')) && At(s, DASHES, i)
    && (i + 3 == |s| || s[i + 3] == '\n')
  }

  /** The text after that line. */
  function BodyAfter(s: string, i: nat): string
    requires FullLine(s, i)
  {
    if i + 3 == |s| then "" else s[i + 4..]
  }

  /** i starts the first such line at or after lo. */
  ghost predicate FirstFullLine(s: string, lo: nat, i: nat) {
    lo <= i && FullLine(s, i) && forall j: nat :: lo <= j < i ==> !FullLine(s, j)
  }

  lemma {:induction false} LineAfterOpening(s: string, p: nat)
    requires OPEN <= s
    ensures FenceAt(s[4..], p) <==> FullLine(s, p + 5)
  {
    var rest := s[4..];
    if p + 4 <= |rest| {
      assert rest[p..p + 4] == s[p + 4..p + 8] && s[p + 4..p + 8] == [s[p + 4]] + s[p + 5..p + 8];
      assert p + 4 < |rest| ==> rest[p + 4] == s[p + 8];
      assert FENCE[1..] == DASHES && FENCE == [FENCE[0]] + FENCE[1..];
    }
  }

  /** The scan closes at the first full line past the one that follows the opening fence, and nowhere else. */
  lemma {:induction false} SplitClosesAt(s: string, i: nat)
    requires OPEN <= s && FirstFullLine(s, 5, i)
    ensures SplitNormal(s) == Ok((s[4..i - 1], BodyAfter(s, i)))
  {
    var rest := s[4..];
    LineAfterOpening(s, i - 5);
    forall p: nat | p < i - 5 ensures !FenceAt(rest, p) { LineAfterOpening(s, p); }
    FirstFenceIs(rest, i - 5);
    assert s[..4] == OPEN;
    assert rest[..i - 5] == s[4..i - 1];
    if i + 3 < |s| { assert rest[i - 5 + 5..] == s[i + 4..]; }
  }

  lemma {:induction false} FirstFrom(s: string, lo: nat, i: nat) returns (first: nat)
    requires lo <= i && FullLine(s, i)
    ensures FirstFullLine(s, lo, first)
    decreases i - lo
  {
    if FullLine(s, lo) { first := lo; } else { first := FirstFrom(s, lo + 1, i); }
  }

  /**
   * It fails exactly when the text does not open with the fence, or no full
   * "---" line follows later than the line right after it.
   */
  lemma {:induction false} SplitFailsIff(s: string)
    ensures SplitNormal(s) == Err(NoOpening) <==> !("---\n" <= s)
    ensures SplitNormal(s) == Err(Unterminated) <==> "---\n" <= s && forall i: nat :: i > 4 ==> !FullLine(s, i)
  {
    assert |s| >= 4 ==> (s[..4] == OPEN <==> OPEN <= s);
    if OPEN <= s {
      if i: nat :| i > 4 && FullLine(s, i) {
        var first := FirstFrom(s, 5, i);
        SplitClosesAt(s, first);
      } else {
        forall p: nat ensures !FenceAt(s[4..], p) { LineAfterOpening(s, p); }
      }
    }
  }

  /** The full line at i is the one that closes: what stands between is the frontmatter, what follows is the body. */
  ghost predicate ClosesAt(s: string, i: nat)
    requires FullLine(s, i) && i >= 4
  {
    SplitNormal(s) == Ok((if i == 4 then "" else s[4..i - 1], BodyAfter(s, i)))
  }

  /** The first full "---" line after the opening fence closes exactly if it is not the line right after it. */
  lemma {:induction false} FirstLineClosesIff(s: string, i: nat)
    requires OPEN <= s && FirstFullLine(s, 4, i)
    ensures ClosesAt(s, i) <==> i != 4
  {
    if i != 4 {
      SplitClosesAt(s, i);
    } else if j: nat :| j > 4 && FullLine(s, j) {
      var first := FirstFrom(s, 5, j);
      SplitClosesAt(s, first);
      AtShows(s, DASHES, 4, 0);
      assert s[first - 1] == '\n' && s[4] == '-';
      assert |s[4..first - 1]| > 0;
    } else {
      SplitFailsIff(s);
    }
  }

  /**
   * A text that holds a full "---" line after its opening fence is nevertheless
   * unterminated exactly if the only such line is right after the fence.
   */
  lemma {:induction false} UnterminatedDespiteLineIff(s: string)
    requires OPEN <= s
    ensures SplitNormal(s) == Err(Unterminated) && (exists i: nat :: i >= 4 && FullLine(s, i)) <==>
      FullLine(s, 4) && forall i: nat :: i > 4 ==> !FullLine(s, i)
  {
    SplitFailsIff(s);
  }

  /** An empty frontmatter is not seen to close. */
  lemma {:induction false} EmptyFrontmatterFails()
    ensures FullLine("---\n---\nx", 4) && Split("---\n---\nx") == Err(Unterminated)
  {
    var s := "---\n---\nx";
    assert s[4..7] == DASHES && s[..4] == OPEN;
    NormalizeKeepsPlain(s);
    forall i: nat | i > 4 ensures !FullLine(s, i) {
      assert i <= 6 ==> s[i - 1] != '\n';
    }
    SplitFailsIff(s);
  }

  /** A later line of dashes in the body closes in its place. */
  lemma {:induction false} BodyLineCloses()
    ensures FullLine("---\n---\nb\n---\nr", 4) && Split("---\n---\nb\n---\nr") == Ok(("---\nb", "r"))
  {
    var s := "---\n---\nb\n---\nr";
    NormalizeKeepsPlain(s);
    SecondLineCloses(s);
  }

  lemma {:induction false} SecondLineCloses(s: string)
    requires s == "---\n---\nb\n---\nr"
    ensures FullLine(s, 4) && SplitNormal(s) == Ok(("---\nb", "r"))
  {
    assert s[4..7] == DASHES && s[10..13] == DASHES && OPEN <= s;
    assert s[4..9] == "---\nb" && s[14..] == "r";
    assert FullLine(s, 4) && FullLine(s, 10);
    assert s[4] == s[5] == s[6] == '-' && s[7] == '\n' && s[8] == 'b' && s[9] == '\n';
    LineIsDashes(s, 8);
    hide SplitNormal;
    forall j: nat | 5 <= j < 10 && j != 8 ensures !FullLine(s, j) { assert s[j - 1] != '\n'; }
    assert FirstFullLine(s, 5, 10);
    SplitClosesAt(s, 10);
  }

  lemma {:induction false} LineIsDashes(s: string, i: nat)
    requires i < |s| && s[i] != '-'
    ensures !FullLine(s, i)
  {
    if At(s, DASHES, i) { AtShows(s, DASHES, i, 0); }
  }

  // ---- Normalizing twice --------------------------------------------------

  /** Normalized text still holds a "\r\n" exactly if the text held a "\r\r\n". */
  lemma {:induction false} StillCRLFIff(s: string)
    ensures HasCRLF(Normalize(s)) <==> HasCRCRLF(s)
    decreases |s|
  {
    if s != "" {
      var k := if CRLFAt(s, 0) then 2 else 1;
      var head, rest := if CRLFAt(s, 0) then '\n' else s[0], s[k..];
      StillCRLFIff(rest);
      var n := Normalize(rest);
      assert Normalize(s) == [head] + n;
      FirstOfNormalized(rest);
      ShiftCRLF(head, n);
      ShiftCRCRLF(s, k);
    }
  }

  lemma {:induction false} FirstOfNormalized(s: string)
    ensures Normalize(s) != "" && Normalize(s)[0] == '\n' <==> CRLFAt(s, 0) || (s != "" && s[0] == '\n')
  {}

  lemma {:induction false} ShiftCRLF(c: char, n: string)
    ensures HasCRLF([c] + n) <==> HasCRLF(n) || (c == '\r' && n != "" && n[0] == '\n')
  {
    var s := [c] + n;
    if i :| CRLFAt(s, i) { assert i > 0 ==> CRLFAt(n, i - 1); }
    if i :| CRLFAt(n, i) { assert CRLFAt(s, i + 1); }
    if c == '\r' && n != "" && n[0] == '\n' { assert CRLFAt(s, 0); }
  }

  lemma {:induction false} ShiftCRCRLF(s: string, k: nat)
    requires s != "" && k == if CRLFAt(s, 0) then 2 else 1
    ensures HasCRCRLF(s) <==> HasCRCRLF(s[k..]) || (k == 1 && s[0] == '\r' && CRLFAt(s[1..], 0))
  {
    var rest := s[k..];
    if i :| CRLFAt(s, i) && 0 < i && s[i - 1] == '\r' {
      assert i >= k;
      assert CRLFAt(rest, i - k) && (i > k ==> rest[i - k - 1] == s[i - 1]);
    }
    if i :| CRLFAt(rest, i) && 0 < i && rest[i - 1] == '\r' { assert CRLFAt(s, i + k) && s[i + k - 1] == rest[i - 1]; }
    if k == 1 && s[0] == '\r' && CRLFAt(rest, 0) { assert CRLFAt(s, 1); }
  }

  /** Normalizing again changes nothing exactly when the text held no "\r\r\n". */
  lemma {:induction false} NormalizeTwiceIff(s: string)
    ensures Normalize(Normalize(s)) == Normalize(s) <==> !HasCRCRLF(s)
  {
    StillCRLFIff(s);
    if HasCRLF(Normalize(s)) { NormalizeShrinks(Normalize(s)); } else { NormalizeKeepsPlain(Normalize(s)); }
  }

  lemma {:induction false} NormalizeShrinks(s: string)
    ensures |Normalize(s)| <= |s| && (HasCRLF(s) ==> |Normalize(s)| < |s|)
    decreases |s|
  {
    if s != "" {
      var rest := s[if CRLFAt(s, 0) then 2 else 1..];
      NormalizeShrinks(rest);
      if i :| CRLFAt(s, i) { assert i > 0 && !CRLFAt(s, 0) ==> CRLFAt(rest, i - 1); }
    }
  }

  // ---- The memory scope ---------------------------------------------------

  /** emit is the frontmatter parsed, given the scope and written as YAML again; None if it does not parse. */
  function WithMemory(content: string, emit: string -> Option<string>): Result<string> {
    match Split(content)
    case Err(e) => Err(e)
    case Ok((fm, body)) =>
      match emit(fm)
      case None => Err(InvalidYAML)
      case Some(y) => Ok(OPEN + y + OPEN + body)
  }

  /** It fails as the split does, and otherwise exactly if the frontmatter is not YAML. */
  lemma {:induction false} MemoryFailsIff(content: string, emit: string -> Option<string>)
    ensures WithMemory(content, emit) == Err(NoOpening) <==> !("---\n" <= Normalize(content))
    ensures WithMemory(content, emit) == Err(Unterminated) <==>
      "---\n" <= Normalize(content) && forall i: nat :: i > 4 ==> !FullLine(Normalize(content), i)
    ensures WithMemory(content, emit) == Err(InvalidYAML) <==>
      Split(content).Ok? && emit(Split(content).value.0) == None
  {
    SplitFailsIff(Normalize(content));
    hide Normalize, FullLine;
  }

  /** What a plain text ends with is plain. */
  lemma {:induction false} SuffixIsPlain(s: string, front: string, body: string)
    requires s == front + body && !HasCRLF(s)
    ensures !HasCRLF(body)
  {
    if i :| CRLFAt(body, i) { assert CRLFAt(s, |front| + i); }
  }

  lemma {:induction false} BodyIsPlain(content: string, fm: string, body: string)
    requires Split(content) == Ok((fm, body)) && !HasCRCRLF(content)
    ensures !HasCRLF(body)
  {
    var s := Normalize(content);
    StillCRLFIff(content);
    var tail := PartsOfSplit(s, fm, body);
    hide Normalize, SplitNormal, NoFence, HasCRLF, HasCRCRLF;
    var line := if tail == "" then "" else "\n";
    FourParts(fm, line, tail, body);
    SuffixIsPlain(s, OPEN + fm + FENCE + line, body);
  }

  lemma {:induction false} FourParts(fm: string, line: string, tail: string, body: string)
    requires tail == line + body
    ensures OPEN + (fm + FENCE + tail) == OPEN + fm + FENCE + line + body
  {}

  lemma {:induction false} OutputIsPlain(y: string, body: string)
    requires !HasCRLF(y) && !HasCRLF(body) && y != "" && y[|y| - 1] == '\n'
    ensures !HasCRLF(OPEN + y + OPEN + body)
  {
    var w := OPEN + y + OPEN + body;
    assert forall i :: 0 <= i < |y| ==> w[4 + i] == y[i];
    assert forall i :: 0 <= i < |body| ==> w[8 + |y| + i] == body[i];
    forall i ensures !CRLFAt(w, i) {
      assert !CRLFAt(y, i - 4) && !CRLFAt(body, i - 8 - |y|);
    }
  }

  lemma {:induction false} WrittenParts(y: string, body: string)
    requires y != "" && y[|y| - 1] == '\n'
    ensures OPEN + y + OPEN + body == OPEN + (y[..|y| - 1] + FENCE + ("\n" + body))
  {
    assert y == y[..|y| - 1] + "\n";
  }

  /**
   * The rewritten artifact splits back into the YAML that was emitted and the
   * body it had, exactly when that YAML holds no closing fence line.
   */
  lemma {:induction false} MemoryRoundTripIff(
        content: string, emit: string -> Option<string>, fm: string, body: string, y: string)
    requires Split(content) == Ok((fm, body)) && !HasCRCRLF(content)
    requires emit(fm) == Some(y) && y != "" && y[|y| - 1] == '\n' && !HasCRLF(y)
    ensures WithMemory(content, emit).Ok?
    ensures Split(WithMemory(content, emit).value) == Ok((y[..|y| - 1], body)) <==> NoFence(y[..|y| - 1])
  {
    var w, front := WithMemory(content, emit).value, y[..|y| - 1];
    BodyIsPlain(content, fm, body);
    OutputIsPlain(y, body);
    NormalizeKeepsPlain(w);
    WrittenParts(y, body);
    hide Normalize, SplitNormal, NoFence;
    SplitIff(w, front, body);
  }
}
