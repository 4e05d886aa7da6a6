/** Server slugs and the namespaced tool ids built from them. */
module Naming {
  import opened Options
  import opened Strings

  const SEP := "__"

  function Namespace(slug: string, tool: string): string { slug + SEP + tool }

  /** Splits on the first separator. */
  function Split(name: string): Option<(string, string)> {
    var i := Index(name, SEP);
    if i < 0 then None else Some((name[..i], name[i + |SEP|..]))
  }

  /** Split undoes Namespace exactly for the slugs whose text, up to the separator, has no earlier one. */
  lemma {:induction false} SplitUndoesNamespaceIff(name: string, slug: string, tool: string)
    ensures Split(name) == Some((slug, tool)) <==> name == slug + "__" + tool && Index(slug + "_", "__") < 0
  {
    var n := Namespace(slug, tool);
    assert n[|slug|..|slug| + 2] == SEP && n[|slug| + 2..] == tool && n[..|slug|] == slug;
    forall j: nat | j < |slug| ensures At(n, SEP, j) == At(slug + "_", SEP, j) {
      assert n[j..j + 2] == (slug + "_")[j..j + 2];
    }
    if Split(name) == Some((slug, tool)) {
      var i := Index(name, SEP);
      assert name == name[..i] + name[i..i + 2] + name[i + 2..];
      assert name == n;
    }
    if name == n && Index(slug + "_", SEP) < 0 {
      assert At(n, SEP, |slug|);
      assert forall j: nat :: j < |slug| ==> !At(slug + "_", SEP, j) && !At(n, SEP, j);
      FirstIs(n, SEP, |slug|);
    }
  }

  // ---- Slugs --------------------------------------------------------------

  predicate IsSlugChar(c: char) { 'a' <= c <= 'z' || '0' <= c <= '9' }

  function ToLower(s: string): string {
    seq(|s|, i requires 0 <= i < |s| => if 'A' <= s[i] <= 'Z' then s[i] - 'A' + 'a' else s[i])
  }

  /** Each maximal run of other characters becomes a single dash. */
  function Collapse(s: string, inRun: bool): string {
    if s == "" then ""
    else if IsSlugChar(s[0]) then [s[0]] + Collapse(s[1..], false)
    else (if inRun then "" else "-") + Collapse(s[1..], true)
  }

  function TrimLeft(s: string): string {
    if s != "" && s[0] == '-' then TrimLeft(s[1..]) else s
  }

  function TrimRight(s: string): string {
    if s != "" && s[|s| - 1] == '-' then TrimRight(s[..|s| - 1]) else s
  }

  function SlugOfLower(s: string): string { TrimRight(TrimLeft(Collapse(s, false))) }

  function Slugify(s: string): string { SlugOfLower(ToLower(s)) }

  /** Slug characters and single dashes, none leading; nor trailing when closed. */
  ghost predicate Dashed(s: string) {
    && (forall i :: 0 <= i < |s| ==> IsSlugChar(s[i]) || s[i] == '-')
    && (forall i :: 0 <= i < |s| - 1 ==> s[i] != '-' || s[i + 1] != '-')
  }

  ghost predicate IsSlug(s: string) {
    Dashed(s) && (s != "" ==> s[0] != '-' && s[|s| - 1] != '-')
  }

  lemma {:induction false} CollapseIsDashed(s: string, inRun: bool)
    ensures Dashed(Collapse(s, inRun))
    ensures inRun && Collapse(s, inRun) != "" ==> Collapse(s, inRun)[0] != '-'
    decreases |s|
  {
    if s != "" {
      CollapseIsDashed(s[1..], !IsSlugChar(s[0]));
    }
  }

  lemma {:induction false} TrimKeepsDashed(s: string)
    requires Dashed(s)
    ensures IsSlug(TrimRight(TrimLeft(s)))
  {
    if s != "" && s[0] == '-' {
      assert |s| > 1 ==> s[1] != '-';
      TrimKeepsDashed(s[1..]);
    } else if s != "" && s[|s| - 1] == '-' {
      var t := s[..|s| - 1];
      assert t != "" && t[0] != '-' && t[|t| - 1] != '-';
      assert TrimRight(s) == TrimRight(t) == t;
    }
  }

  lemma {:induction false} SlugIsKept(s: string)
    requires Dashed(s)
    ensures Collapse(s, false) == s && (s != "" && s[0] != '-' ==> Collapse(s, true) == s)
    decreases |s|
  {
    if s != "" {
      SlugIsKept(s[1..]);
      assert s == [s[0]] + s[1..];
      assert |s| > 1 ==> s[0] != '-' || s[1] != '-';
      assert s[1..] == "" ==> Collapse(s[1..], true) == "";
    }
  }

  /**
   * A slug is made of [a-z0-9] in groups joined by single dashes, is its own
   * slug, and can never contain the separator, so every tool id splits back.
   */
  lemma {:induction false} SlugifyIsCanonical(s: string, tool: string)
    ensures IsSlug(SlugOfLower(s)) && SlugOfLower(SlugOfLower(s)) == SlugOfLower(s)
    ensures IsSlug(s) ==> SlugOfLower(s) == s
    ensures Split(SlugOfLower(s) + "__" + tool) == Some((SlugOfLower(s), tool))
  {
    CollapseIsDashed(s, false);
    TrimKeepsDashed(Collapse(s, false));
    var g := SlugOfLower(s);
    SlugIsKept(g);
    if IsSlug(s) { SlugIsKept(s); }
    SlugSplits(g, tool);
  }

  lemma {:induction false} SlugSplits(slug: string, tool: string)
    requires Dashed(slug)
    ensures Split(Namespace(slug, tool)) == Some((slug, tool))
  {
    forall j: nat ensures !At(slug + "_", SEP, j) {
      if j + 2 <= |slug| + 1 {
        assert (slug + "_")[j] == slug[j] != '_';
        assert (slug + "_")[j..j + 2][0] == (slug + "_")[j];
      }
    }
    SplitUndoesNamespaceIff(Namespace(slug, tool), slug, tool);
  }

  // ---- What a slug keeps --------------------------------------------------

  function WordEnd(s: string): (n: nat)
    ensures n <= |s| && (n < |s| ==> !IsSlugChar(s[n]))
    ensures s != "" && IsSlugChar(s[0]) ==> n > 0
  {
    if s == "" || !IsSlugChar(s[0]) then 0 else 1 + WordEnd(s[1..])
  }

  /** The maximal runs of slug characters. */
  function Words(s: string): seq<string>
    decreases |s|
  {
    if s == "" then []
    else if !IsSlugChar(s[0]) then Words(s[1..])
    else [s[..WordEnd(s)]] + Words(s[WordEnd(s)..])
  }

  function Dashes(words: seq<string>): string {
    if words == [] then "" else if |words| == 1 then words[0] else words[0] + ['-'] + Dashes(words[1..])
  }

  ghost predicate IsWord(w: string) { w != "" && forall i :: 0 <= i < |w| ==> IsSlugChar(w[i]) }

  lemma {:induction false} WordEndsWord(s: string)
    ensures forall i :: 0 <= i < WordEnd(s) ==> IsSlugChar(s[i])
    decreases |s|
  {
    if s != "" && IsSlugChar(s[0]) {
      WordEndsWord(s[1..]);
      assert forall i :: 1 <= i < WordEnd(s) ==> s[i] == s[1..][i - 1];
    }
  }

  lemma {:induction false} WordsAreWords(s: string)
    ensures forall w <- Words(s) :: IsWord(w)
    decreases |s|
  {
    if s != "" {
      if IsSlugChar(s[0]) {
        WordEndsWord(s);
        WordsAreWords(s[WordEnd(s)..]);
      } else {
        WordsAreWords(s[1..]);
      }
    }
  }

  lemma {:induction false} CollapseWord(s: string, inRun: bool, n: nat)
    requires n <= |s| && forall i :: 0 <= i < n ==> IsSlugChar(s[i])
    ensures n > 0 ==> Collapse(s, inRun) == s[..n] + Collapse(s[n..], false)
    decreases n
  {
    if n > 0 {
      CollapseWord(s[1..], false, n - 1);
      assert s[..n] == [s[0]] + s[1..][..n - 1] && s[n..] == s[1..][n - 1..];
      assert n == 1 ==> s[1..][..0] == "" && s[1..][0..] == s[1..];
    }
  }

  lemma {:induction false} TrimRightKeeps(a: string, b: string)
    requires TrimRight(b) != ""
    ensures TrimRight(a + b) == a + TrimRight(b)
    decreases |b|
  {
    if b[|b| - 1] == '-' {
      assert (a + b)[..|a + b| - 1] == a + b[..|b| - 1];
      TrimRightKeeps(a, b[..|b| - 1]);
    }
  }

  lemma {:induction false} TrimRightOfStart(s: string)
    requires s != "" && s[0] != '-'
    ensures TrimRight(s) != ""
    decreases |s|
  {
    if s[|s| - 1] == '-' { TrimRightOfStart(s[..|s| - 1]); }
  }

  /** Inside a run of other characters, what is still written is the words ahead, joined. */
  lemma {:induction false} CollapseJoins(s: string)
    ensures TrimRight(Collapse(s, true)) == Dashes(Words(s))
    decreases |s|
  {
    if s != "" && !IsSlugChar(s[0]) {
      CollapseJoins(s[1..]);
      assert "" + Collapse(s[1..], true) == Collapse(s[1..], true);
    } else if s != "" {
      var n := WordEnd(s);
      var w, rest := s[..n], s[n..];
      WordEndsWord(s);
      CollapseWord(s, true, n);
      assert w[|w| - 1] != '-' && TrimRight(w) == w;
      if rest == "" {
        assert w + "" == w;
      } else {
        CollapseJoins(rest[1..]);
        CollapseIsDashed(rest[1..], true);
        WordsAreWords(rest[1..]);
        LaterWords(w, Collapse(rest[1..], true), Words(rest[1..]));
      }
    }
  }

  lemma {:induction false} LaterWords(w: string, x: string, words: seq<string>)
    requires w != "" && w[|w| - 1] != '-' && (x != "" ==> x[0] != '-') && TrimRight(x) == Dashes(words)
    requires forall v <- words :: IsWord(v)
    ensures TrimRight(w + (['-'] + x)) == Dashes([w] + words)
  {
    assert ([w] + words)[1..] == words;
    if x == "" {
      DashShows(words);
      assert (w + (['-'] + x))[..|w|] == w;
    } else {
      TrimRightOfStart(x);
      TrimRightKeeps(w + ['-'], x);
      assert w + (['-'] + x) == w + ['-'] + x;
    }
  }

  /** Only a leading dash tells the two ways to start apart. */
  lemma {:induction false} TrimLeftStarts(s: string)
    ensures TrimLeft(Collapse(s, false)) == Collapse(s, true)
  {
    hide Dashed;
    CollapseIsDashed(s, true);
    if s != "" && !IsSlugChar(s[0]) {
      CollapseIsDashed(s[1..], true);
      var x := Collapse(s[1..], true);
      assert (['-'] + x)[1..] == x && "" + x == x;
      assert TrimLeft(x) == x;
    }
  }

  /** The slug of a name is its words, in order, joined by dashes. */
  lemma {:induction false} SlugJoinsWords(s: string)
    ensures SlugOfLower(s) == Dashes(Words(s))
  {
    CollapseJoins(s);
    TrimLeftStarts(s);
  }

  lemma {:induction false} FirstWord(a: string, x: string, b: string, y: string)
    requires IsWord(a) && IsWord(b) && a + ['-'] + x == b + ['-'] + y
    ensures a == b && x == y
  {
    var s := a + ['-'] + x;
    forall i | 0 <= i < |a| ensures s[i] != '-' { assert s[i] == a[i]; }
    forall i | 0 <= i < |b| ensures s[i] != '-' { assert s[i] == b[i]; }
    assert s[|a|] == '-' && s[|b|] == '-';
    assert a == s[..|a|] && b == s[..|b|];
    assert x == s[|a| + 1..] && y == s[|b| + 1..];
  }

  lemma {:induction false} DashesAreInjective(xs: seq<string>, ys: seq<string>)
    requires (forall w <- xs :: IsWord(w)) && (forall w <- ys :: IsWord(w)) && Dashes(xs) == Dashes(ys)
    ensures xs == ys
    decreases |xs|
  {
    DashShows(xs);
    DashShows(ys);
    if |xs| > 1 {
      FirstWord(xs[0], Dashes(xs[1..]), ys[0], Dashes(ys[1..]));
      DashesAreInjective(xs[1..], ys[1..]);
      assert xs == [xs[0]] + xs[1..] && ys == [ys[0]] + ys[1..];
    } else if |xs| == 1 {
      assert xs == [xs[0]] && ys == [ys[0]];
    }
  }

  /** How many words there are, up to two, shows. */
  lemma {:induction false} DashShows(xs: seq<string>)
    requires forall w <- xs :: IsWord(w)
    ensures Dashes(xs) == "" <==> xs == []
    ensures '-' in Dashes(xs) <==> |xs| > 1
  {
    assert xs != [] ==> IsWord(xs[0]);
    if |xs| > 1 { assert Dashes(xs)[|xs[0]|] == '-'; }
  }

  /** Two names share a slug exactly if their lower-cased words are the same. */
  lemma {:induction false} SlugsCollideIff(a: string, b: string)
    ensures Slugify(a) == Slugify(b) <==> Words(ToLower(a)) == Words(ToLower(b))
  {
    SlugJoinsWords(ToLower(a));
    SlugJoinsWords(ToLower(b));
    WordsAreWords(ToLower(a));
    WordsAreWords(ToLower(b));
    if Slugify(a) == Slugify(b) { DashesAreInjective(Words(ToLower(a)), Words(ToLower(b))); }
  }

  lemma {:induction false} LowerJoins(a: string, b: string)
    ensures ToLower(a + b) == ToLower(a) + ToLower(b)
  {}

  lemma {:induction false} WordsSkip(gap: string, rest: string)
    requires forall i :: 0 <= i < |gap| ==> !IsSlugChar(gap[i])
    ensures Words(gap + rest) == Words(rest)
    decreases |gap|
  {
    if gap == "" {
      assert gap + rest == rest;
    } else {
      assert (gap + rest)[1..] == gap[1..] + rest;
      WordsSkip(gap[1..], rest);
    }
  }

  lemma {:induction false} WordEndIs(w: string, rest: string)
    requires forall i :: 0 <= i < |w| ==> IsSlugChar(w[i])
    requires rest == "" || !IsSlugChar(rest[0])
    ensures WordEnd(w + rest) == |w|
    decreases |w|
  {
    if w == "" {
      assert w + rest == rest;
    } else {
      assert (w + rest)[1..] == w[1..] + rest;
      WordEndIs(w[1..], rest);
    }
  }

  lemma {:induction false} WordsGo(w: string, rest: string)
    requires IsWord(w) && (rest == "" || !IsSlugChar(rest[0]))
    ensures Words(w + rest) == [w] + Words(rest)
  {
    WordEndIs(w, rest);
    assert (w + rest)[..|w|] == w && (w + rest)[|w|..] == rest;
  }

  /**
   * In plain characters, whatever the name: leading characters other than ASCII
   * letters and digits leave no trace; a run of letters and digits goes into the
   * slug with its letters lower-cased, and what stands between it and the next
   * such run becomes one dash.
   */
  lemma {:induction false} SlugOfName(gap: string, w: string, l: string, sep: string, rest: string)
    requires forall i :: 0 <= i < |gap| ==>
      !('a' <= gap[i] <= 'z' || 'A' <= gap[i] <= 'Z' || '0' <= gap[i] <= '9')
    requires w != "" && forall i :: 0 <= i < |w| ==>
      'a' <= w[i] <= 'z' || 'A' <= w[i] <= 'Z' || '0' <= w[i] <= '9'
    requires |l| == |w| && forall i :: 0 <= i < |w| ==>
      l[i] == if 'A' <= w[i] <= 'Z' then (w[i] as int + 32) as char else w[i]
    requires sep != "" && forall i :: 0 <= i < |sep| ==>
      !('a' <= sep[i] <= 'z' || 'A' <= sep[i] <= 'Z' || '0' <= sep[i] <= '9')
    ensures Slugify("") == "" && Slugify(gap + rest) == Slugify(rest) && Slugify(w) == l
    ensures Slugify(w + sep + rest) == if Slugify(rest) == "" then l else l + "-" + Slugify(rest)
  {
    assert ToLower(w) == l;
    var lg, ls, lr := ToLower(gap), ToLower(sep), ToLower(rest);
    LowerJoins(gap, rest);
    LowerJoins(w, sep);
    LowerJoins(w + sep, rest);
    assert IsWord(l) && !IsSlugChar(ls[0]) && ToLower("") == "";
    hide ToLower, SlugOfLower, IsSlugChar;
    WordsSkip(lg, lr);
    WordsSkip(ls, lr);
    WordsGo(l, "");
    assert l + "" == l && l + ls + lr == l + (ls + lr);
    WordsGo(l, ls + lr);
    SlugJoinsWords("");
    SlugJoinsWords(lg + lr);
    SlugJoinsWords(lr);
    SlugJoinsWords(l);
    SlugJoinsWords(l + ls + lr);
    WordsAreWords(lr);
    DashShows(Words(lr));
    assert ([l] + Words(lr))[1..] == Words(lr);
  }
}
