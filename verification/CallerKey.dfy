/** The key a caller is limited and cached under. */
module CallerKey {
  /** The bucket key of a caller: its subject, qualified by its client when the token names one. */
  function KeyFor(subject: string, clientID: string): string {
    if clientID == "" then subject else subject + "|" + clientID
  }

  /** Without a bar in them, subjects never share a key with another subject and client. */
  lemma {:induction false} KeyIsOneCaller(s: string, c: string, s': string, c': string)
    requires '|' !in s && '|' !in s' && KeyFor(s, c) == KeyFor(s', c')
    ensures s == s' && c == c'
    ensures KeyFor(s, "") == s && (c != "" ==> KeyFor(s, c) == s + "|" + c)
  {
    var k := KeyFor(s, c);
    assert |s| < |k| ==> k[|s|] == '|';
    assert |s'| < |k| ==> k[|s'|] == '|';
    assert forall i :: 0 <= i < |s| ==> k[i] == s[i] != '|';
    assert forall i :: 0 <= i < |s'| ==> k[i] == s'[i] != '|';
    assert s == k[..|s|] == s';
    assert c == (if |k| == |s| then "" else k[|s| + 1..]) == c';
  }
}
