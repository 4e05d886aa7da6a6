/** JSON string literals as the encoder writes them (RFC 8259, section 7), with a reader that undoes it. */
module JsonText {
  import opened Options

  function Hex(d: nat): char
    requires d < 16
  {
    if d < 10 then '0' + d as char else 'a' + (d - 10) as char
  }

  function UnHex(c: char): Option<nat> {
    if '0' <= c <= '9' then Some((c - '0') as nat)
    else if 'a' <= c <= 'f' then Some((c - 'a') as nat + 10)
    else None
  }

  /** One character of a string; control and HTML-significant characters are written as escapes. */
  function Escape(c: char): (s: string)
    ensures s != "" && s[0] != '"'
  {
    if c == '"' || c == '\\' then ['\\', c]
    else if c == '\U{0008}' then "\\b"
    else if c == '\U{000C}' then "\\f"
    else if c == '\n' then "\\n"
    else if c == '\r' then "\\r"
    else if c == '\t' then "\\t"
    else if c < ' ' || c == '<' || c == '>' || c == '&' then
      ['\\', 'u', '0', '0', Hex(c as nat / 16), Hex(c as nat % 16)]
    else if c == '\U{2028}' then "\\u2028"
    else if c == '\U{2029}' then "\\u2029"
    else [c]
  }

  /** The character that a text starts with, and the text after it. */
  function Unescape(s: string): (r: Option<(char, string)>)
    ensures r.Some? ==> |r.value.1| < |s|
  {
    if s == "" then None
    else if s[0] != '\\' then Some((s[0], s[1..]))
    else if |s| == 1 then None
    else if s[1] == 'u' then UnescapeHex(s)
    else
      match s[1]
      case '"' => Some(('"', s[2..]))
      case '\\' => Some(('\\', s[2..]))
      case 'b' => Some(('\U{0008}', s[2..]))
      case 'f' => Some(('\U{000C}', s[2..]))
      case 'n' => Some(('\n', s[2..]))
      case 'r' => Some(('\r', s[2..]))
      case 't' => Some(('\t', s[2..]))
      case _ => None
  }

  function UnescapeHex(s: string): (r: Option<(char, string)>)
    ensures r.Some? ==> |r.value.1| < |s|
  {
    if |s| < 6 then None
    else
      match (UnHex(s[2]), UnHex(s[3]), UnHex(s[4]), UnHex(s[5]))
      case (Some(a), Some(b), Some(c), Some(d)) =>
        var code := 4096 * a + 256 * b + 16 * c + d;
        if code < 0xD800 then Some((code as char, s[6..])) else None
      case _ => None
  }

  lemma {:induction false} UnescapeUndoesEscape(c: char, rest: string)
    ensures Unescape(Escape(c) + rest) == Some((c, rest))
  {
    var s := Escape(c) + rest;
    assert s[|Escape(c)|..] == rest;
    if |Escape(c)| == 6 {
      assert s[0] == '\\' && s[1] == 'u' && s[2] == Escape(c)[2];
      assert s[3] == Escape(c)[3] && s[4] == Escape(c)[4] && s[5] == Escape(c)[5];
    } else if |Escape(c)| == 2 {
      assert s[0] == '\\' && s[1] == Escape(c)[1];
    }
  }

  function EscapeAll(t: string): string {
    if t == "" then "" else Escape(t[0]) + EscapeAll(t[1..])
  }

  function Quote(t: string): string { ['"'] + EscapeAll(t) + ['"'] }

  /** Characters up to the closing quote, and the text after it. */
  function ReadChars(s: string): Option<(string, string)>
    decreases |s|
  {
    if s == "" then None
    else if s[0] == '"' then Some(("", s[1..]))
    else
      match Unescape(s)
      case None => None
      case Some((c, rest)) =>
        match ReadChars(rest)
        case None => None
        case Some((t, after)) => Some(([c] + t, after))
  }

  function ReadString(s: string): Option<(string, string)> {
    if s == "" || s[0] != '"' then None else ReadChars(s[1..])
  }

  lemma {:induction false} ReadCharsUndoesEscape(t: string, rest: string)
    ensures ReadChars(EscapeAll(t) + (['"'] + rest)) == Some((t, rest))
    decreases |t|
  {
    hide Escape, Unescape;
    var tail := ['"'] + rest;
    if t == "" {
      assert EscapeAll(t) + tail == tail && tail[1..] == rest;
    } else {
      var s, more := EscapeAll(t) + tail, EscapeAll(t[1..]) + tail;
      assert s == Escape(t[0]) + more;
      assert s[0] == Escape(t[0])[0];
      UnescapeUndoesEscape(t[0], more);
      ReadCharsUndoesEscape(t[1..], rest);
      assert t == [t[0]] + t[1..];
    }
  }

  /** A string literal reads back as the string, and shows where it ends whatever follows it. */
  lemma {:induction false} ReadUndoesQuote(t: string, rest: string)
    ensures ReadString(Quote(t) + rest) == Some((t, rest))
  {
    var s := Quote(t) + rest;
    ReadCharsUndoesEscape(t, rest);
    assert s[0] == '"' && s[1..] == EscapeAll(t) + (['"'] + rest);
  }

  /** Neither a control character, nor one that HTML or JavaScript would read as markup or a line break. */
  predicate Harmless(c: char) { c >= ' ' && c != '<' && c != '>' && c != '&' && c != '\U{2028}' && c != '\U{2029}' }

  /** Every literal is one harmless line. */
  lemma {:induction false} QuoteIsHarmless(t: string)
    ensures forall i :: 0 <= i < |Quote(t)| ==>
      && Quote(t)[i] >= ' ' && Quote(t)[i] != '<' && Quote(t)[i] != '>' && Quote(t)[i] != '&'
      && Quote(t)[i] != '\U{2028}' && Quote(t)[i] != '\U{2029}'
  {
    EscapeAllIsHarmless(t);
  }

  lemma {:induction false} EscapeAllIsHarmless(t: string)
    ensures forall i :: 0 <= i < |EscapeAll(t)| ==> Harmless(EscapeAll(t)[i])
    decreases |t|
  {
    if t != "" { EscapeAllIsHarmless(t[1..]); }
  }
}
