/** Pins on the wire: the client writes each as "<artifactId>:<revision>", the server found them back. */
module PinWire {
  import opened Options
  import opened Strings

  datatype PinError = TooMany | NotAPair | NotAUUID | BadRevision | Repeated

  datatype Result<T> = Ok(value: T) | Err(error: PinError)

  const MAX_PINS := 100
  const MAX_INT := 0x7FFF_FFFF_FFFF_FFFF

  // ---- Numbers ------------------------------------------------------------

  predicate IsDigit(c: char) { '0' <= c <= '9' }

  function Digit(c: char): nat
    requires IsDigit(c)
  {
    (c - '0') as nat
  }

  predicate AllDigits(s: string) { forall i :: 0 <= i < |s| ==> IsDigit(s[i]) }

  function Value(s: string): nat
    requires AllDigits(s)
  {
    if s == "" then 0 else 10 * Value(s[..|s| - 1]) + Digit(s[|s| - 1])
  }

  /** A decimal integer with at most one sign, within 64 bits. */
  function Atoi(s: string): Option<int> {
    var signed := s != "" && (s[0] == '-' || s[0] == '+');
    var digits := if signed then s[1..] else s;
    if digits == "" || !AllDigits(digits) then None
    else
      var size: int := Value(digits);
      var n := if signed && s[0] == '-' then -size else size;
      if -MAX_INT - 1 <= n <= MAX_INT then Some(n) else None
  }

  function Decimal(n: nat): (s: string)
    ensures s != "" && AllDigits(s)
  {
    if n < 10 then ['0' + n as char] else Decimal(n / 10) + ['0' + (n % 10) as char]
  }

  lemma {:induction false} ValueOfDecimal(n: nat)
    ensures Value(Decimal(n)) == n
  {
    if n >= 10 {
      ValueOfDecimal(n / 10);
      assert Decimal(n)[..|Decimal(n)| - 1] == Decimal(n / 10);
    }
  }

  lemma {:induction false} AtoiOfDecimal(n: nat)
    requires n <= MAX_INT
    ensures Atoi(Decimal(n)) == Some(n)
  {
    ValueOfDecimal(n);
    assert IsDigit(Decimal(n)[0]);
  }

  /**
   * Reading goes digit by digit and ends at 2^63 - 1; one sign may lead, and
   * anything else in the text, or no digit at all, makes it unreadable.
   */
  lemma {:induction false} AtoiIsExact(s: string, c: char)
    requires s != "" && forall i :: 0 <= i < |s| ==> '0' <= s[i] <= '9'
    ensures Atoi("") == Atoi("-") == Atoi("+") == None
    ensures '0' <= c <= '9' ==> Atoi([c]) == Some(c as int - '0' as int)
    ensures '0' <= c <= '9' ==>
      if Atoi(s).Some? && 10 * Atoi(s).value + (c as int - '0' as int) < 0x8000_0000_0000_0000
      then Atoi(s + [c]) == Some(10 * Atoi(s).value + (c as int - '0' as int)) else Atoi(s + [c]) == None
    ensures Atoi("+" + s) == Atoi(s) && (Atoi(s).Some? ==> Atoi("-" + s) == Some(-Atoi(s).value))
    ensures !('0' <= c <= '9') ==> Atoi(s + [c]) == None && (c != '-' && c != '+' ==> Atoi([c] + s) == None)
  {
    assert (s + [c])[..|s|] == s && (s + [c])[|s|] == c && IsDigit(s[0]);
    assert ("+" + s)[1..] == s && ("-" + s)[1..] == s && ([c] + s)[0] == c;
    assert "-"[1..] == "" && "+"[1..] == "";
    assert [c][..0] == "" && Value("") == 0;
  }

  // ---- One pin ------------------------------------------------------------

  predicate IsHex(c: char) { IsDigit(c) || 'a' <= c <= 'f' || 'A' <= c <= 'F' }

  /** Hex digits in groups of 8, 4, 4, 4 and 12. */
  predicate IsUUID(s: string) {
    && |s| == 36
    && forall i :: 0 <= i < 36 ==> if i == 8 || i == 13 || i == 18 || i == 23 then s[i] == '-' else IsHex(s[i])
  }

  function ReadPin(pair: string): Result<(string, int)> {
    var sep := Index(pair, ":");
    if sep < 0 then Err(NotAPair)
    else if !IsUUID(pair[..sep]) then Err(NotAUUID)
    else
      match Atoi(pair[sep + 1..])
      case None => Err(BadRevision)
      case Some(n) => if n < 1 then Err(BadRevision) else Ok((pair[..sep], n))
  }

  function WritePin(id: string, revision: nat): string { id + ":" + Decimal(revision) }

  lemma {:induction false} UUIDThenColon(pair: string)
    requires |pair| > 36 && IsUUID(pair[..36]) && pair[36] == ':'
    ensures Index(pair, ":") == 36
  {
    assert pair[36..37] == ":";
    forall j: nat | j < 36 ensures !At(pair, ":", j) {
      assert pair[j] == pair[..36][j] != ':';
      assert pair[j..j + 1][0] == pair[j];
    }
    FirstIs(pair, ":", 36);
  }

  /** A pin reads exactly if it is a UUID, a colon and an integer of at least one. */
  lemma {:induction false} ReadPinIff(pair: string, id: string, n: int)
    ensures ReadPin(pair) == Ok((id, n)) <==>
      && |pair| > 36 && pair[..36] == id && pair[36] == ':' && n >= 1 && Atoi(pair[37..]) == Some(n)
      && forall i :: 0 <= i < 36 ==>
           if i in {8, 13, 18, 23} then id[i] == '-'
           else '0' <= id[i] <= '9' || 'a' <= id[i] <= 'f' || 'A' <= id[i] <= 'F'
  {
    var sep := Index(pair, ":");
    if ReadPin(pair) == Ok((id, n)) {
      AtShows(pair, ":", sep, 0);
    } else if |pair| > 36 && IsUUID(pair[..36]) && pair[36] == ':' {
      UUIDThenColon(pair);
    }
  }

  lemma {:induction false} ReadUndoesWrite(id: string, revision: nat)
    requires IsUUID(id) && 1 <= revision <= MAX_INT
    ensures ReadPin(WritePin(id, revision)) == Ok((id, revision))
  {
    var pair := WritePin(id, revision);
    assert pair[..36] == id && pair[36] == ':' && pair[37..] == Decimal(revision);
    AtoiOfDecimal(revision);
    ReadPinIff(pair, id, revision);
  }

  // ---- All of them --------------------------------------------------------

  type Read = Result<(string, int)>

  function ReadEach(raw: seq<string>): seq<Read> {
    seq(|raw|, i requires 0 <= i < |raw| => ReadPin(raw[i]))
  }

  /** The pins read, gathered into a map; the first that cannot be read or repeats an artifact decides the error. */
  function Gather(found: seq<Read>): Result<map<string, int>> {
    if found == [] then Ok(map[])
    else
      match Gather(found[..|found| - 1])
      case Err(e) => Err(e)
      case Ok(pins) =>
        match found[|found| - 1]
        case Err(e) => Err(e)
        case Ok((id, n)) => if id in pins then Err(Repeated) else Ok(pins[id := n])
  }

  function ReadPins(raw: seq<string>): Result<map<string, int>> { Gather(ReadEach(raw)) }

  method ParsePins(raw: seq<string>) returns (r: Result<map<string, int>>)
    ensures r == if |raw| > 100 then Err(TooMany) else ReadPins(raw)
  {
    hide ReadPin;
    if |raw| == 0 { return Ok(map[]); }
    if |raw| > MAX_PINS { return Err(TooMany); }
    var pins: map<string, int> := map[];
    ghost var found := ReadEach(raw);
    for i := 0 to |raw|
      invariant Gather(found[..i]) == Ok(pins)
    {
      assert found[..i + 1][..i] == found[..i];
      var one := ReadPin(raw[i]);
      if one.Err? || one.value.0 in pins {
        r := Err(if one.Err? then one.error else Repeated);
        FirstErrorStays(found, i + 1);
        return;
      }
      pins := pins[one.value.0 := one.value.1];
    }
    assert found[..|raw|] == found;
    r := Ok(pins);
  }

  lemma {:induction false} FirstErrorStays(found: seq<Read>, n: nat)
    requires n <= |found| && Gather(found[..n]).Err?
    ensures Gather(found) == Gather(found[..n])
    decreases |found|
  {
    if n == |found| {
      assert found[..n] == found;
    } else {
      var front := found[..|found| - 1];
      assert front[..n] == found[..n];
      FirstErrorStays(front, n);
    }
  }

  ghost predicate AllRead(found: seq<Read>) { forall i :: 0 <= i < |found| ==> found[i].Ok? }

  ghost predicate NoneTwice(found: seq<Read>)
    requires AllRead(found)
  {
    forall i, j :: 0 <= i < j < |found| ==> found[i].value.0 != found[j].value.0
  }

  /** pins holds what was read and nothing else. */
  ghost predicate Holds(found: seq<Read>, pins: map<string, int>)
    requires AllRead(found)
  {
    && (forall i :: 0 <= i < |found| ==> found[i].value.0 in pins && pins[found[i].value.0] == found[i].value.1)
    && (forall id <- pins :: exists i :: 0 <= i < |found| && found[i].value.0 == id)
  }

  lemma {:induction false} GatherHolds(found: seq<Read>)
    requires Gather(found).Ok?
    ensures AllRead(found) && NoneTwice(found) && Holds(found, Gather(found).value)
    decreases |found|
  {
    if found != [] {
      var front, last := found[..|found| - 1], found[|found| - 1];
      GatherHolds(front);
      OneMoreHolds(front, last, Gather(front).value);
      assert front + [last] == found;
    }
  }

  lemma {:induction false} OneMoreHolds(front: seq<Read>, last: Read, pins: map<string, int>)
    requires AllRead(front) && NoneTwice(front) && Holds(front, pins) && last.Ok? && last.value.0 !in pins
    ensures AllRead(front + [last]) && NoneTwice(front + [last])
    ensures Holds(front + [last], pins[last.value.0 := last.value.1])
  {
    var found := front + [last];
    forall id <- pins ensures exists i :: 0 <= i < |found| && found[i].value.0 == id {
      var i :| 0 <= i < |front| && front[i].value.0 == id;
      assert found[i] == front[i];
    }
    assert found[|front|] == last;
  }

  /**
   * Pins are accepted exactly when each can be read and no artifact is named
   * twice; then the map holds those pins and nothing else.
   */
  lemma {:induction false} PinsReadIff(raw: seq<string>)
    ensures ReadPins(raw).Ok? <==> AllRead(ReadEach(raw)) && NoneTwice(ReadEach(raw))
    ensures ReadPins(raw).Ok? ==> AllRead(ReadEach(raw)) && Holds(ReadEach(raw), ReadPins(raw).value)
  {
    GatherIff(ReadEach(raw));
    if ReadPins(raw).Ok? { GatherHolds(ReadEach(raw)); }
  }

  lemma {:induction false} GatherIff(found: seq<Read>)
    ensures Gather(found).Ok? <==> AllRead(found) && NoneTwice(found)
    decreases |found|
  {
    if Gather(found).Ok? {
      GatherHolds(found);
    } else {
      var front, last := found[..|found| - 1], |found| - 1;
      GatherIff(front);
      assert forall i :: 0 <= i < last ==> front[i] == found[i];
      if Gather(front).Ok? && found[last].Ok? {
        GatherHolds(front);
        var i :| 0 <= i < |front| && front[i].value.0 == found[last].value.0;
        assert found[i] == front[i];
      }
    }
  }

  /** A client's pins, one to an artifact, as it writes them. */
  datatype Pin = Pin(artifactID: string, typ: string, name: string, revision: nat)

  function WriteEach(pins: seq<Pin>): seq<string> {
    seq(|pins|, i requires 0 <= i < |pins| => WritePin(pins[i].artifactID, pins[i].revision))
  }

  ghost predicate WellFormed(pins: seq<Pin>) {
    && |pins| <= MAX_PINS
    && (forall i :: 0 <= i < |pins| ==> IsUUID(pins[i].artifactID) && 1 <= pins[i].revision <= MAX_INT)
    && (forall i, j :: 0 <= i < j < |pins| ==> pins[i].artifactID != pins[j].artifactID)
  }

  /** The server found back exactly the pins the client wrote. */
  lemma {:induction false} ServerReadsWhatClientWrote(pins: seq<Pin>)
    requires WellFormed(pins)
    ensures ReadPins(WriteEach(pins)).Ok?
    ensures var m := ReadPins(WriteEach(pins)).value;
      && (forall i :: 0 <= i < |pins| ==> pins[i].artifactID in m && m[pins[i].artifactID] == pins[i].revision)
      && (forall id <- m :: exists i :: 0 <= i < |pins| && pins[i].artifactID == id)
  {
    var raw := WriteEach(pins);
    var found := ReadEach(raw);
    forall i | 0 <= i < |pins| ensures found[i] == Ok((pins[i].artifactID, pins[i].revision)) {
      ReadUndoesWrite(pins[i].artifactID, pins[i].revision);
    }
    PinsReadIff(raw);
  }
}
