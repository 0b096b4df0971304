/**
 Webhook signatures of app/security/signatures.py. The keyed hash (HMAC, section 2 of RFC 2104,
 with SHA-256) is a parameter: any function from secret and payload to a hexadecimal digest.
 */
module Signatures {
  import opened Common
  import opened Text

  type Mac = (string, seq<Byte>) -> string

  datatype SignatureError = SignatureInvalid | ReplayDetected | NotAscii

  predicate IsHex(s: string) {
    s != [] && forall i :: 0 <= i < |s| ==> '0' <= s[i] <= '9' || 'a' <= s[i] <= 'f'
  }

  /** All the model needs of HMAC-SHA256: its `hexdigest()` is hexadecimal. */
  ghost predicate HexDigests(mac: Mac) {
    forall secret, payload :: IsHex(mac(secret, payload))
  }

  // ---------------------------------------------------------------- signing

  function Ascii(s: string): seq<Byte>
    requires forall i :: 0 <= i < |s| ==> s[i] as int < 128
  {
    seq(|s|, i requires 0 <= i < |s| => s[i] as int)
  }

  /** The signed bytes: timestamp, a dot, the body. */
  function Payload(timestamp: int, body: seq<Byte>): seq<Byte> {
    Ascii(PrintInt(timestamp)) + [46] + body
  }

  function Compute(mac: Mac, secret: string, timestamp: int, body: seq<Byte>): string {
    mac(secret, Payload(timestamp, body))
  }

  function Sign(mac: Mac, body: seq<Byte>, secret: string, timestamp: int): string {
    "t=" + PrintInt(timestamp) + ",v1=" + Compute(mac, secret, timestamp, body)
  }

  /** The position of the first dot, or the length without one. */
  function DotIndex(s: seq<Byte>): nat {
    if s == [] || s[0] == 46 then 0 else 1 + DotIndex(s[1..])
  }

  lemma {:induction false} DotEndsTimestamp(a: seq<Byte>, x: seq<Byte>)
    requires 46 !in a
    ensures DotIndex(a + [46] + x) == |a|
  {
    if a == [] {
    } else {
      assert (a + [46] + x)[1..] == a[1..] + [46] + x;
      DotEndsTimestamp(a[1..], x);
    }
  }

  lemma {:induction false} FirstDot(a: seq<Byte>, x: seq<Byte>, b: seq<Byte>, y: seq<Byte>)
    requires 46 !in a && 46 !in b && a + [46] + x == b + [46] + y
    ensures a == b && x == y
  {
    var s, t := a + [46] + x, b + [46] + y;
    DotEndsTimestamp(a, x);
    DotEndsTimestamp(b, y);
    assert a == s[..|a|] == t[..|b|] == b;
    assert x == s[|a| + 1..] == t[|b| + 1..] == y;
  }

  /** No two different (timestamp, body) pairs are ever signed as the same bytes. */
  lemma {:induction false} PayloadIsInjective(ts: int, body: seq<Byte>, ts': int, body': seq<Byte>)
    requires Payload(ts, body) == Payload(ts', body')
    ensures ts == ts' && body == body'
  {
    var s, t := PrintInt(ts), PrintInt(ts');
    FirstDot(Ascii(s), body, Ascii(t), body');
    forall i | 0 <= i < |s|
      ensures i < |t| && s[i] == t[i]
    {
      assert Ascii(s)[i] == Ascii(t)[i];
    }
    assert |s| == |Ascii(s)| == |t|;
    assert s == t;
    IntRoundTrip("", ts, "");
    IntRoundTrip("", ts', "");
  }

  /** The signed bytes read back: the timestamp in decimal up to the first dot, then the body. */
  lemma {:induction false} PayloadReadsBack(ts: int, body: seq<Byte>)
    ensures
      var s, n := Payload(ts, body), |PrintInt(ts)|;
      && n < |s| && s[n] == '.' as int && DotIndex(s) == n && s[n + 1..] == body
      && forall i :: 0 <= i < n ==> s[i] == PrintInt(ts)[i] as int
  {
    DotEndsTimestamp(Ascii(PrintInt(ts)), body);
  }

  // ---------------------------------------------------------------- parsing

  datatype Header = Header(timestamp: int, signatures: seq<string>)

  /** What the loop over the header's parts has collected, unless a timestamp was malformed. */
  datatype Scan = Malformed | Scan(timestamp: Option<int>, signatures: seq<string>)

  function ScanPart(before: Scan, part: string): Scan {
    if before.Malformed? then Malformed
    else
      var (key, value) := Partition(Strip(OfStrip, part), '=');
      if key == "t" then
        var ts := ParseInt(value);
        if ts.None? then Malformed else before.(timestamp := ts)
      else if key == "v1" then before.(signatures := before.signatures + [value])
      else before
  }

  function ScanParts(parts: seq<string>): Scan {
    if parts == [] then Scan(None, [])
    else ScanPart(ScanParts(parts[..|parts| - 1]), parts[|parts| - 1])
  }

  function Conclude(s: Scan): Result<Header, SignatureError> {
    if s.Malformed? || s.timestamp.None? || s.signatures == [] then Raised(SignatureInvalid)
    else Ok(Header(s.timestamp.value, s.signatures))
  }

  lemma {:induction false} MalformedStays(parts: seq<string>, i: nat)
    requires i <= |parts| && ScanParts(parts[..i]).Malformed?
    ensures ScanParts(parts).Malformed?
  {
    if i < |parts| {
      var front := parts[..|parts| - 1];
      assert front[..i] == parts[..i];
      MalformedStays(front, i);
    } else {
      assert parts[..i] == parts;
    }
  }

  method ParseHeader(header: string) returns (r: Result<Header, SignatureError>)
    ensures r == Conclude(ScanParts(Split(header, ',')))
  {
    var parts := Split(header, ',');
    var ts: Option<int> := None;
    var signatures: seq<string> := [];
    var i := 0;
    while i < |parts|
      invariant 0 <= i <= |parts|
      invariant ScanParts(parts[..i]) == Scan(ts, signatures)
    {
      var (key, value) := Partition(Strip(OfStrip, parts[i]), '=');
      assert parts[..i + 1][..i] == parts[..i];
      if key == "t" {
        var parsed := ParseInt(value);
        if parsed.None? {
          MalformedStays(parts, i + 1);
          return Raised(SignatureInvalid);
        }
        ts := parsed;
      } else if key == "v1" {
        signatures := signatures + [value];
      }
      i := i + 1;
    }
    assert parts[..i] == parts;
    if ts.None? || signatures == [] {
      return Raised(SignatureInvalid);
    }
    return Ok(Header(ts.value, signatures));
  }

  // ---------------------------------------------------------------- headers as lists of entries

  /** One part of a header with the blanks around it: `key=value`, or a word without '='. */
  datatype Entry =
    | Pair(before: string, key: string, value: string, after: string)
    | Bare(before: string, word: string, after: string)

  function Core(e: Entry): string {
    if e.Pair? then e.key + "=" + e.value else e.word
  }

  function Key(e: Entry): string {
    if e.Pair? then e.key else e.word
  }

  function Content(e: Entry): string {
    if e.Pair? then e.value else ""
  }

  function Render(e: Entry): string {
    e.before + Core(e) + e.after
  }

  function RenderAll(es: seq<Entry>): (parts: seq<string>)
    ensures |parts| == |es| && forall i :: 0 <= i < |es| ==> parts[i] == Render(es[i])
  {
    if es == [] then [] else RenderAll(es[..|es| - 1]) + [Render(es[|es| - 1])]
  }

  /** No comma inside, no '=' in the key, and the blanks are outside. A bare word may be empty,
      as after a trailing comma. */
  ghost predicate WellFormed(e: Entry) {
    && Blank(OfStrip, e.before) && Blank(OfStrip, e.after) && (Trimmed(OfStrip, Core(e)) || Core(e) == "")
    && '=' !in Key(e) && ',' !in Key(e) && ',' !in Content(e)
  }

  ghost predicate AllWellFormed(es: seq<Entry>) {
    forall i :: 0 <= i < |es| ==> WellFormed(es[i])
  }

  /** Every `t` entry holds an integer. */
  predicate TimestampsParse(es: seq<Entry>) {
    forall i :: 0 <= i < |es| && Key(es[i]) == "t" ==> ParseInt(Content(es[i])).Some?
  }

  function LastTimestamp(es: seq<Entry>): Option<int> {
    if es == [] then None
    else if Key(es[|es| - 1]) == "t" then ParseInt(Content(es[|es| - 1]))
    else LastTimestamp(es[..|es| - 1])
  }

  function V1Values(es: seq<Entry>): seq<string> {
    if es == [] then []
    else
      var front := V1Values(es[..|es| - 1]);
      if Key(es[|es| - 1]) == "v1" then front + [Content(es[|es| - 1])] else front
  }

  lemma {:induction false} BlankRender(e: Entry)
    requires WellFormed(e) && Core(e) == ""
    ensures e.Bare? && Blank(OfStrip, Render(e))
  {
  }

  lemma {:induction false} NoCommas(e: Entry)
    requires WellFormed(e)
    ensures ',' !in Render(e)
  {
    assert !IsBlank(OfStrip, ',');
  }

  lemma {:induction false} EntryPartitions(e: Entry)
    requires WellFormed(e)
    ensures Partition(Strip(OfStrip, Render(e)), '=') == (Key(e), Content(e))
  {
    if Core(e) == "" {
      BlankRender(e);
      StripBlank(OfStrip, Render(e));
    } else {
      StripPadded(OfStrip, e.before, Core(e), e.after);
      if e.Pair? {
        PartitionAtFirst(e.key, e.value, '=');
      } else {
        PartitionDecomposes(e.word, '=');
      }
    }
  }

  lemma TimestampsParsePrefix(es: seq<Entry>)
    requires es != []
    ensures TimestampsParse(es) <==>
            TimestampsParse(es[..|es| - 1]) &&
            (Key(es[|es| - 1]) == "t" ==> ParseInt(Content(es[|es| - 1])).Some?)
  {
    var front := es[..|es| - 1];
    assert forall i :: 0 <= i < |front| ==> front[i] == es[i];
  }

  lemma {:induction false} ScanEntries(es: seq<Entry>)
    requires AllWellFormed(es)
    ensures ScanParts(RenderAll(es)) ==
            if TimestampsParse(es) then Scan(LastTimestamp(es), V1Values(es)) else Malformed
  {
    if es == [] {
    } else {
      var front, e := es[..|es| - 1], es[|es| - 1];
      ScanEntries(front);
      assert RenderAll(es)[..|front|] == RenderAll(front);
      EntryPartitions(e);
      TimestampsParsePrefix(es);
    }
  }

  lemma {:induction false} NoCommasInside(es: seq<Entry>)
    requires AllWellFormed(es)
    ensures forall i :: 0 <= i < |es| ==> ',' !in RenderAll(es)[i]
  {
    forall i | 0 <= i < |es|
      ensures ',' !in RenderAll(es)[i]
    {
      NoCommas(es[i]);
    }
  }

  /** A header of any entries, unknown, bare and repeated ones included, parses to its last
      timestamp and all its v1 values in order; it is invalid when a timestamp is not an
      integer or when either is missing. */
  lemma {:induction false} HeaderParsesToEntries(es: seq<Entry>)
    requires es != [] && AllWellFormed(es)
    ensures
      Conclude(ScanParts(Split(Join(RenderAll(es), ','), ','))) ==
      if TimestampsParse(es) && LastTimestamp(es).Some? && V1Values(es) != []
      then Ok(Header(LastTimestamp(es).value, V1Values(es)))
      else Raised(SignatureInvalid)
  {
    NoCommasInside(es);
    SplitJoin(RenderAll(es), ',');
    ScanEntries(es);
  }

  lemma {:induction false} PartIsAnEntry(part: string) returns (e: Entry)
    requires ',' !in part
    ensures WellFormed(e) && Render(e) == part
  {
    var before, after := StripDecomposes(OfStrip, part);
    var core := Strip(OfStrip, part);
    var (key, value) := Partition(core, '=');
    PartitionDecomposes(core, '=');
    assert forall c :: c in core ==> c in part;
    if '=' in core {
      e := Pair(before, key, value, after);
      assert Core(e) == core;
      assert forall c :: c in key || c in value ==> c in core;
    } else {
      e := Bare(before, core, after);
    }
  }

  /** The entries are well formed and their texts are the parts. */
  ghost predicate Spells(es: seq<Entry>, parts: seq<string>) {
    AllWellFormed(es) && RenderAll(es) == parts
  }

  lemma {:induction false} SpellsNext(es: seq<Entry>, e: Entry, parts: seq<string>, n: nat)
    requires n < |parts| && Spells(es, parts[..n]) && WellFormed(e) && Render(e) == parts[n]
    ensures Spells(es + [e], parts[..n + 1])
  {
    assert (es + [e])[..|es|] == es;
    assert parts[..n + 1] == parts[..n] + [parts[n]];
  }

  ghost predicate CommaFree(parts: seq<string>) {
    forall i :: 0 <= i < |parts| ==> ',' !in parts[i]
  }

  lemma {:induction false} PartsAreEntries(parts: seq<string>, n: nat) returns (es: seq<Entry>)
    requires n <= |parts| && CommaFree(parts)
    ensures Spells(es, parts[..n])
  {
    if n == 0 {
      es := [];
    } else {
      var front := PartsAreEntries(parts, n - 1);
      var e := PartIsAnEntry(parts[n - 1]);
      SpellsNext(front, e, parts, n - 1);
      es := front + [e];
    }
  }

  /** Every header is a list of entries, so the result above covers every string. */
  lemma {:induction false} EveryHeaderHasEntries(header: string) returns (es: seq<Entry>)
    ensures es != [] && AllWellFormed(es) && Join(RenderAll(es), ',') == header
  {
    JoinSplit(header, ',');
    var parts := Split(header, ',');
    es := PartsAreEntries(parts, |parts|);
    assert parts[..|parts|] == parts;
  }

  lemma {:induction false} HexIsPlain(s: string)
    requires IsHex(s)
    ensures ',' !in s && Trimmed(OfStrip, "v1=" + s)
  {
    var last := ("v1=" + s)[|s| + 2];
    assert last == s[|s| - 1];
  }

  function SignedEntries(ts: int, digest: string): seq<Entry> {
    [Pair("", "t", PrintInt(ts), ""), Pair("", "v1", digest, "")]
  }

  lemma {:induction false} PrintedIsRead(ts: int)
    ensures ParseInt(PrintInt(ts)) == Some(ts)
  {
    IntRoundTrip("", ts, "");
    assert "" + PrintInt(ts) + "" == PrintInt(ts);
  }

  lemma {:induction false} TimestampEntry(ts: int)
    ensures WellFormed(Pair("", "t", PrintInt(ts), ""))
    ensures ParseInt(PrintInt(ts)) == Some(ts)
  {
    PrintedIsRead(ts);
    TimestampText(PrintInt(ts));
  }

  lemma {:induction false} TimestampText(s: string)
    requires s != [] && IsDigit(s[|s| - 1]) && forall i :: 0 <= i < |s| ==> IsDigit(s[i]) || s[i] == '-'
    ensures ',' !in s && Trimmed(OfStrip, "t" + "=" + s)
  {
    assert ("t" + "=" + s)[|s| + 1] == s[|s| - 1];
  }

  lemma {:induction false} DigestEntry(digest: string)
    requires IsHex(digest)
    ensures WellFormed(Pair("", "v1", digest, ""))
  {
    HexIsPlain(digest);
    assert "v1" + "=" == "v1=";
  }

  lemma {:induction false} SignedEntriesAreWellFormed(ts: int, digest: string)
    requires IsHex(digest)
    ensures AllWellFormed(SignedEntries(ts, digest)) && TimestampsParse(SignedEntries(ts, digest))
  {
    TimestampEntry(ts);
    DigestEntry(digest);
  }

  lemma {:induction false} PlainPair(key: string, value: string)
    ensures Render(Pair("", key, value, "")) == key + "=" + value
  {
  }

  lemma {:induction false} JoinTwo(x: string, y: string)
    ensures Join([x, y], ',') == x + "," + y
  {
    assert [x, y][1..] == [y];
  }

  lemma {:induction false} RenderTwo(x: Entry, y: Entry)
    ensures RenderAll([x, y]) == [Render(x), Render(y)]
  {
  }

  lemma {:induction false} HeaderText(t: string, digest: string)
    ensures ("t" + "=" + t) + "," + ("v1" + "=" + digest) == "t=" + t + ",v1=" + digest
  {
    assert "t" + "=" == "t=" && "v1" + "=" == "v1=";
    assert "," + "v1=" == ",v1=";
  }

  lemma {:induction false} SignedText(ts: int, digest: string)
    ensures Join(RenderAll(SignedEntries(ts, digest)), ',') == "t=" + PrintInt(ts) + ",v1=" + digest
  {
    var t := PrintInt(ts);
    RenderTwo(Pair("", "t", t, ""), Pair("", "v1", digest, ""));
    PlainPair("t", t);
    PlainPair("v1", digest);
    JoinTwo("t" + "=" + t, "v1" + "=" + digest);
    HeaderText(t, digest);
  }

  lemma {:induction false} SignedContent(ts: int, digest: string)
    ensures LastTimestamp(SignedEntries(ts, digest)) == Some(ts)
    ensures V1Values(SignedEntries(ts, digest)) == [digest]
  {
    TimestampEntry(ts);
    var es := SignedEntries(ts, digest);
    assert es[..1] == [es[0]] && [es[0]][..0] == [];
    assert V1Values([es[0]]) == [];
  }

  /** A signed header parses back to exactly its timestamp and its one digest. */
  lemma {:induction false} SignedHeaderRoundTrip(mac: Mac, body: seq<Byte>, secret: string, ts: int)
    requires HexDigests(mac)
    ensures Conclude(ScanParts(Split(Sign(mac, body, secret, ts), ','))) ==
            Ok(Header(ts, [mac(secret, Payload(ts, body))]))
  {
    var digest := Compute(mac, secret, ts, body);
    SignedEntriesAreWellFormed(ts, digest);
    HeaderParsesToEntries(SignedEntries(ts, digest));
    SignedText(ts, digest);
    SignedContent(ts, digest);
  }

  // ---------------------------------------------------------------- verifying

  predicate IsAscii(s: string) {
    forall i :: 0 <= i < |s| ==> s[i] as int < 128
  }

  /** `any(compare_digest(expected, c) for c in candidates)`: a candidate outside ASCII
      raises when the comparison reaches it. */
  function AnyMatch(expected: string, candidates: seq<string>): Result<bool, SignatureError> {
    if candidates == [] then Ok(false)
    else if !IsAscii(candidates[0]) then Raised(NotAscii)
    else if candidates[0] == expected then Ok(true)
    else AnyMatch(expected, candidates[1..])
  }

  function Verify(mac: Mac, body: seq<Byte>, header: string, secret: string, tolerance: int, now: int)
    : Result<(), SignatureError>
  {
    var parsed := Conclude(ScanParts(Split(header, ',')));
    if parsed.Raised? then Raised(parsed.error)
    else
      var ts := parsed.value.timestamp;
      if (if now - ts < 0 then ts - now else now - ts) > tolerance then Raised(ReplayDetected)
      else
        var matched := AnyMatch(Compute(mac, secret, ts, body), parsed.value.signatures);
        if matched.Raised? then Raised(matched.error)
        else if matched.value then Ok(())
        else Raised(SignatureInvalid)
  }

  /** A freshly signed body verifies exactly within the tolerance, in both directions of
      time, and fails as a replay otherwise. */
  lemma {:induction false} SignedVerifiesWithinTolerance(
    mac: Mac, body: seq<Byte>, secret: string, ts: int, tolerance: int, now: int)
    requires HexDigests(mac)
    ensures Verify(mac, body, Sign(mac, body, secret, ts), secret, tolerance, now) ==
            if -tolerance <= now - ts <= tolerance then Ok(()) else Raised(ReplayDetected)
  {
    SignedHeaderRoundTrip(mac, body, secret, ts);
    var digest := Compute(mac, secret, ts, body);
    assert IsHex(digest);
    assert AnyMatch(digest, [digest]) == Ok(true);
  }

  /** The i-th candidate is the expected one, and comparing the candidates up to it raises nothing. */
  ghost predicate MatchesAt(expected: string, candidates: seq<string>, i: nat)
    requires i < |candidates|
  {
    candidates[i] == expected && forall j :: 0 <= j <= i ==> IsAscii(candidates[j])
  }

  lemma MatchMoves(expected: string, candidates: seq<string>, i: nat)
    requires 0 < i < |candidates| && IsAscii(candidates[0])
    ensures MatchesAt(expected, candidates, i) <==> MatchesAt(expected, candidates[1..], i - 1)
  {
    var rest := candidates[1..];
    assert forall j :: 0 <= j < |rest| ==> rest[j] == candidates[j + 1];
    if MatchesAt(expected, rest, i - 1) {
      assert forall j :: 1 <= j <= i ==> candidates[j] == rest[j - 1];
    }
  }

  lemma {:induction false} AnyMatchExactly(expected: string, candidates: seq<string>)
    ensures AnyMatch(expected, candidates) == Ok(true) <==>
            exists i: nat :: i < |candidates| && MatchesAt(expected, candidates, i)
  {
    if candidates == [] {
    } else if candidates[0] == expected || !IsAscii(candidates[0]) {
      if AnyMatch(expected, candidates) == Ok(true) {
        assert MatchesAt(expected, candidates, 0);
      }
    } else {
      var rest := candidates[1..];
      AnyMatchExactly(expected, rest);
      if i: nat :| i < |candidates| && MatchesAt(expected, candidates, i) {
        MatchMoves(expected, candidates, i);
      }
      if i: nat :| i < |rest| && MatchesAt(expected, rest, i) {
        MatchMoves(expected, candidates, i + 1);
      }
    }
  }

  /** A header is accepted exactly when it is complete, its timestamp is within the
      tolerance, and some v1 value, preceded by plain ASCII ones only, is the digest of
      timestamp and body. */
  lemma {:induction false} VerifyAcceptsExactly(
    mac: Mac, body: seq<Byte>, header: string, secret: string, tolerance: int, now: int)
    ensures
      var parsed := Conclude(ScanParts(Split(header, ',')));
      Verify(mac, body, header, secret, tolerance, now) == Ok(()) <==>
        && parsed.Ok?
        && -tolerance <= now - parsed.value.timestamp <= tolerance
        && exists i: nat :: i < |parsed.value.signatures| &&
             MatchesAt(mac(secret, Payload(parsed.value.timestamp, body)), parsed.value.signatures, i)
  {
    var parsed := Conclude(ScanParts(Split(header, ',')));
    if parsed.Ok? {
      AnyMatchExactly(Compute(mac, secret, parsed.value.timestamp, body), parsed.value.signatures);
    }
  }

  lemma {:induction false} AnyMatchRaisesExactly(expected: string, candidates: seq<string>)
    ensures AnyMatch(expected, candidates).Raised? <==>
            exists i: nat :: i < |candidates| && RaisesAt(expected, candidates, i)
    ensures AnyMatch(expected, candidates).Raised? ==> AnyMatch(expected, candidates) == Raised(NotAscii)
  {
    if candidates == [] {
    } else if !IsAscii(candidates[0]) {
      assert RaisesAt(expected, candidates, 0);
    } else if candidates[0] != expected {
      var rest := candidates[1..];
      AnyMatchRaisesExactly(expected, rest);
      if i: nat :| i < |candidates| && RaisesAt(expected, candidates, i) {
        RaiseMoves(expected, candidates, i);
      }
      if i: nat :| i < |rest| && RaisesAt(expected, rest, i) {
        RaiseMoves(expected, candidates, i + 1);
      }
    }
  }

  /** The comparison reaches the i-th candidate, which is outside ASCII. */
  ghost predicate RaisesAt(expected: string, candidates: seq<string>, i: nat)
    requires i < |candidates|
  {
    !IsAscii(candidates[i]) && forall j :: 0 <= j < i ==> IsAscii(candidates[j]) && candidates[j] != expected
  }

  lemma RaiseMoves(expected: string, candidates: seq<string>, i: nat)
    requires 0 < i < |candidates| && IsAscii(candidates[0]) && candidates[0] != expected
    ensures RaisesAt(expected, candidates, i) <==> RaisesAt(expected, candidates[1..], i - 1)
  {
    var rest := candidates[1..];
    assert forall j :: 0 <= j < |rest| ==> rest[j] == candidates[j + 1];
    if RaisesAt(expected, rest, i - 1) {
      assert forall j :: 1 <= j < i ==> candidates[j] == rest[j - 1];
    }
  }

  /** Why a header is refused: a complete one outside the tolerance is a replay, whatever its
      digests; one inside fails to compare exactly when a v1 value outside ASCII comes before
      any match; everything else that is refused is invalid. */
  lemma {:induction false} VerifyRefusesExactly(
    mac: Mac, body: seq<Byte>, header: string, secret: string, tolerance: int, now: int)
    ensures
      var parsed, verdict := Conclude(ScanParts(Split(header, ','))), Verify(mac, body, header, secret, tolerance, now);
      && (verdict == Raised(ReplayDetected) <==>
            parsed.Ok? && !(-tolerance <= now - parsed.value.timestamp <= tolerance))
      && (verdict == Raised(NotAscii) <==>
            && parsed.Ok? && -tolerance <= now - parsed.value.timestamp <= tolerance
            && exists i: nat :: i < |parsed.value.signatures| &&
                 RaisesAt(mac(secret, Payload(parsed.value.timestamp, body)), parsed.value.signatures, i))
      && (parsed.Raised? ==> verdict == Raised(SignatureInvalid))
  {
    var parsed := Conclude(ScanParts(Split(header, ',')));
    if parsed.Ok? {
      AnyMatchRaisesExactly(mac(secret, Payload(parsed.value.timestamp, body)), parsed.value.signatures);
    }
  }

  // ---------------------------------------------------------------- what a signature binds

  /** A header that claims `claimed` and carries the digest of (secret, ts, body). */
  function Claiming(mac: Mac, body: seq<Byte>, secret: string, ts: int, claimed: int): string {
    "t=" + PrintInt(claimed) + ",v1=" + mac(secret, Payload(ts, body))
  }

  lemma {:induction false} ClaimParses(mac: Mac, body: seq<Byte>, secret: string, ts: int, claimed: int)
    requires HexDigests(mac)
    ensures Conclude(ScanParts(Split(Claiming(mac, body, secret, ts, claimed), ','))) ==
            Ok(Header(claimed, [mac(secret, Payload(ts, body))]))
  {
    var digest := mac(secret, Payload(ts, body));
    SignedEntriesAreWellFormed(claimed, digest);
    HeaderParsesToEntries(SignedEntries(claimed, digest));
    SignedText(claimed, digest);
    SignedContent(claimed, digest);
  }

  /** A digest made for one secret, timestamp and body is accepted for others exactly when the
      clock is within the tolerance and the keyed hash gives the same digest for both payloads. */
  lemma {:induction false} DigestIsAcceptedExactly(
    mac: Mac, body: seq<Byte>, secret: string, ts: int,
    body': seq<Byte>, secret': string, claimed: int, tolerance: int, now: int)
    requires HexDigests(mac)
    ensures Verify(mac, body', Claiming(mac, body, secret, ts, claimed), secret', tolerance, now) == Ok(()) <==>
            && -tolerance <= now - claimed <= tolerance
            && mac(secret', Payload(claimed, body')) == mac(secret, Payload(ts, body))
  {
    ClaimParses(mac, body, secret, ts, claimed);
    var digest := mac(secret, Payload(ts, body));
    assert IsHex(digest) && IsAscii(digest);
    var expected := mac(secret', Payload(claimed, body'));
    assert AnyMatch(expected, [digest]) == Ok(digest == expected);
  }

  /** No two of these inputs of the keyed hash collide. HMAC pads short secrets with zero
      bytes, so some secrets do; a law about all of them would not be met by it. */
  ghost predicate NoCollision(mac: Mac, secret: string, p: seq<Byte>, secret': string, p': seq<Byte>) {
    mac(secret, p) == mac(secret', p') ==> secret == secret' && p == p'
  }

  /** A signature binds secret, timestamp and body: where the keyed hash has no collision, a
      digest is accepted for exactly what was signed, inside the tolerance. */
  lemma {:induction false} SignatureBinds(
    mac: Mac, body: seq<Byte>, secret: string, ts: int,
    body': seq<Byte>, secret': string, claimed: int, tolerance: int, now: int)
    requires HexDigests(mac)
    requires NoCollision(mac, secret', Payload(claimed, body'), secret, Payload(ts, body))
    ensures Verify(mac, body', Claiming(mac, body, secret, ts, claimed), secret', tolerance, now) == Ok(()) <==>
            -tolerance <= now - claimed <= tolerance && secret' == secret && claimed == ts && body' == body
    ensures Claiming(mac, body, secret, ts, ts) == Sign(mac, body, secret, ts)
  {
    DigestIsAcceptedExactly(mac, body, secret, ts, body', secret', claimed, tolerance, now);
    if Payload(claimed, body') == Payload(ts, body) {
      PayloadIsInjective(claimed, body', ts, body);
    }
  }
}
