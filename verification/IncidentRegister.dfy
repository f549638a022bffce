/**
 The confidentiality-incident register: the canonical encoding of an entry, the
 SHA-256 chain over the entries, and its verification
 (internal/incidentregister/incidentregister.go).

 SHA-256 and the printers of times and ids are parameters. Nothing is assumed
 about the hash: tamper evidence is stated as a collision extractor.
 */
module IncidentRegister {
  import opened Options
  import opened Decimal
  import opened Strings

  type Uuid = nat
  type Time = int  // nanoseconds

  type Digest = d: seq<Byte> | |d| == 32 witness seq(32, _ => 0)

  /** SHA-256, and uuid.String / time.Format(RFC3339Nano) with their parsers. */
  datatype Platform = Platform(
    sha256: string -> Digest,
    showId: Uuid -> string, readId: string -> Option<Uuid>,
    showTime: Time -> string, readTime: string -> Option<Time>)
  {
    /** Both printers can be read back, so each is injective. */
    ghost predicate Lawful() {
      && (forall u: Uuid :: readId(showId(u)) == Some(u))
      && (forall t: Time :: readTime(showTime(t)) == Some(t))
    }
  }

  /** Everything canonicalBytes serializes: an Incident without its two hashes. */
  datatype Content = Content(
    sequence: int,
    id: Uuid,
    personalInfoInvolved: string,
    circumstances: string,
    incidentOccurredAt: string,
    becameAwareDate: Time,
    peopleAffected: string,
    riskAssessment: string,
    caiNotified: bool,
    caiNotifiedDetail: string,
    individualsNotified: bool,
    individualsNotifiedDetail: string,
    measuresTaken: string,
    recordedBy: string,
    recordedAt: Time,
    retainUntil: Time)

  datatype Incident = Incident(content: Content, prevHash: string, entryHash: string)

  const GENESIS_HASH := "GENESIS"
  const FIELD_COUNT := 16

  // ---------------------------------------------------------------- encoding

  function FormatBool(b: bool): string {
    if b then "true" else "false"
  }

  function ParseBool(s: string): Option<bool> {
    if s == "true" then Some(true) else if s == "false" then Some(false) else None
  }

  /** One framed field: its length in decimal, a colon, its bytes, a unit separator. */
  function Frame(field: string): string {
    Itoa(|field|) + ":" + field + "\U{1F}"
  }

  function FrameAll(fields: seq<string>): string {
    if fields == [] then "" else Frame(fields[0]) + FrameAll(fields[1..])
  }

  function IncidentFields(p: Platform, c: Content): seq<string> {
    [ FormatInt(c.sequence), p.showId(c.id), c.personalInfoInvolved, c.circumstances,
      c.incidentOccurredAt, p.showTime(c.becameAwareDate), c.peopleAffected, c.riskAssessment ]
  }

  function ResponseFields(p: Platform, c: Content): seq<string> {
    [ FormatBool(c.caiNotified), c.caiNotifiedDetail, FormatBool(c.individualsNotified),
      c.individualsNotifiedDetail, c.measuresTaken, c.recordedBy,
      p.showTime(c.recordedAt), p.showTime(c.retainUntil) ]
  }

  /** The sixteen recorded fields in the order they are framed. */
  function Fields(p: Platform, c: Content): (fields: seq<string>)
    ensures |fields| == FIELD_COUNT
  {
    IncidentFields(p, c) + ResponseFields(p, c)
  }

  function Canonical(p: Platform, c: Content): string {
    FrameAll(Fields(p, c))
  }

  lemma {:induction false} FrameAllAppend(fields: seq<string>, last: string)
    ensures FrameAll(fields + [last]) == FrameAll(fields) + Frame(last)
  {
    if fields == [] {
      assert fields + [last] == [last] && [last][1..] == [];
    } else {
      FrameAllAppend(fields[1..], last);
      assert (fields + [last])[1..] == fields[1..] + [last];
      ConcatAssociative(Frame(fields[0]), FrameAll(fields[1..]), Frame(last));
    }
  }

  /** The closure `write`. */
  method Write(b: string, s: string) returns (b': string)
    ensures b' == b + Frame(s)
  {
    b' := b + Itoa(|s|);
    b' := b' + ":";
    b' := b' + s;
    b' := b' + "\U{1F}";
  }

  /** Writing the sixteen fields into the growing builder yields the framed field list. */
  method CanonicalBytes(p: Platform, c: Content) returns (b: string)
    ensures b == Canonical(p, c)
  {
    var fields := Fields(p, c);
    b := "";
    for i := 0 to FIELD_COUNT
      invariant b == FrameAll(fields[..i])
    {
      b := Write(b, fields[i]);
      FrameAllAppend(fields[..i], fields[i]);
      assert fields[..i] + [fields[i]] == fields[..i + 1];
    }
    assert fields[..FIELD_COUNT] == fields;
  }

  // ---------------------------------------------------------------- decoding

  /** How many leading characters of s are digits. */
  function LeadingDigits(s: string): (k: nat)
    ensures k <= |s| && AllDigits(s[..k])
    ensures k < |s| ==> !IsDigit(s[k])
  {
    if s == [] || !IsDigit(s[0]) then 0 else
      var k := 1 + LeadingDigits(s[1..]);
      assert s[..k] == [s[0]] + s[1..][..k - 1];
      k
  }

  /** Splits one framed field off the front. */
  function ReadFrame(s: string): Option<(string, string)> {
    var k := LeadingDigits(s);
    if k == 0 || k == |s| || s[k] != ':' then None else
      var end := k + 1 + Atoi(s[..k]);
      if end >= |s| || s[end] != '\U{1F}' then None else Some((s[k + 1..end], s[end + 1..]))
  }

  /** Splits `count` framed fields off the front. */
  function ReadFrames(s: string, count: nat): Option<(seq<string>, string)> {
    if count == 0 then Some(([], s)) else
      var head := ReadFrame(s);
      if head.None? then None else
        var tail := ReadFrames(head.value.1, count - 1);
        if tail.None? then None else Some(([head.value.0] + tail.value.0, tail.value.1))
  }

  function ParseInt(s: string): Option<int> {
    if s == [] then None
    else if s[0] == '-' then (if AllDigits(s[1..]) then Some(0 - Atoi(s[1..])) else None)
    else if AllDigits(s) then Some(Atoi(s)) else None
  }

  function FromFields(p: Platform, f: seq<string>): Option<Content>
    requires |f| == FIELD_COUNT
  {
    match (ParseInt(f[0]), p.readId(f[1]), p.readTime(f[5]), ParseBool(f[8]),
           ParseBool(f[10]), p.readTime(f[14]), p.readTime(f[15]))
    case (Some(n), Some(id), Some(aware), Some(cai), Some(ind), Some(recorded), Some(retain)) =>
      Some(Content(n, id, f[2], f[3], f[4], aware, f[6], f[7], cai, f[9], ind, f[11],
                   f[12], f[13], recorded, retain))
    case _ => None
  }

  /** Recovers the recorded content from its canonical bytes. */
  function Decode(p: Platform, s: string): Option<Content> {
    var read := ReadFrames(s, FIELD_COUNT);
    if read.None? || |read.value.0| != FIELD_COUNT || read.value.1 != "" then None
    else FromFields(p, read.value.0)
  }

  lemma {:induction false} LeadingDigitsOf(digits: string, rest: string)
    requires AllDigits(digits)
    requires rest != [] && !IsDigit(rest[0])
    ensures LeadingDigits(digits + rest) == |digits|
  {
    if digits != [] {
      assert (digits + rest)[1..] == digits[1..] + rest;
      LeadingDigitsOf(digits[1..], rest);
    } else {
      assert digits + rest == rest;
    }
  }

  lemma ReadFrameInvertsFrame(field: string, rest: string)
    ensures ReadFrame(Frame(field) + rest) == Some((field, rest))
  {
    var digits := Itoa(|field|);
    var tail := ":" + field + "\U{1F}" + rest;
    var s := Frame(field) + rest;
    AtoiInvertsItoa(|field|);
    assert s == digits + tail;
    LeadingDigitsOf(digits, tail);
    assert s[..|digits|] == digits;
    var end := |digits| + 1 + |field|;
    assert s[|digits| + 1..end] == field;
    assert s[end + 1..] == rest;
  }

  lemma ReadFramesStep(head: string, tail: string, field: string, fields: seq<string>, rest: string)
    requires ReadFrame(head + (tail + rest)) == Some((field, tail + rest))
    requires ReadFrames(tail + rest, |fields|) == Some((fields, rest))
    ensures ReadFrames(head + tail + rest, |fields| + 1) == Some(([field] + fields, rest))
  {
    ConcatAssociative(head, tail, rest);
  }

  lemma {:induction false} ReadFramesInvertsFrameAll(fields: seq<string>, rest: string)
    ensures ReadFrames(FrameAll(fields) + rest, |fields|) == Some((fields, rest))
  {
    if fields == [] {
      assert FrameAll(fields) + rest == rest;
    } else {
      var head, tail := Frame(fields[0]), FrameAll(fields[1..]);
      ReadFrameInvertsFrame(fields[0], tail + rest);
      ReadFramesInvertsFrameAll(fields[1..], rest);
      ReadFramesStep(head, tail, fields[0], fields[1..], rest);
      assert [fields[0]] + fields[1..] == fields;
    }
  }

  lemma ParseIntInvertsFormatInt(i: int)
    ensures ParseInt(FormatInt(i)) == Some(i)
  {
    AtoiInvertsItoa(if i < 0 then -i else i);
    if i < 0 {
      assert FormatInt(i)[1..] == Itoa(-i);
    } else {
      assert IsDigit(Itoa(i)[0]);
    }
  }

  lemma FromFieldsInvertsFields(p: Platform, c: Content)
    requires p.Lawful()
    ensures FromFields(p, Fields(p, c)) == Some(c)
  {
    ParseIntInvertsFormatInt(c.sequence);
  }

  /** The encoding is uniquely decodable, and so injective on recorded content. */
  lemma DecodeInvertsCanonical(p: Platform, c: Content)
    requires p.Lawful()
    ensures Decode(p, Canonical(p, c)) == Some(c)
  {
    var f := Fields(p, c);
    ReadFramesInvertsFrameAll(f, "");
    assert FrameAll(f) + "" == Canonical(p, c);
    FromFieldsInvertsFields(p, c);
  }

  lemma CanonicalInjective(p: Platform, c: Content, d: Content)
    requires p.Lawful()
    requires Canonical(p, c) == Canonical(p, d)
    ensures c == d
  {
    DecodeInvertsCanonical(p, c);
    DecodeInvertsCanonical(p, d);
  }

  // ----------------------------------------------------------------- hashing

  function HexDigit(n: int): char
    requires 0 <= n < 16
  {
    if n < 10 then (n + '0' as int) as char else (n - 10 + 'a' as int) as char
  }

  /** hex.EncodeToString. */
  function Hex(bytes: seq<Byte>): (s: string)
    ensures |s| == 2 * |bytes|
  {
    if bytes == [] then "" else [HexDigit(bytes[0] / 16), HexDigit(bytes[0] % 16)] + Hex(bytes[1..])
  }

  predicate IsHex(s: string) {
    forall i :: 0 <= i < |s| ==> IsDigit(s[i]) || 'a' <= s[i] <= 'f'
  }

  lemma {:induction false} HexIsHex(bytes: seq<Byte>)
    ensures IsHex(Hex(bytes))
  {
    if bytes != [] {
      HexIsHex(bytes[1..]);
    }
  }

  lemma {:induction false} HexInjective(a: seq<Byte>, b: seq<Byte>)
    requires Hex(a) == Hex(b)
    ensures a == b
  {
    assert |a| == |b|;
    if a != [] {
      assert Hex(a)[0] == Hex(b)[0] && Hex(a)[1] == Hex(b)[1];
      assert Hex(a)[2..] == Hex(a[1..]) && Hex(b)[2..] == Hex(b[1..]);
      HexInjective(a[1..], b[1..]);
      assert a[0] == b[0];
      assert a == [a[0]] + a[1..] && b == [b[0]] + b[1..];
    }
  }

  /** The byte string that is hashed for an entry: prevHash || canonical fields. */
  function HashInput(p: Platform, prevHash: string, c: Content): string {
    prevHash + Canonical(p, c)
  }

  function ComputeHash(p: Platform, prevHash: string, c: Content): string {
    Hex(p.sha256(HashInput(p, prevHash, c)))
  }

  /** What can stand in a prev_hash column of an accepted chain. */
  predicate IsLink(h: string) {
    h == GENESIS_HASH || (|h| == 64 && IsHex(h))
  }

  lemma ComputeHashIsLink(p: Platform, prevHash: string, c: Content)
    ensures IsLink(ComputeHash(p, prevHash, c)) && ComputeHash(p, prevHash, c) != GENESIS_HASH
  {
    HexIsHex(p.sha256(HashInput(p, prevHash, c)));
  }

  /** prevHash || canonical splits in one way only: "GENESIS" never begins a hex digest. */
  lemma HashInputSplits(p: Platform, h: string, c: Content, h': string, c': Content)
    requires p.Lawful() && IsLink(h) && IsLink(h')
    requires HashInput(p, h, c) == HashInput(p, h', c')
    ensures h == h' && c == c'
  {
    var s, s' := HashInput(p, h, c), HashInput(p, h', c');
    assert s[0] == h[0] && s'[0] == h'[0];
    assert |h| == |h'|;
    assert h == s[..|h|] && h' == s'[..|h'|];
    assert Canonical(p, c) == s[|h|..] && Canonical(p, c') == s'[|h'|..];
    CanonicalInjective(p, c, c');
  }

  // --------------------------------------------------------------- the chain

  /** The hash entry i must link to. */
  function PrevOf(entries: seq<Incident>, i: nat): string
    requires i <= |entries|
  {
    if i == 0 then GENESIS_HASH else entries[i - 1].entryHash
  }

  /** The three checks made on entry i. */
  predicate EntryOk(p: Platform, entries: seq<Incident>, i: nat)
    requires i < |entries|
  {
    && entries[i].content.sequence == i + 1
    && entries[i].prevHash == PrevOf(entries, i)
    && entries[i].entryHash == ComputeHash(p, PrevOf(entries, i), entries[i].content)
  }

  ghost predicate ValidChain(p: Platform, entries: seq<Incident>) {
    forall i :: 0 <= i < |entries| ==> EntryOk(p, entries, i)
  }

  datatype Detail = NoDetail | NonContiguousSeq(got: int, expected: int) | BrokenLink | HashMismatch

  datatype VerifyResult = VerifyResult(ok: bool, count: nat, brokenAtSeq: int, detail: Detail)

  /** Entry i is the first to fail, and `detail` names the first of its checks that fails. */
  ghost predicate FirstFailure(p: Platform, entries: seq<Incident>, i: nat, brokenAtSeq: int, detail: Detail)
    requires i < |entries|
  {
    && (forall j :: 0 <= j < i ==> EntryOk(p, entries, j))
    && brokenAtSeq == entries[i].content.sequence
    && match detail
       case NonContiguousSeq(got, expected) => got == brokenAtSeq != expected == i + 1
       case BrokenLink => brokenAtSeq == i + 1 && entries[i].prevHash != PrevOf(entries, i)
       case HashMismatch => brokenAtSeq == i + 1 && entries[i].prevHash == PrevOf(entries, i) && !EntryOk(p, entries, i)
       case NoDetail => false
  }

  /** Replays the chain and reports the first entry that fails, and the first check it fails. */
  method VerifyChain(p: Platform, entries: seq<Incident>) returns (r: VerifyResult)
    ensures r.ok <==> ValidChain(p, entries)
    ensures r.count == |entries|
    ensures r.ok ==> r.brokenAtSeq == 0 && r.detail == NoDetail
    ensures !r.ok ==> exists i :: 0 <= i < |entries| && FirstFailure(p, entries, i, r.brokenAtSeq, r.detail)
  {
    var prev := GENESIS_HASH;
    for i := 0 to |entries|
      invariant prev == PrevOf(entries, i)
      invariant forall j :: 0 <= j < i ==> EntryOk(p, entries, j)
    {
      var e := entries[i];
      var wantSeq := i + 1;
      if e.content.sequence != wantSeq {
        r := VerifyResult(false, |entries|, e.content.sequence, NonContiguousSeq(e.content.sequence, wantSeq));
        assert !EntryOk(p, entries, i) && FirstFailure(p, entries, i, r.brokenAtSeq, r.detail);
        return;
      }
      if e.prevHash != prev {
        r := VerifyResult(false, |entries|, e.content.sequence, BrokenLink);
        assert !EntryOk(p, entries, i) && FirstFailure(p, entries, i, r.brokenAtSeq, r.detail);
        return;
      }
      var canonical := CanonicalBytes(p, e.content);
      var got := Hex(p.sha256(prev + canonical));
      if got != e.entryHash {
        r := VerifyResult(false, |entries|, e.content.sequence, HashMismatch);
        assert !EntryOk(p, entries, i) && FirstFailure(p, entries, i, r.brokenAtSeq, r.detail);
        return;
      }
      prev := e.entryHash;
    }
    return VerifyResult(true, |entries|, 0, NoDetail);
  }

  lemma PrefixClosed(p: Platform, entries: seq<Incident>, n: nat)
    requires ValidChain(p, entries) && n <= |entries|
    ensures ValidChain(p, entries[..n])
  {
    forall i | 0 <= i < n
      ensures EntryOk(p, entries[..n], i)
    {
      assert EntryOk(p, entries, i);
      assert PrevOf(entries[..n], i) == PrevOf(entries, i);
    }
  }

  /** The byte string hashed for entry i of a chain. */
  function InputAt(p: Platform, entries: seq<Incident>, i: nat): string
    requires i < |entries|
  {
    HashInput(p, PrevOf(entries, i), entries[i].content)
  }

  /** Entries i of a and j of b hash two different byte strings to the same digest. */
  predicate CollisionAt(p: Platform, a: seq<Incident>, b: seq<Incident>, i: nat, j: nat)
    requires i < |a| && j < |b|
  {
    InputAt(p, a, i) != InputAt(p, b, j) && p.sha256(InputAt(p, a, i)) == p.sha256(InputAt(p, b, j))
  }

  lemma LinkAt(p: Platform, entries: seq<Incident>, i: nat)
    requires ValidChain(p, entries) && i < |entries|
    ensures IsLink(PrevOf(entries, i))
  {
    if i > 0 {
      assert EntryOk(p, entries, i - 1);
      ComputeHashIsLink(p, PrevOf(entries, i - 1), entries[i - 1].content);
    }
  }

  /** Equal entry hashes at the two ends: the ends agree, or they are a collision. */
  lemma LastEntriesAgree(p: Platform, a: seq<Incident>, b: seq<Incident>)
    requires p.Lawful() && ValidChain(p, a) && ValidChain(p, b)
    requires a != [] && b != []
    requires a[|a| - 1].entryHash == b[|b| - 1].entryHash
    ensures CollisionAt(p, a, b, |a| - 1, |b| - 1)
         || (a[|a| - 1] == b[|b| - 1] && |a| == |b|)
  {
    var i, j := |a| - 1, |b| - 1;
    assert EntryOk(p, a, i) && EntryOk(p, b, j);
    HexInjective(p.sha256(InputAt(p, a, i)), p.sha256(InputAt(p, b, j)));
    if InputAt(p, a, i) == InputAt(p, b, j) {
      LinkAt(p, a, i);
      LinkAt(p, b, j);
      HashInputSplits(p, PrevOf(a, i), a[i].content, PrevOf(b, j), b[j].content);
    }
  }

  lemma CollisionInPrefix(p: Platform, a: seq<Incident>, b: seq<Incident>, m: nat, n: nat, i: nat, j: nat)
    requires i < m <= |a| && j < n <= |b|
    ensures CollisionAt(p, a[..m], b[..n], i, j) == CollisionAt(p, a, b, i, j)
  {
    assert PrevOf(a[..m], i) == PrevOf(a, i) && PrevOf(b[..n], j) == PrevOf(b, j);
  }

  lemma SplitLast(a: seq<Incident>)
    requires a != []
    ensures a == a[..|a| - 1] + [a[|a| - 1]]
  {}

  /**
   Tamper evidence. Two accepted registers that end in the same entry hash are the same
   register, entry by entry and field by field; otherwise the two registers themselves
   contain two different byte strings with the same SHA-256 digest, at positions i and j
   equally far from their ends.
   */
  lemma {:induction false} TamperEvidence(p: Platform, a: seq<Incident>, b: seq<Incident>)
    returns (i: nat, j: nat)
    requires p.Lawful() && ValidChain(p, a) && ValidChain(p, b)
    requires a != [] && b != []
    requires a[|a| - 1].entryHash == b[|b| - 1].entryHash
    ensures i < |a| && j < |b| && |a| - i == |b| - j
    ensures a == b || CollisionAt(p, a, b, i, j)
    decreases |a|
  {
    var m, n := |a| - 1, |b| - 1;
    i, j := m, n;
    LastEntriesAgree(p, a, b);
    SplitLast(a);
    SplitLast(b);
    if !CollisionAt(p, a, b, m, n) && m > 0 {
      PrefixClosed(p, a, m);
      PrefixClosed(p, b, n);
      assert EntryOk(p, a, m) && EntryOk(p, b, n);
      i, j := TamperEvidence(p, a[..m], b[..n]);
      CollisionInPrefix(p, a, b, m, n, i, j);
    }
  }
}
