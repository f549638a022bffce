/**
 The opaque list cursors: unpadded base64url (section 5 of RFC 4648) around a JSON object
 (internal/db/cursor.go, internal/db/photo_postgres.go). JSON itself is a parameter.
 */
module Cursor {
  import opened Options
  import opened Strings

  type Sextet = v: int | 0 <= v < 64
  type Time = int
  type Uuid = nat

  const NIL_ID: Uuid := 0
  const ZERO_TIME: Time := 0

  // ---------------------------------------------------------------- base64url

  function Letter(v: Sextet): char {
    if v < 26 then (v + 'A' as int) as char
    else if v < 52 then (v - 26 + 'a' as int) as char
    else if v < 62 then (v - 52 + '0' as int) as char
    else if v == 62 then '-' else '_'
  }

  function Value(c: char): Option<Sextet> {
    if 'A' <= c <= 'Z' then Some(c as int - 'A' as int)
    else if 'a' <= c <= 'z' then Some(c as int - 'a' as int + 26)
    else if '0' <= c <= '9' then Some(c as int - '0' as int + 52)
    else if c == '-' then Some(62) else if c == '_' then Some(63) else None
  }

  function Encode(b: seq<Byte>): string {
    if |b| == 0 then ""
    else if |b| == 1 then [Letter(b[0] / 4), Letter(b[0] % 4 * 16)]
    else if |b| == 2 then [Letter(b[0] / 4), Letter(b[0] % 4 * 16 + b[1] / 16), Letter(b[1] % 16 * 4)]
    else [Letter(b[0] / 4), Letter(b[0] % 4 * 16 + b[1] / 16), Letter(b[1] % 16 * 4 + b[2] / 64), Letter(b[2] % 64)]
         + Encode(b[3..])
  }

  /** Every letter's value, or None when one is outside the alphabet. */
  function Values(s: string): Option<seq<Sextet>> {
    if s == "" then Some([]) else
      var head, tail := Value(s[0]), Values(s[1..]);
      if head.None? || tail.None? then None else Some([head.value] + tail.value)
  }

  function FirstByte(a: Sextet, b: Sextet): Byte {
    var (hi: int, lo: int) := (a, b); hi * 4 + lo / 16
  }

  function SecondByte(b: Sextet, c: Sextet): Byte {
    var (hi: int, lo: int) := (b, c); hi % 16 * 16 + lo / 4
  }

  function ThirdByte(c: Sextet, d: Sextet): Byte {
    var (hi: int, lo: int) := (c, d); hi % 4 * 64 + lo
  }

  /** Leftover low bits are ignored; a lone trailing letter is an error. */
  function Regroup(v: seq<Sextet>): Option<seq<Byte>> {
    if |v| == 0 then Some([])
    else if |v| == 1 then None
    else if |v| == 2 then Some([FirstByte(v[0], v[1])])
    else if |v| == 3 then Some([FirstByte(v[0], v[1]), SecondByte(v[1], v[2])])
    else
      var tail := Regroup(v[4..]);
      if tail.None? then None else
        Some([FirstByte(v[0], v[1]), SecondByte(v[1], v[2]), ThirdByte(v[2], v[3])] + tail.value)
  }

  /** The decoder skips line breaks. */
  function Unwrap(s: string): string {
    if s == "" then "" else (if s[0] == '\n' || s[0] == '\r' then "" else [s[0]]) + Unwrap(s[1..])
  }

  function Decode(s: string): Option<seq<Byte>> {
    var v := Values(Unwrap(s));
    if v.None? then None else Regroup(v.value)
  }

  /** The sextets Encode spells out. */
  function Sextets(b: seq<Byte>): seq<Sextet> {
    if |b| == 0 then []
    else if |b| == 1 then [b[0] / 4, b[0] % 4 * 16]
    else if |b| == 2 then [b[0] / 4, b[0] % 4 * 16 + b[1] / 16, b[1] % 16 * 4]
    else [b[0] / 4, b[0] % 4 * 16 + b[1] / 16, b[1] % 16 * 4 + b[2] / 64, b[2] % 64] + Sextets(b[3..])
  }

  function Spell(v: seq<Sextet>): string {
    if v == [] then "" else [Letter(v[0])] + Spell(v[1..])
  }

  lemma ValueOfLetter(v: Sextet)
    ensures Value(Letter(v)) == Some(v) && Letter(v) != '\n' && Letter(v) != '\r'
  {}

  lemma {:induction false} SpellAppend(v: seq<Sextet>, w: seq<Sextet>)
    ensures Spell(v + w) == Spell(v) + Spell(w)
  {
    if v == [] {
      assert v + w == w;
    } else {
      SpellAppend(v[1..], w);
      assert (v + w)[1..] == v[1..] + w;
      ConcatAssociative([Letter(v[0])], Spell(v[1..]), Spell(w));
    }
  }

  lemma SpellShort(v: seq<Sextet>)
    requires |v| <= 4
    ensures |Spell(v)| == |v| && forall i :: 0 <= i < |v| ==> Spell(v)[i] == Letter(v[i])
  {
    if v != [] { SpellShort(v[1..]); }
  }

  lemma {:induction false} EncodeSpells(b: seq<Byte>)
    ensures Encode(b) == Spell(Sextets(b))
  {
    if |b| < 3 {
      SpellShort(Sextets(b));
    } else {
      var quad := Sextets(b)[..4];
      SpellShort(quad);
      SpellAppend(quad, Sextets(b[3..]));
      assert Sextets(b) == quad + Sextets(b[3..]);
      EncodeSpells(b[3..]);
    }
  }

  lemma {:induction false} ReadSpelled(v: seq<Sextet>)
    ensures Unwrap(Spell(v)) == Spell(v) && Values(Spell(v)) == Some(v)
  {
    if v != [] {
      ValueOfLetter(v[0]);
      ReadSpelled(v[1..]);
      assert Spell(v)[1..] == Spell(v[1..]);
      assert [v[0]] + v[1..] == v;
    }
  }

  lemma RegroupThree(x: Byte, y: Byte, z: Byte)
    ensures FirstByte(x / 4, x % 4 * 16) == x
    ensures FirstByte(x / 4, x % 4 * 16 + y / 16) == x
    ensures SecondByte(x % 4 * 16 + y / 16, y % 16 * 4) == y
    ensures SecondByte(x % 4 * 16 + y / 16, y % 16 * 4 + z / 64) == y
    ensures ThirdByte(y % 16 * 4 + z / 64, z % 64) == z
  {}

  lemma {:induction false} RegroupSextets(b: seq<Byte>)
    ensures Regroup(Sextets(b)) == Some(b)
  {
    if |b| >= 3 {
      RegroupSextets(b[3..]);
      assert Sextets(b)[4..] == Sextets(b[3..]);
      RegroupThree(b[0], b[1], b[2]);
      assert [b[0], b[1], b[2]] + b[3..] == b;
    } else if |b| == 2 {
      RegroupThree(b[0], b[1], 0);
      assert b == [b[0], b[1]];
    } else if |b| == 1 {
      RegroupThree(b[0], 0, 0);
      assert b == [b[0]];
    }
  }

  /** Encoding is inverted by decoding, and only the empty string encodes to "". */
  lemma DecodeInvertsEncode(b: seq<Byte>)
    ensures Decode(Encode(b)) == Some(b)
    ensures Encode(b) == "" ==> b == []
  {
    EncodeSpells(b);
    ReadSpelled(Sextets(b));
    RegroupSextets(b);
  }

  /** Letters of the URL-safe alphabet, which needs no escaping in a query string. */
  predicate UrlSafe(c: char) {
    'A' <= c <= 'Z' || 'a' <= c <= 'z' || '0' <= c <= '9' || c == '-' || c == '_'
  }

  /** Cursors are URL-safe and unpadded: four letters for three bytes, rounded up. */
  lemma {:induction false} EncodedIsUrlSafe(b: seq<Byte>)
    ensures forall c :: c in Encode(b) ==> UrlSafe(c)
    ensures |Encode(b)| == (4 * |b| + 2) / 3
  {
    if |b| >= 3 { EncodedIsUrlSafe(b[3..]); }
  }

  // ------------------------------------------------------------ the payloads

  const MODE_RANK := "rank"

  datatype Json = Text(text: string) | Number(number: int)
  type Object = map<string, Json>

  /** encoding/json on flat objects, with the text form of times and ids. */
  datatype JsonCodec = JsonCodec(marshal: Object -> seq<Byte>, unmarshal: seq<Byte> -> Option<Object>,
                                 showTime: Time -> string, readTime: string -> Option<Time>,
                                 showId: Uuid -> string, readId: string -> Option<Uuid>)
  {
    function ListObject(createdAt: Time, id: Uuid): Object {
      map["created_at" := Text(showTime(createdAt)), "id" := Text(showId(id))]
    }

    function RankObject(rank: int, createdAt: Time, id: Uuid): Object {
      map["rank" := Number(rank), "created_at" := Text(showTime(createdAt)), "id" := Text(showId(id)),
          "mode" := Text(MODE_RANK)]
    }

    function PhotoObject(position: int, createdAt: Time, id: Uuid): Object {
      map["p" := Number(position), "t" := Text(showTime(createdAt)), "i" := Text(showId(id))]
    }

    /** The object is written as something, and read back as itself. */
    ghost predicate Writes(o: Object) {
      marshal(o) != [] && unmarshal(marshal(o)) == Some(o)
    }

    /** Asked of the three shapes the program writes, and of the two printers. */
    ghost predicate Lawful() {
      && (forall t: Time :: readTime(showTime(t)) == Some(t))
      && (forall id: Uuid :: readId(showId(id)) == Some(id))
      && (forall t: Time, id: Uuid :: Writes(ListObject(t, id)))
      && (forall n: int, t: Time, id: Uuid :: Writes(RankObject(n, t, id)))
      && (forall n: int, t: Time, id: Uuid :: Writes(PhotoObject(n, t, id)))
    }
  }

  /** A decoded cursor: the first page, a position in the order, or a rejection. */
  datatype Position = First | At(key: seq<int>) | Malformed

  function EncodeCursor(j: JsonCodec, createdAt: Time, id: Uuid): string {
    Encode(j.marshal(j.ListObject(createdAt, id)))
  }

  function EncodeRankCursor(j: JsonCodec, rank: int, createdAt: Time, id: Uuid): string {
    Encode(j.marshal(j.RankObject(rank, createdAt, id)))
  }

  function EncodePhotoCursor(j: JsonCodec, position: int, createdAt: Time, id: Uuid): string {
    Encode(j.marshal(j.PhotoObject(position, createdAt, id)))
  }

  /** json.Unmarshal into a struct: a missing member keeps its zero value, a mistyped one is an error. */
  function ReadTime(j: JsonCodec, o: Object, name: string): Option<Time> {
    if name !in o then Some(ZERO_TIME) else if o[name].Text? then j.readTime(o[name].text) else None
  }

  function ReadId(j: JsonCodec, o: Object, name: string): Option<Uuid> {
    if name !in o then Some(NIL_ID) else if o[name].Text? then j.readId(o[name].text) else None
  }

  function ReadNumber(o: Object, name: string): Option<int> {
    if name !in o then Some(0) else if o[name].Number? then Some(o[name].number) else None
  }

  function ReadObject(j: JsonCodec, s: string): Option<Object> {
    var raw := Decode(s);
    if raw.None? then None else j.unmarshal(raw.value)
  }

  function DecodeCursor(j: JsonCodec, s: string): Position {
    if s == "" then First else
      var o := ReadObject(j, s);
      if o.None? then Malformed
      else if "mode" in o.value && o.value["mode"] == Text(MODE_RANK) then Malformed
      else
        match (ReadTime(j, o.value, "created_at"), ReadId(j, o.value, "id"))
        case (Some(t), Some(id)) => if id == NIL_ID then Malformed else At([t, id])
        case _ => Malformed
  }

  function DecodeRankCursor(j: JsonCodec, s: string): Position {
    if s == "" then First else
      var o := ReadObject(j, s);
      if o.None? || "mode" !in o.value || o.value["mode"] != Text(MODE_RANK) then Malformed
      else
        match (ReadNumber(o.value, "rank"), ReadTime(j, o.value, "created_at"), ReadId(j, o.value, "id"))
        case (Some(rank), Some(t), Some(id)) => if id == NIL_ID then Malformed else At([rank, t, id])
        case _ => Malformed
  }

  function DecodePhotoCursor(j: JsonCodec, s: string): Position {
    if s == "" then First else
      var o := ReadObject(j, s);
      if o.None? then Malformed
      else
        match (ReadNumber(o.value, "p"), ReadTime(j, o.value, "t"), ReadId(j, o.value, "i"))
        case (Some(p), Some(t), Some(id)) => if id == NIL_ID then Malformed else At([p, t, id])
        case _ => Malformed
  }

  lemma ReadObjectInverts(j: JsonCodec, o: Object)
    requires j.Writes(o)
    ensures Encode(j.marshal(o)) != "" && ReadObject(j, Encode(j.marshal(o))) == Some(o)
  {
    DecodeInvertsEncode(j.marshal(o));
  }

  /** A default cursor survives the round trip and is refused under the two other orderings. */
  lemma DefaultCursorRoundTrip(j: JsonCodec, createdAt: Time, id: Uuid)
    requires j.Lawful()
    ensures EncodeCursor(j, createdAt, id) != ""
    ensures DecodeCursor(j, EncodeCursor(j, createdAt, id)) == if id == NIL_ID then Malformed else At([createdAt, id])
    ensures DecodeRankCursor(j, EncodeCursor(j, createdAt, id)) == Malformed
    ensures DecodePhotoCursor(j, EncodeCursor(j, createdAt, id)) == Malformed
  {
    assert j.Writes(j.ListObject(createdAt, id));
    ReadObjectInverts(j, j.ListObject(createdAt, id));
  }

  lemma RankCursorRoundTrip(j: JsonCodec, rank: int, createdAt: Time, id: Uuid)
    requires j.Lawful()
    ensures EncodeRankCursor(j, rank, createdAt, id) != ""
    ensures DecodeRankCursor(j, EncodeRankCursor(j, rank, createdAt, id))
            == if id == NIL_ID then Malformed else At([rank, createdAt, id])
    ensures DecodeCursor(j, EncodeRankCursor(j, rank, createdAt, id)) == Malformed
    ensures DecodePhotoCursor(j, EncodeRankCursor(j, rank, createdAt, id)) == Malformed
  {
    assert j.Writes(j.RankObject(rank, createdAt, id));
    ReadObjectInverts(j, j.RankObject(rank, createdAt, id));
  }

  lemma PhotoCursorRoundTrip(j: JsonCodec, position: int, createdAt: Time, id: Uuid)
    requires j.Lawful()
    ensures EncodePhotoCursor(j, position, createdAt, id) != ""
    ensures DecodePhotoCursor(j, EncodePhotoCursor(j, position, createdAt, id))
            == if id == NIL_ID then Malformed else At([position, createdAt, id])
    ensures DecodeCursor(j, EncodePhotoCursor(j, position, createdAt, id)) == Malformed
    ensures DecodeRankCursor(j, EncodePhotoCursor(j, position, createdAt, id)) == Malformed
  {
    assert j.Writes(j.PhotoObject(position, createdAt, id));
    ReadObjectInverts(j, j.PhotoObject(position, createdAt, id));
  }
}
