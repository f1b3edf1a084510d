/** Little-endian integers: what the source's shift loops write and read. */
module LittleEndian {
  import opened Types
  import opened Division

  type Byte = x: int | 0 <= x < 256

  function Power256(n: nat): (p: nat)
    ensures p > 0
  {
    if n == 0 then 1 else 256 * Power256(n - 1)
  }

  /** The source's `static_cast<uint8_t>(value >> (8 * n))`. */
  function ByteOf(value: nat, n: nat): Byte {
    (value / Power256(n)) % 256
  }

  /** The low `n` bytes of `value`, lowest first. */
  function Encode(value: nat, n: nat): (bytes: seq<Byte>)
    ensures |bytes| == n
  {
    if n == 0 then [] else [value % 256] + Encode(value / 256, n - 1)
  }

  function Decode(bytes: seq<Byte>): nat {
    if bytes == [] then 0 else bytes[0] + 256 * Decode(bytes[1..])
  }

  lemma {:induction false} EncodeThenDecode(value: nat, n: nat)
    requires value < Power256(n)
    ensures Decode(Encode(value, n)) == value
  {
    if n > 0 {
      EncodeThenDecode(value / 256, n - 1);
      assert Encode(value, n)[1..] == Encode(value / 256, n - 1);
    }
  }

  lemma {:induction false} DecodeThenEncode(bytes: seq<Byte>)
    ensures Encode(Decode(bytes), |bytes|) == bytes
    ensures Decode(bytes) < Power256(|bytes|)
  {
    if bytes != [] {
      DecodeThenEncode(bytes[1..]);
      assert Decode(bytes) % 256 == bytes[0] && Decode(bytes) / 256 == Decode(bytes[1..]);
    }
  }

  lemma DivTwice(value: nat, p: nat)
    requires p > 0
    ensures (value / 256) / p == value / (256 * p)
  {
    var q := (value / 256) / p;
    var r := (value / 256) % p;
    var s := value % 256;
    assert value / 256 == q * p + r;
    assert value == q * (256 * p) + (256 * r + s) by {
      assert 256 * (q * p) == q * (256 * p);
    }
    assert 256 * r + s < 256 * p;
    QuotientIs(value, 256 * p, q, 256 * r + s);
  }

  /** Byte `i` of the encoding is the value shifted down by `i` bytes. */
  lemma {:induction false} EncodeAt(value: nat, n: nat, i: nat)
    requires i < n
    ensures Encode(value, n)[i] == ByteOf(value, i)
  {
    if i > 0 {
      EncodeAt(value / 256, n - 1, i - 1);
      DivTwice(value, Power256(i - 1));
    }
  }

  lemma {:induction false} DecodeSnoc(bytes: seq<Byte>, b: Byte)
    ensures Decode(bytes + [b]) == Decode(bytes) + b * Power256(|bytes|)
  {
    if bytes == [] {
      assert [] + [b] == [b];
    } else {
      DecodeSnoc(bytes[1..], b);
      assert (bytes + [b])[1..] == bytes[1..] + [b];
      assert b * Power256(|bytes|) == 256 * (b * Power256(|bytes[1..]|));
    }
  }

  lemma {:induction false} WordSizes()
    ensures Power256(4) == 0x1_0000_0000 && Power256(8) == TWO_64
  {
    assert Power256(2) == 0x1_0000;
    assert Power256(4) == 0x1_0000_0000;
    assert Power256(6) == 0x1_0000_0000_0000;
  }

  /** `size` bytes of `value` into `bytes`, as put_u32 and put_u64 do. */
  method Put(bytes: array<Byte>, offset: nat, value: nat, size: nat)
    requires offset + size <= bytes.Length
    modifies bytes
    ensures bytes[..] == old(bytes[..offset]) + Encode(value, size) + old(bytes[offset + size..])
  {
    hide Encode, ByteOf;
    for index := 0 to size
      invariant bytes[..offset] == old(bytes[..offset]) && bytes[offset + size..] == old(bytes[offset + size..])
      invariant forall k :: 0 <= k < index ==> bytes[offset + k] == Encode(value, size)[k]
    {
      EncodeAt(value, size, index);
      bytes[offset + index] := ByteOf(value, index);
    }
    assert bytes[..] == bytes[..offset] + bytes[offset..offset + size] + bytes[offset + size..];
    assert bytes[offset..offset + size] == Encode(value, size);
  }

  /** The bytes shifted up are disjoint, so the source's `|=` adds them. */
  method Get(bytes: array<Byte>, offset: nat, size: nat) returns (value: nat)
    requires offset + size <= bytes.Length
    ensures value == Decode(bytes[offset..offset + size])
  {
    value := 0;
    for index := 0 to size
      invariant value == Decode(bytes[offset..offset + index])
    {
      DecodeSnoc(bytes[offset..offset + index], bytes[offset + index]);
      assert bytes[offset..offset + index + 1] == bytes[offset..offset + index] + [bytes[offset + index]];
      value := value + bytes[offset + index] * Power256(index);
    }
  }
}

/** The binary event format: a fixed header, then one 96-byte record of twelve 64-bit words per event. */
module BinaryFormat {
  import opened Types
  import opened LittleEndian

  const MAGIC: seq<Byte> := [79, 82, 68, 65, 66, 73, 78, 1]
  const FORMAT_VERSION := 1
  const HEADER_BYTES := 16
  const RECORD_BYTES := 96
  const RECORD_WORDS := 12

  // ---- Words

  function Pack(words: seq<uint64>): (bytes: seq<Byte>)
    ensures |bytes| == 8 * |words|
  {
    if words == [] then [] else LittleEndian.Encode(words[0], 8) + Pack(words[1..])
  }

  function WordAt(bytes: seq<Byte>, offset: nat): uint64
    requires offset + 8 <= |bytes|
  {
    WordSizes();
    DecodeThenEncode(bytes[offset..offset + 8]);
    LittleEndian.Decode(bytes[offset..offset + 8])
  }

  function Unpack(bytes: seq<Byte>): seq<uint64>
    requires |bytes| % 8 == 0
  {
    seq(|bytes| / 8, i requires 0 <= i < |bytes| / 8 => WordAt(bytes, 8 * i))
  }

  lemma {:induction false} PackSplits(words: seq<uint64>, i: nat)
    requires i < |words|
    ensures Pack(words) == Pack(words[..i]) + LittleEndian.Encode(words[i], 8) + Pack(words[i + 1..])
    decreases i
  {
    hide LittleEndian.Encode;
    if i == 0 {
      assert Pack(words[..0]) == [];
    } else {
      PackSplits(words[1..], i - 1);
      assert words[1..][..i - 1] == words[..i][1..];
      assert words[1..][i..] == words[i + 1..];
    }
  }

  lemma UnpackPack(words: seq<uint64>)
    ensures Unpack(Pack(words)) == words
  {
    hide Pack, LittleEndian.Encode;
    forall i | 0 <= i < |words| ensures WordAt(Pack(words), 8 * i) == words[i] {
      PackSplits(words, i);
      assert Pack(words)[8 * i..8 * i + 8] == LittleEndian.Encode(words[i], 8);
      WordSizes();
      EncodeThenDecode(words[i], 8);
    }
  }

  lemma {:induction false} PackUnpack(bytes: seq<Byte>)
    requires |bytes| % 8 == 0
    ensures Pack(Unpack(bytes)) == bytes
    decreases |bytes|
  {
    hide LittleEndian.Encode;
    if bytes == [] {
      assert Unpack(bytes) == [];
    } else {
      var rest := bytes[8..];
      PackUnpack(rest);
      DecodeThenEncode(bytes[..8]);
      assert bytes[0..8] == bytes[..8];
      forall i | 0 <= i < |rest| / 8 ensures WordAt(rest, 8 * i) == WordAt(bytes, 8 * (i + 1)) {
        assert rest[8 * i..8 * i + 8] == bytes[8 * (i + 1)..8 * (i + 1) + 8];
      }
      assert Unpack(bytes)[1..] == Unpack(rest);
      assert bytes == bytes[..8] + rest;
    }
  }

  /** Writing one word in place. */
  lemma PackPut(words: seq<uint64>, i: nat, value: uint64)
    requires i < |words|
    ensures Pack(words)[..8 * i] + LittleEndian.Encode(value, 8) + Pack(words)[8 * i + 8..] == Pack(words[i := value])
  {
    hide Pack, LittleEndian.Encode;
    PackSplits(words, i);
    PackSplits(words[i := value], i);
    assert words[i := value][..i] == words[..i] && words[i := value][i + 1..] == words[i + 1..];
  }

  // ---- Two's complement

  function ToUnsigned(value: int64): uint64 {
    if value < 0 then value + TWO_64 else value
  }

  function ToSigned(word: uint64): int64 {
    if word > MAX_INT64 then word - TWO_64 else word
  }

  lemma TwosComplement(value: int64, word: uint64)
    ensures ToSigned(ToUnsigned(value)) == value && ToUnsigned(ToSigned(word)) == word
  {
  }

  // ---- Records

  function KindWord(kind: EventType): uint64 {
    match kind case Add => 0 case Cancel => 1 case Modify => 2
  }

  function TimeInForceWord(t: TimeInForce): uint64 {
    match t case GoodTilCancel => 0 case ImmediateOrCancel => 1 case FillOrKill => 2
  }

  /** The words of a record: eleven fields in the order of their offsets, and a word of padding. */
  function Fields(e: Event): (words: seq<uint64>)
    ensures |words| == RECORD_WORDS
  {
    [KindWord(e.kind), e.id, if e.side == Ask then 1 else 0, ToUnsigned(e.price), ToUnsigned(e.qty),
     if e.orderType == Market then 1 else 0, TimeInForceWord(e.timeInForce), if e.postOnly then 1 else 0,
     ToUnsigned(e.newPrice), ToUnsigned(e.newQty), e.lineNumber, 0]
  }

  function EventBytes(e: Event): (bytes: seq<Byte>)
    ensures |bytes| == RECORD_BYTES
  {
    Pack(Fields(e))
  }

  datatype Problem = TruncatedHeader | BadMagic | UnsupportedFormat | BadEnum | BadPostOnly

  datatype Decoded = Decoded(event: Event) | Bad(problem: Problem)

  /** What a record's words mean. */
  function Meaning(words: seq<uint64>): Decoded
    requires |words| == RECORD_WORDS
  {
    if words[0] > 2 || words[2] > 1 || words[5] > 1 || words[6] > 2 then Bad(BadEnum)
    else if words[7] > 1 then Bad(BadPostOnly)
    else
      Decoded(Event(
        if words[0] == 0 then Add else if words[0] == 1 then Cancel else Modify,
        words[1],
        if words[2] == 0 then Bid else Ask,
        ToSigned(words[3]), ToSigned(words[4]),
        if words[5] == 0 then Limit else Market,
        if words[6] == 0 then GoodTilCancel else if words[6] == 1 then ImmediateOrCancel else FillOrKill,
        words[7] != 0,
        ToSigned(words[8]), ToSigned(words[9]), words[10]))
  }

  function DecodeRecord(record: seq<Byte>): Decoded
    requires |record| == RECORD_BYTES
  {
    Meaning(Unpack(record))
  }

  /** Every event survives the round trip, over the full range of every field. */
  lemma RecordRoundTrip(e: Event)
    ensures DecodeRecord(EventBytes(e)) == Decoded(e)
  {
    hide Pack, Unpack;
    UnpackPack(Fields(e));
  }

  /** A record that decodes re-encodes to itself exactly when its padding is zero. */
  lemma PaddingIsTheOnlySlack(record: seq<Byte>)
    requires |record| == RECORD_BYTES && DecodeRecord(record).Decoded?
    ensures EventBytes(DecodeRecord(record).event) == record <==> (forall i :: 88 <= i < 96 ==> record[i] == 0)
  {
    hide Pack, ToSigned, ToUnsigned;
    var e := DecodeRecord(record).event;
    var words := Unpack(record);
    PackUnpack(record);
    UnpackPack(Fields(e));
    forall i | 0 <= i < 11 ensures Fields(e)[i] == words[i] {
      TwosComplement(0, words[i]);
    }
    ZeroWord(record[88..96]);
    assert Fields(e) == words <==> words[11] == 0;
    if forall i :: 88 <= i < 96 ==> record[i] == 0 {
      assert forall i :: 0 <= i < 8 ==> record[88..96][i] == record[88 + i];
    } else {
      var i :| 88 <= i < 96 && record[i] != 0;
      assert record[88..96][i - 88] == record[i];
    }
  }

  // ---- The layout of a record

  /** The 64-bit word at a byte offset, lowest byte first. */
  function Le64(bytes: seq<Byte>, at: nat): nat
    requires at + 8 <= |bytes|
  {
    var b: seq<int> := bytes[at..at + 8];
    b[0] + 0x100 * b[1] + 0x1_0000 * b[2] + 0x100_0000 * b[3]
    + 0x1_0000_0000 * b[4] + 0x100_0000_0000 * b[5] + 0x1_0000_0000_0000 * b[6] + 0x100_0000_0000_0000 * b[7]
  }

  /** The word stands for the value in two's complement. */
  predicate Signed(word: nat, value: int64) {
    word == if value >= 0 then value else value + 0x1_0000_0000_0000_0000
  }

  /** The eleven fields of an event, each at its own place in the record. */
  ghost predicate HoldsFields(record: seq<Byte>, e: Event)
    requires |record| == RECORD_BYTES
  {
    && Le64(record, 0) == (if e.kind == Add then 0 else if e.kind == Cancel then 1 else 2)
    && Le64(record, 8) == e.id
    && Le64(record, 16) == (if e.side == Bid then 0 else 1)
    && Signed(Le64(record, 24), e.price) && Signed(Le64(record, 32), e.qty)
    && Le64(record, 40) == (if e.orderType == Limit then 0 else 1)
    && Le64(record, 48)
       == (if e.timeInForce == GoodTilCancel then 0 else if e.timeInForce == ImmediateOrCancel then 1 else 2)
    && Le64(record, 56) == (if e.postOnly then 1 else 0)
    && Signed(Le64(record, 64), e.newPrice) && Signed(Le64(record, 72), e.newQty)
    && Le64(record, 80) == e.lineNumber
  }

  /** What a record reads as: bad enumeration words are found first, then a bad post-only word. */
  ghost predicate ReadsAs(record: seq<Byte>, d: Decoded)
    requires |record| == RECORD_BYTES
  {
    var badEnum := Le64(record, 0) > 2 || Le64(record, 16) > 1 || Le64(record, 40) > 1 || Le64(record, 48) > 2;
    && (badEnum <==> d == Bad(BadEnum))
    && (!badEnum && Le64(record, 56) > 1 <==> d == Bad(BadPostOnly))
    && (!badEnum && Le64(record, 56) <= 1 <==> d.Decoded?)
    && (d.Decoded? ==> HoldsFields(record, d.event))
  }

  lemma {:induction false} DecodeStep(bytes: seq<Byte>)
    requires bytes != []
    ensures LittleEndian.Decode(bytes) == bytes[0] + 256 * LittleEndian.Decode(bytes[1..])
  {
  }

  lemma {:induction false} WordIsLe64(bytes: seq<Byte>, at: nat)
    requires at + 8 <= |bytes|
    ensures WordAt(bytes, at) == Le64(bytes, at)
  {
    hide LittleEndian.Decode;
    var w := bytes[at..at + 8];
    DecodeStep(w);
    DecodeStep(w[1..]);
    DecodeStep(w[2..]);
    DecodeStep(w[3..]);
    DecodeStep(w[4..]);
    DecodeStep(w[5..]);
    DecodeStep(w[6..]);
    DecodeStep(w[7..]);
    assert w[1..][1..] == w[2..] && w[2..][1..] == w[3..] && w[3..][1..] == w[4..] && w[4..][1..] == w[5..];
    assert w[5..][1..] == w[6..] && w[6..][1..] == w[7..] && w[7..][1..] == [];
    assert LittleEndian.Decode([]) == 0 by {
      DecodeNothing();
    }
  }

  lemma DecodeNothing()
    ensures LittleEndian.Decode([]) == 0
  {
  }

  lemma {:induction false} RecordWords(record: seq<Byte>)
    requires |record| == RECORD_BYTES
    ensures |Unpack(record)| == RECORD_WORDS
    ensures forall i :: 0 <= i < RECORD_WORDS ==> Unpack(record)[i] == Le64(record, 8 * i)
  {
    hide Le64, WordAt;
    forall i | 0 <= i < RECORD_WORDS ensures Unpack(record)[i] == Le64(record, 8 * i) {
      WordIsLe64(record, 8 * i);
    }
  }

  /** Every record is read field by field from the places the format gives them. */
  lemma {:induction false} RecordReadsAs(record: seq<Byte>)
    requires |record| == RECORD_BYTES
    ensures ReadsAs(record, DecodeRecord(record))
  {
    hide Le64, Unpack;
    RecordWords(record);
  }

  /** Every event is written field by field to those places, with zeros behind. */
  lemma {:induction false} EventIsLaidOut(e: Event)
    ensures HoldsFields(EventBytes(e), e)
    ensures forall i :: 88 <= i < 96 ==> EventBytes(e)[i] == 0
  {
    hide Le64, Unpack, EventBytes, DecodeRecord;
    RecordRoundTrip(e);
    RecordReadsAs(EventBytes(e));
    PaddingIsTheOnlySlack(EventBytes(e));
  }

  lemma {:induction false} ZeroWord(bytes: seq<Byte>)
    ensures LittleEndian.Decode(bytes) == 0 <==> forall i :: 0 <= i < |bytes| ==> bytes[i] == 0
  {
    if bytes != [] {
      ZeroWord(bytes[1..]);
      if forall i :: 0 <= i < |bytes[1..]| ==> bytes[1..][i] == 0 {
        assert forall i :: 1 <= i < |bytes| ==> bytes[i] == bytes[1..][i - 1];
      }
    }
  }
}

/** Reading and writing whole event files, as byte sequences. */
module Codec {
  import opened Types
  import opened LittleEndian
  import opened BinaryFormat

  function Header(): (bytes: seq<Byte>)
    ensures |bytes| == HEADER_BYTES
  {
    MAGIC + LittleEndian.Encode(FORMAT_VERSION, 4) + LittleEndian.Encode(RECORD_BYTES, 4)
  }

  function RecordsOf(es: seq<Event>): (bytes: seq<Byte>)
    ensures |bytes| == RECORD_BYTES * |es|
  {
    if es == [] then [] else EventBytes(es[0]) + RecordsOf(es[1..])
  }

  function FileOf(es: seq<Event>): seq<Byte> {
    Header() + RecordsOf(es)
  }

  datatype ParseResult = Parsed(events: seq<Event>) | Failed(record: nat, problem: Problem)

  /** Records from number `number` + 1 on; bytes that do not fill a record end the file. */
  function ParseRecords(bytes: seq<Byte>, number: nat, before: seq<Event>): ParseResult
    decreases |bytes|
  {
    if |bytes| < RECORD_BYTES then Parsed(before)
    else
      match DecodeRecord(bytes[..RECORD_BYTES])
      case Bad(problem) => Failed(number + 1, problem)
      case Decoded(e) => ParseRecords(bytes[RECORD_BYTES..], number + 1, before + [e])
  }

  function Parse(file: seq<Byte>): ParseResult {
    if |file| < HEADER_BYTES then Failed(0, TruncatedHeader)
    else if file[..8] != MAGIC then Failed(0, BadMagic)
    else if LittleEndian.Decode(file[8..12]) != FORMAT_VERSION
            || LittleEndian.Decode(file[12..16]) != RECORD_BYTES then Failed(0, UnsupportedFormat)
    else ParseRecords(file[HEADER_BYTES..], 0, [])
  }

  /** ORDABIN and a 1, then version 1 and record size 96, lowest byte first. */
  lemma HeaderBytes()
    ensures Header() == [79, 82, 68, 65, 66, 73, 78, 1, 1, 0, 0, 0, 96, 0, 0, 0]
  {
    assert LittleEndian.Encode(1, 4) == [1] + LittleEndian.Encode(0, 3);
    assert LittleEndian.Encode(96, 4) == [96] + LittleEndian.Encode(0, 3);
    assert LittleEndian.Encode(0, 3) == [0, 0, 0];
  }

  lemma {:induction false} RecordProblemsAreNumbered(bytes: seq<Byte>, number: nat, before: seq<Event>)
    ensures var r := ParseRecords(bytes, number, before); r.Failed? ==> r.record > number
    decreases |bytes|
  {
    hide DecodeRecord;
    if |bytes| >= RECORD_BYTES && DecodeRecord(bytes[..RECORD_BYTES]).Decoded? {
      RecordProblemsAreNumbered(bytes[RECORD_BYTES..], number + 1,
                                before + [DecodeRecord(bytes[..RECORD_BYTES]).event]);
    }
  }

  /** Which problem a header has: too short, then not the magic, then another version or record size. */
  lemma HeaderProblems(file: seq<Byte>)
    ensures |file| < 16 <==> Parse(file) == Failed(0, TruncatedHeader)
    ensures |file| >= 16 && file[..8] != [79, 82, 68, 65, 66, 73, 78, 1] <==> Parse(file) == Failed(0, BadMagic)
    ensures |file| >= 16 && file[..8] == [79, 82, 68, 65, 66, 73, 78, 1]
            && (file[8..12] != [1, 0, 0, 0] || file[12..16] != [96, 0, 0, 0])
            <==> Parse(file) == Failed(0, UnsupportedFormat)
  {
    hide LittleEndian.Decode, LittleEndian.Encode, ParseRecords;
    if |file| >= HEADER_BYTES {
      RecordProblemsAreNumbered(file[HEADER_BYTES..], 0, []);
      FourBytes(file[8..12], FORMAT_VERSION, [1, 0, 0, 0]);
      FourBytes(file[12..16], RECORD_BYTES, [96, 0, 0, 0]);
    }
  }

  lemma FourBytes(bytes: seq<Byte>, value: nat, expected: seq<Byte>)
    requires |bytes| == 4 && value < 256 && expected == [value, 0, 0, 0]
    ensures LittleEndian.Decode(bytes) == value <==> bytes == expected
  {
    DecodeThenEncode(bytes);
    DecodeThenEncode(expected);
    assert LittleEndian.Decode(expected) == value by {
      assert expected[1..] == [0, 0, 0];
      ZeroWord(expected[1..]);
    }
  }

  lemma PrefixHeader(file: seq<Byte>, k: nat)
    requires HEADER_BYTES <= k <= |file|
    ensures file[..k][..8] == file[..8] && file[..k][8..12] == file[8..12] && file[..k][12..16] == file[12..16]
  {
  }

  /** A good header with nothing after it. */
  lemma BareHeader(file: seq<Byte>)
    requires |file| >= HEADER_BYTES && file[..8] == MAGIC
    requires LittleEndian.Decode(file[8..12]) == FORMAT_VERSION && LittleEndian.Decode(file[12..16]) == RECORD_BYTES
    ensures Parse(file[..HEADER_BYTES]) == Parsed([])
  {
    hide LittleEndian.Decode;
    PrefixHeader(file, HEADER_BYTES);
  }

  lemma {:induction false} ParseSnoc(bytes: seq<Byte>, record: seq<Byte>, number: nat, before: seq<Event>)
    requires |bytes| % RECORD_BYTES == 0 && |record| == RECORD_BYTES && DecodeRecord(record).Decoded?
    requires ParseRecords(bytes, number, before).Parsed?
    ensures ParseRecords(bytes + record, number, before)
            == Parsed(ParseRecords(bytes, number, before).events + [DecodeRecord(record).event])
    decreases |bytes|
  {
    hide DecodeRecord;
    var all := bytes + record;
    if bytes == [] {
      assert all[..RECORD_BYTES] == record && all[RECORD_BYTES..] == [];
    } else {
      assert all[..RECORD_BYTES] == bytes[..RECORD_BYTES] && all[RECORD_BYTES..] == bytes[RECORD_BYTES..] + record;
      ParseSnoc(bytes[RECORD_BYTES..], record, number + 1, before + [DecodeRecord(bytes[..RECORD_BYTES]).event]);
    }
  }

  /** One more good record adds its event to what a file parses to. */
  lemma ParseOneMore(file: seq<Byte>, position: nat, es: seq<Event>)
    requires HEADER_BYTES <= position && position + RECORD_BYTES <= |file|
    requires (position - HEADER_BYTES) % RECORD_BYTES == 0
    requires Parse(file[..position]) == Parsed(es)
    requires DecodeRecord(file[position..][..RECORD_BYTES]).Decoded?
    ensures Parse(file[..position + RECORD_BYTES])
            == Parsed(es + [DecodeRecord(file[position..][..RECORD_BYTES]).event])
  {
    hide DecodeRecord, LittleEndian.Decode;
    var shorter, longer := file[..position], file[..position + RECORD_BYTES];
    var record := file[position..][..RECORD_BYTES];
    PrefixHeader(file, position);
    PrefixHeader(file, position + RECORD_BYTES);
    assert longer[HEADER_BYTES..] == shorter[HEADER_BYTES..] + record;
    ParseSnoc(shorter[HEADER_BYTES..], record, 0, []);
  }

  // ---- The loops

  method MakeHeader() returns (header: array<Byte>)
    ensures header[..] == Header() == [79, 82, 68, 65, 66, 73, 78, 1, 1, 0, 0, 0, 96, 0, 0, 0]
  {
    hide LittleEndian.Encode;
    HeaderBytes();
    header := new Byte[HEADER_BYTES](_ => 0);
    for index := 0 to 8
      invariant forall k :: 0 <= k < index ==> header[k] == MAGIC[k]
    {
      header[index] := MAGIC[index];
    }
    assert header[..8] == MAGIC;
    Put(header, 8, FORMAT_VERSION, 4);
    assert header[..12] == MAGIC + LittleEndian.Encode(FORMAT_VERSION, 4);
    Put(header, 12, RECORD_BYTES, 4);
  }

  method PutWord(record: array<Byte>, i: nat, value: uint64, ghost words: seq<uint64>)
    requires record.Length == RECORD_BYTES && |words| == RECORD_WORDS && i < RECORD_WORDS
    requires record[..] == Pack(words)
    modifies record
    ensures record[..] == Pack(words[i := value])
  {
    hide Pack, LittleEndian.Encode;
    PackPut(words, i, value);
    assert record[..8 * i] == record[..][..8 * i] && record[8 * i + 8..] == record[..][8 * i + 8..];
    Put(record, 8 * i, value, 8);
  }

  method EncodeEvent(e: Event) returns (record: array<Byte>)
    ensures fresh(record) && record[..] == EventBytes(e)
    ensures HoldsFields(record[..], e) && forall i :: 88 <= i < 96 ==> record[i] == 0
  {
    hide Pack, HoldsFields;
    record := new Byte[RECORD_BYTES](_ => 0);
    ghost var w: seq<uint64> := seq(RECORD_WORDS, _ => 0);
    BlankRecord(record[..]);
    PutWord(record, 0, KindWord(e.kind), w);
    w := w[0 := KindWord(e.kind)];
    PutWord(record, 1, e.id, w);
    w := w[1 := e.id];
    PutWord(record, 2, if e.side == Ask then 1 else 0, w);
    w := w[2 := if e.side == Ask then 1 else 0];
    PutWord(record, 3, ToUnsigned(e.price), w);
    w := w[3 := ToUnsigned(e.price)];
    PutWord(record, 4, ToUnsigned(e.qty), w);
    w := w[4 := ToUnsigned(e.qty)];
    PutWord(record, 5, if e.orderType == Market then 1 else 0, w);
    w := w[5 := if e.orderType == Market then 1 else 0];
    PutWord(record, 6, TimeInForceWord(e.timeInForce), w);
    w := w[6 := TimeInForceWord(e.timeInForce)];
    PutWord(record, 7, if e.postOnly then 1 else 0, w);
    w := w[7 := if e.postOnly then 1 else 0];
    PutWord(record, 8, ToUnsigned(e.newPrice), w);
    w := w[8 := ToUnsigned(e.newPrice)];
    PutWord(record, 9, ToUnsigned(e.newQty), w);
    w := w[9 := ToUnsigned(e.newQty)];
    PutWord(record, 10, e.lineNumber, w);
    w := w[10 := e.lineNumber];
    assert w == Fields(e);
    EventIsLaidOut(e);
    assert forall i :: 88 <= i < 96 ==> record[..][i] == record[i];
  }

  lemma BlankRecord(bytes: seq<Byte>)
    requires |bytes| == RECORD_BYTES && forall i :: 0 <= i < RECORD_BYTES ==> bytes[i] == 0
    ensures bytes == Pack(seq(RECORD_WORDS, _ => 0))
  {
    hide Pack;
    PackUnpack(bytes);
    forall i | 0 <= i < RECORD_WORDS ensures WordAt(bytes, 8 * i) == 0 {
      ZeroWord(bytes[8 * i..8 * i + 8]);
    }
    assert Unpack(bytes) == seq(RECORD_WORDS, _ => 0);
  }

  method GetWord(record: array<Byte>, i: nat) returns (word: uint64)
    requires record.Length == RECORD_BYTES && i < RECORD_WORDS
    ensures word == Unpack(record[..])[i]
  {
    hide LittleEndian.Decode;
    assert record[..][8 * i..8 * i + 8] == record[8 * i..8 * i + 8];
    assert WordAt(record[..], 8 * i) == LittleEndian.Decode(record[8 * i..8 * i + 8]);
    word := Get(record, 8 * i, 8);
  }

  method DecodeEvent(record: array<Byte>) returns (decoded: Decoded)
    requires record.Length == RECORD_BYTES
    ensures decoded == DecodeRecord(record[..]) && ReadsAs(record[..], decoded)
  {
    hide Unpack, ReadsAs;
    RecordReadsAs(record[..]);
    ghost var words := Unpack(record[..]);
    WordCount(record[..]);
    var kind := GetWord(record, 0);
    var side := GetWord(record, 2);
    var orderType := GetWord(record, 5);
    var timeInForce := GetWord(record, 6);
    if kind > 2 || side > 1 || orderType > 1 || timeInForce > 2 {
      return Bad(BadEnum);
    }
    var id := GetWord(record, 1);
    var price := GetWord(record, 3);
    var qty := GetWord(record, 4);
    var postOnly := GetWord(record, 7);
    if postOnly > 1 {
      return Bad(BadPostOnly);
    }
    var newPrice := GetWord(record, 8);
    var newQty := GetWord(record, 9);
    var lineNumber := GetWord(record, 10);
    decoded := Decoded(Event(
      if kind == 0 then Add else if kind == 1 then Cancel else Modify, id,
      if side == 0 then Bid else Ask, ToSigned(price), ToSigned(qty),
      if orderType == 0 then Limit else Market,
      if timeInForce == 0 then GoodTilCancel else if timeInForce == 1 then ImmediateOrCancel else FillOrKill,
      postOnly != 0, ToSigned(newPrice), ToSigned(newQty), lineNumber));
  }

  lemma WordCount(bytes: seq<Byte>)
    requires |bytes| == RECORD_BYTES
    ensures |Unpack(bytes)| == RECORD_WORDS
  {
  }

  method WriteEvents(es: seq<Event>) returns (file: seq<Byte>)
    ensures file == FileOf(es)
  {
    hide Header, EventBytes, HoldsFields;
    var header := MakeHeader();
    file := header[..];
    for index := 0 to |es|
      invariant file == Header() + RecordsOf(es[..index])
    {
      var record := EncodeEvent(es[index]);
      RecordsAppend(es[..index], [es[index]]);
      assert es[..index + 1] == es[..index] + [es[index]];
      file := file + record[..];
    }
    assert es[..|es|] == es;
  }

  lemma {:induction false} RecordsAppend(a: seq<Event>, b: seq<Event>)
    ensures RecordsOf(a + b) == RecordsOf(a) + RecordsOf(b)
  {
    hide EventBytes;
    if a == [] {
      assert a + b == b;
    } else {
      RecordsAppend(a[1..], b);
      assert (a + b)[0] == a[0] && (a + b)[1..] == a[1..] + b;
      Associative(EventBytes(a[0]), RecordsOf(a[1..]), RecordsOf(b));
    }
  }

  lemma Associative(a: seq<Byte>, b: seq<Byte>, c: seq<Byte>)
    ensures (a + b) + c == a + (b + c)
  {
  }

  /** `delivered` is what the callback variant hands out before it stops. */
  method ParseBinary(file: array<Byte>) returns (result: ParseResult, delivered: seq<Event>)
    ensures result == Parse(file[..])
    ensures result.Parsed? ==> result.events == delivered
    ensures result.Failed? ==> |delivered| == (if result.record > 0 then result.record - 1 else 0)
    ensures result.Failed? && result.record > 0 ==> HEADER_BYTES + RECORD_BYTES * result.record <= file.Length
    ensures result.Failed? && result.record > 0 ==>
              Parse(file[..HEADER_BYTES + RECORD_BYTES * (result.record - 1)]) == Parsed(delivered)
  {
    hide DecodeRecord, LittleEndian.Decode, ReadsAs;
    delivered := [];
    if file.Length < HEADER_BYTES {
      return Failed(0, TruncatedHeader), [];
    }
    for index := 0 to 8
      invariant forall k :: 0 <= k < index ==> file[k] == MAGIC[k]
    {
      if file[index] != MAGIC[index] {
        assert file[..][..8][index] != MAGIC[index];
        return Failed(0, BadMagic), [];
      }
    }
    assert file[..][..8] == MAGIC;
    assert file[..][8..12] == file[8..12] && file[..][12..16] == file[12..16];
    var version := Get(file, 8, 4);
    var recordBytes := Get(file, 12, 4);
    if version != FORMAT_VERSION || recordBytes != RECORD_BYTES {
      return Failed(0, UnsupportedFormat), [];
    }
    var position := HEADER_BYTES;
    BareHeader(file[..]);
    assert file[..position] == file[..][..HEADER_BYTES];
    while position + RECORD_BYTES <= file.Length
      invariant position == HEADER_BYTES + RECORD_BYTES * |delivered| <= file.Length
      invariant Parse(file[..position]) == Parsed(delivered)
      invariant ParseRecords(file[position..], |delivered|, delivered) == Parse(file[..])
      decreases file.Length - position
    {
      var record := new Byte[RECORD_BYTES](i requires 0 <= i < RECORD_BYTES reads file => file[position + i]);
      assert record[..] == file[position..][..RECORD_BYTES];
      assert file[position..][RECORD_BYTES..] == file[position + RECORD_BYTES..];
      var decoded := DecodeEvent(record);
      if decoded.Bad? {
        return Failed(|delivered| + 1, decoded.problem), delivered;
      }
      ParseOneMore(file[..], position, delivered);
      delivered := delivered + [decoded.event];
      position := position + RECORD_BYTES;
    }
    result := Parsed(delivered);
  }

  // ---- Laws

  lemma {:induction false} ParsesRecords(es: seq<Event>, rest: seq<Byte>, number: nat, before: seq<Event>)
    ensures ParseRecords(RecordsOf(es) + rest, number, before) == ParseRecords(rest, number + |es|, before + es)
    decreases |es|
  {
    hide EventBytes, DecodeRecord;
    if es == [] {
      assert RecordsOf(es) + rest == rest && before + es == before;
    } else {
      RecordRoundTrip(es[0]);
      var bytes := RecordsOf(es) + rest;
      assert bytes[..RECORD_BYTES] == EventBytes(es[0]);
      assert bytes[RECORD_BYTES..] == RecordsOf(es[1..]) + rest;
      ParsesRecords(es[1..], rest, number + 1, before + [es[0]]);
      assert before + [es[0]] + es[1..] == before + es;
    }
  }

  lemma HeaderParses(rest: seq<Byte>)
    ensures Parse(Header() + rest) == ParseRecords(rest, 0, [])
  {
    hide DecodeRecord, ParseRecords, LittleEndian.Encode, LittleEndian.Decode;
    var file := Header() + rest;
    WordSizes();
    EncodeThenDecode(FORMAT_VERSION, 4);
    EncodeThenDecode(RECORD_BYTES, 4);
    assert file[..8] == MAGIC && file[8..12] == LittleEndian.Encode(FORMAT_VERSION, 4);
    assert file[12..16] == LittleEndian.Encode(RECORD_BYTES, 4) && file[HEADER_BYTES..] == rest;
  }

  /**
   Reading back what was written gives the same events. A partial last record, which the reader does
   not report, changes nothing.
   */
  lemma FileRoundTrip(es: seq<Event>, partial: seq<Byte>)
    requires |partial| < RECORD_BYTES
    ensures Parse(FileOf(es) + partial) == Parsed(es) && Parse(FileOf(es)) == Parsed(es)
  {
    hide DecodeRecord, Header, RecordsOf;
    assert FileOf(es) + partial == Header() + (RecordsOf(es) + partial);
    assert FileOf(es) == Header() + (RecordsOf(es) + []);
    HeaderParses(RecordsOf(es) + partial);
    HeaderParses(RecordsOf(es) + []);
    ParsesRecords(es, partial, 0, []);
    ParsesRecords(es, [], 0, []);
    assert [] + es == es;
  }

  /** A record error is reported with its own number, after everything before it decoded. */
  lemma FirstBadRecordIsReported(es: seq<Event>, record: seq<Byte>, rest: seq<Byte>)
    requires |record| == RECORD_BYTES && DecodeRecord(record).Bad?
    ensures Parse(FileOf(es) + record + rest) == Failed(|es| + 1, DecodeRecord(record).problem)
  {
    hide DecodeRecord, Header, RecordsOf;
    assert FileOf(es) + record + rest == Header() + (RecordsOf(es) + (record + rest));
    HeaderParses(RecordsOf(es) + (record + rest));
    ParsesRecords(es, record + rest, 0, []);
    assert (record + rest)[..RECORD_BYTES] == record;
  }

  /** Every full record ends in eight zero bytes. */
  predicate ZeroPadded(bytes: seq<Byte>)
    decreases |bytes|
  {
    |bytes| < RECORD_BYTES
    || ((forall i :: 88 <= i < RECORD_BYTES ==> bytes[i] == 0) && ZeroPadded(bytes[RECORD_BYTES..]))
  }

  lemma {:induction false} ParsedRecordsWereWritten(bytes: seq<Byte>, number: nat, before: seq<Event>)
    returns (es: seq<Event>)
    requires ParseRecords(bytes, number, before).Parsed? && ZeroPadded(bytes)
    ensures ParseRecords(bytes, number, before).events == before + es
    ensures RecordsOf(es) <= bytes && |bytes| - |RecordsOf(es)| < RECORD_BYTES
    decreases |bytes|
  {
    hide EventBytes, DecodeRecord;
    if |bytes| < RECORD_BYTES {
      es := [];
    } else {
      var record, rest := bytes[..RECORD_BYTES], bytes[RECORD_BYTES..];
      var e := DecodeRecord(record).event;
      assert forall i :: 88 <= i < RECORD_BYTES ==> record[i] == bytes[i];
      PaddingIsTheOnlySlack(record);
      var others := ParsedRecordsWereWritten(rest, number + 1, before + [e]);
      es := [e] + others;
      assert es[1..] == others && before + [e] + others == before + es;
      assert bytes == record + rest;
    }
  }

  lemma GoodHeader(file: seq<Byte>)
    requires Parse(file).Parsed?
    ensures |file| >= HEADER_BYTES && file[..HEADER_BYTES] == Header()
    ensures Parse(file) == ParseRecords(file[HEADER_BYTES..], 0, [])
  {
    hide ParseRecords, LittleEndian.Encode, LittleEndian.Decode;
    DecodeThenEncode(file[8..12]);
    DecodeThenEncode(file[12..16]);
    assert file[..HEADER_BYTES] == file[..8] + file[8..12] + file[12..16];
  }

  /** A file that parses and pads with zeros is the file of the events it parses to, up to a partial record. */
  lemma WhatParsesWasWritten(file: seq<Byte>)
    requires Parse(file).Parsed? && |file| >= HEADER_BYTES && ZeroPadded(file[HEADER_BYTES..])
    ensures FileOf(Parse(file).events) <= file && |file| - |FileOf(Parse(file).events)| < RECORD_BYTES
  {
    hide Header, RecordsOf, ParseRecords, Parse;
    GoodHeader(file);
    var es := ParsedRecordsWereWritten(file[HEADER_BYTES..], 0, []);
    assert [] + es == es;
    assert file == file[..HEADER_BYTES] + file[HEADER_BYTES..];
  }
}
