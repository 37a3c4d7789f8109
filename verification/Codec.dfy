/** The record codec: type (1 byte), key length and value length (4 bytes each, big endian), key, value. */
module Codec {
  import opened ByteStrings
  import opened Wrappers

  const TYPE_PUT: byte := 1
  const TYPE_DELETE: byte := 2
  const HEADER_SIZE := 9
  const MAX_UINT32 := 0xFFFF_FFFF

  datatype Record = Record(typ: byte, key: Bytes, value: Bytes)

  /** What CheckEncodePara answers, in the order the checks are made. */
  function CheckEncodePara(r: Record): Option<Error>
  {
    if r.typ != TYPE_PUT && r.typ != TYPE_DELETE then Some(ErrInvalidType)
    else if r.typ == TYPE_DELETE && |r.value| != 0 then Some(ErrUnexpectedValue)
    else if |r.key| > MAX_UINT32 || |r.value| > MAX_UINT32 then Some(ErrRecordTooLarge)
    else if |r.key| == 0 then Some(ErrEmptyKey)
    else None
  }

  predicate Valid(r: Record)
  {
    CheckEncodePara(r) == None
  }

  function BigEndian(n: nat): (s: Bytes)
    requires n <= MAX_UINT32
    ensures |s| == 4
  {
    [(n / 0x100_0000) as byte, (n / 0x1_0000 % 0x100) as byte, (n / 0x100 % 0x100) as byte, (n % 0x100) as byte]
  }

  function FromBigEndian(s: Bytes): (n: nat)
    requires |s| == 4
    ensures n <= MAX_UINT32
  {
    s[0] as nat * 0x100_0000 + s[1] as nat * 0x1_0000 + s[2] as nat * 0x100 + s[3] as nat
  }

  lemma BigEndianRoundTrip(n: nat)
    requires n <= MAX_UINT32
    ensures FromBigEndian(BigEndian(n)) == n
  {
    var a, b := n / 0x100, n / 0x1_0000;
    assert a / 0x100 == b && b / 0x100 == n / 0x100_0000;
  }

  lemma FromBigEndianInjective(s: Bytes)
    requires |s| == 4
    ensures BigEndian(FromBigEndian(s)) == s
  {
    var n := FromBigEndian(s);
    assert n / 0x100 == s[0] as nat * 0x1_0000 + s[1] as nat * 0x100 + s[2] as nat;
    assert n / 0x1_0000 == s[0] as nat * 0x100 + s[1] as nat;
  }

  /** The number a byte string denotes, the most significant byte first. */
  function Number(s: Bytes): nat
  {
    if s == [] then 0 else 0x100 * Number(s[..|s| - 1]) + s[|s| - 1] as nat
  }

  lemma {:induction false} NumberOfFour(s: Bytes)
    requires |s| == 4
    ensures Number(s) == FromBigEndian(s)
  {
    assert s[..3][..2] == s[..2] && s[..2][..1] == s[..1] && s[..1][..0] == [];
    assert Number(s[..1]) == s[0] as nat;
    assert Number(s[..2]) == 0x100 * s[0] as nat + s[1] as nat;
    assert Number(s[..3]) == 0x1_0000 * s[0] as nat + 0x100 * s[1] as nat + s[2] as nat;
  }

  /** The byte layout of a record. */
  function Layout(r: Record): (s: Bytes)
    requires |r.key| <= MAX_UINT32 && |r.value| <= MAX_UINT32
    ensures |s| == HEADER_SIZE + |r.key| + |r.value|
  {
    [r.typ] + BigEndian(|r.key|) + BigEndian(|r.value|) + r.key + r.value
  }

  /** What Decode answers on a stream, and how many bytes it has then consumed. */
  datatype Decoded = Decoded(res: Result<Record>, used: nat)

  function Decode(s: Bytes): (d: Decoded)
    ensures d.used <= |s|
    ensures d.res.Ok? ==> d.used == HEADER_SIZE + |d.res.value.key| + |d.res.value.value|
    ensures d.res.Err? ==> d.res.error in {EOF, ErrIncompleteRecord, ErrInvalidType, ErrEmptyKey}
  {
    if s == [] then Decoded(Err(EOF), 0)
    else if |s| < HEADER_SIZE then Decoded(Err(ErrIncompleteRecord), |s|)
    else
      var keySize, valueSize := FromBigEndian(s[1..5]), FromBigEndian(s[5..9]);
      if s[0] != TYPE_PUT && s[0] != TYPE_DELETE then Decoded(Err(ErrInvalidType), HEADER_SIZE)
      else if keySize == 0 then Decoded(Err(ErrEmptyKey), HEADER_SIZE)
      else if |s| < HEADER_SIZE + keySize + valueSize then Decoded(Err(ErrIncompleteRecord), |s|)
      else
        Decoded(Ok(Record(s[0], s[9..9 + keySize], s[9 + keySize..9 + keySize + valueSize])),
                HEADER_SIZE + keySize + valueSize)
  }

  lemma LayoutHeader(r: Record, s: Bytes)
    requires |r.key| <= MAX_UINT32 && |r.value| <= MAX_UINT32
    ensures var t := Layout(r) + s;
            t[0] == r.typ && t[1..5] == BigEndian(|r.key|) && t[5..9] == BigEndian(|r.value|)
                && t[9..] == r.key + r.value + s
  {
  }

  /** What a byte string must be to encode a record, field by field: type 1 or 2, the two lengths as big-endian numbers
      of four bytes, key and value. */
  predicate Fields(r: Record, s: Bytes)
  {
    var k := HEADER_SIZE + |r.key|;
    && |s| == 1 + 4 + 4 + |r.key| + |r.value| && s[0] == r.typ
    && Number(s[1..5]) == |r.key| && Number(s[5..9]) == |r.value|
    && s[9..k] == r.key && s[k..] == r.value
  }

  /** The layout of a record is the one byte string with these fields. */
  lemma LayoutFields(r: Record, s: Bytes)
    requires |r.key| <= MAX_UINT32 && |r.value| <= MAX_UINT32
    ensures s == Layout(r) <==> Fields(r, s)
    ensures Valid(r) ==> r.typ == 1 || (r.typ == 2 && r.value == [])
  {
    hide Number, FromBigEndian, BigEndian;
    LayoutHeader(r, []);
    assert Layout(r) + [] == Layout(r);
    BigEndianRoundTrip(|r.key|);
    BigEndianRoundTrip(|r.value|);
    NumberOfFour(BigEndian(|r.key|));
    NumberOfFour(BigEndian(|r.value|));
    if Fields(r, s) {
      NumberOfFour(s[1..5]);
      NumberOfFour(s[5..9]);
      FromBigEndianInjective(s[1..5]);
      FromBigEndianInjective(s[5..9]);
      LayoutFrom(r, s);
    }
  }

  lemma LayoutFrom(r: Record, s: Bytes)
    requires |r.key| <= MAX_UINT32 && |r.value| <= MAX_UINT32 && |s| == HEADER_SIZE + |r.key| + |r.value|
    requires s[0] == r.typ && s[1..5] == BigEndian(|r.key|) && s[5..9] == BigEndian(|r.value|)
    requires s[9..9 + |r.key|] == r.key && s[9 + |r.key|..] == r.value
    ensures s == Layout(r)
  {
    hide BigEndian;
    assert s == [s[0]] + s[1..5] + s[5..9] + s[9..9 + |r.key|] + s[9 + |r.key|..];
  }

  /** Reading succeeds exactly on a whole record: a type of 1 or 2, a key length that is not 0, and as many bytes behind
      the header as its two numbers say; they are then the key and the value. */
  lemma DecodeFields(s: Bytes)
    ensures Decode(s).res.Ok? <==>
            && |s| >= 9 && (s[0] == 1 || s[0] == 2) && Number(s[1..5]) > 0
            && |s| >= 9 + Number(s[1..5]) + Number(s[5..9])
    ensures Decode(s).res.Ok? ==> Fields(Decode(s).res.value, s[..Decode(s).used])
  {
    hide Number, FromBigEndian;
    if |s| >= 9 {
      NumberOfFour(s[1..5]);
      NumberOfFour(s[5..9]);
    }
    if Decode(s).res.Ok? {
      var t := s[..Decode(s).used];
      assert t[1..5] == s[1..5] && t[5..9] == s[5..9];
    }
  }

  /** Reading back what was written, whatever follows it. */
  lemma DecodeEncode(r: Record, s: Bytes)
    requires Valid(r)
    ensures Decode(Layout(r) + s) == Decoded(Ok(r), |Layout(r)|)
    ensures (Layout(r) + s)[|Layout(r)|..] == s
  {
    var t := Layout(r) + s;
    LayoutHeader(r, s);
    BigEndianRoundTrip(|r.key|);
    BigEndianRoundTrip(|r.value|);
    var k := 9 + |r.key|;
    assert t[9..k] == t[9..][..|r.key|] == r.key;
    assert t[k..k + |r.value|] == t[9..][|r.key|..|r.key| + |r.value|] == r.value;
  }

  /** A decoded record comes from its own layout and no other bytes. */
  lemma EncodeDecode(s: Bytes)
    requires Decode(s).res.Ok?
    ensures var d := Decode(s);
            d.res.value.key != [] && |d.res.value.key| <= MAX_UINT32 && |d.res.value.value| <= MAX_UINT32
            && s[..d.used] == Layout(d.res.value)
            && (Valid(d.res.value) <==> d.res.value.typ == TYPE_PUT || d.res.value.value == [])
  {
    FromBigEndianInjective(s[1..5]);
    FromBigEndianInjective(s[5..9]);
  }

  /** A tail whose header is whole stays torn, and the record stays unread, until all its missing bytes have arrived. */
  lemma TornStaysTorn(r: Record, n: nat, later: Bytes)
    requires Valid(r) && HEADER_SIZE <= n < |Layout(r)| && n + |later| < |Layout(r)|
    ensures Decode(Layout(r)[..n] + later).res == Err(ErrIncompleteRecord)
  {
    var t := Layout(r)[..n] + later;
    LayoutHeader(r, []);
    assert Layout(r) + [] == Layout(r);
    assert t[0] == Layout(r)[0] && t[1..5] == Layout(r)[1..5] && t[5..9] == Layout(r)[5..9];
    BigEndianRoundTrip(|r.key|);
    BigEndianRoundTrip(|r.value|);
  }

  /** A torn record is reported as incomplete and as nothing else. */
  lemma TornRecord(r: Record, n: nat)
    requires Valid(r) && 0 < n < |Layout(r)|
    ensures Decode(Layout(r)[..n]).res == Err(ErrIncompleteRecord)
  {
    if n >= HEADER_SIZE {
      TornStaysTorn(r, n, []);
      assert Layout(r)[..n] + [] == Layout(r)[..n];
    }
  }

  /** copy(buf[offset:], src) and the header stores, on a freshly made buffer. */
  method Copy(buf: array<byte>, offset: nat, src: Bytes)
    requires offset + |src| <= buf.Length
    modifies buf
    ensures buf[offset..offset + |src|] == src
    ensures buf[..offset] == old(buf[..offset])
    ensures buf[offset + |src|..] == old(buf[offset + |src|..])
  {
    for i := 0 to |src|
      invariant buf[offset..offset + i] == src[..i]
      invariant buf[..offset] == old(buf[..offset])
      invariant buf[offset + |src|..] == old(buf[offset + |src|..])
    {
      buf[offset + i] := src[i];
      assert buf[offset..offset + i + 1] == buf[offset..offset + i] + [src[i]];
      assert src[..i + 1] == src[..i] + [src[i]];
    }
    assert src[..|src|] == src;
  }

  /** Encode: check, then fill the buffer through a moving offset. */
  method Encode(r: Record) returns (res: Result<Bytes>)
    ensures res == match CheckEncodePara(r)
                   case Some(e) => Err(e)
                   case None => Ok(Layout(r))
    ensures res.Ok? ==> Valid(r) && Fields(r, res.value)
  {
    var check := CheckEncodePara(r);
    if check.Some? {
      return Err(check.value);
    }
    var buf := new byte[HEADER_SIZE + |r.key| + |r.value|](_ => 0);
    var offset := 0;
    buf[offset] := r.typ;
    offset := offset + 1;
    Copy(buf, offset, BigEndian(|r.key|));
    offset := offset + 4;
    assert buf[..offset] == [r.typ] + BigEndian(|r.key|);
    Copy(buf, offset, BigEndian(|r.value|));
    offset := offset + 4;
    assert buf[..offset] == [r.typ] + BigEndian(|r.key|) + BigEndian(|r.value|);
    Copy(buf, offset, r.key);
    offset := offset + |r.key|;
    assert buf[..offset] == [r.typ] + BigEndian(|r.key|) + BigEndian(|r.value|) + r.key;
    Copy(buf, offset, r.value);
    assert buf[..] == buf[..offset] + r.value;
    res := Ok(buf[..]);
    LayoutFields(r, buf[..]);
  }

  /** A byte stream with a read position (io.Reader over a file or a section of it). */
  class Reader {
    const data: Bytes
    var pos: nat

    ghost predicate InBounds()
      reads this
    {
      pos <= |data|
    }

    ghost function Rest(): Bytes
      requires InBounds()
      reads this
    {
      data[pos..]
    }

    constructor (data: Bytes)
      ensures InBounds() && this.data == data && pos == 0 && Rest() == data
    {
      this.data, pos := data, 0;
    }

    /** io.ReadFull: fill n bytes, or take what is left and report the shortage. */
    method ReadFull(n: nat) returns (buf: Bytes, ok: bool)
      requires InBounds()
      modifies this`pos
      ensures InBounds()
      ensures ok <==> n <= |old(Rest())|
      ensures buf == if ok then old(Rest())[..n] else old(Rest())
      ensures Rest() == old(Rest())[|buf|..]
    {
      ok := n <= |data| - pos;
      var m := if ok then n else |data| - pos;
      buf := data[pos..pos + m];
      pos := pos + m;
    }
  }

  /** Decode reads its record in three pieces. */
  lemma DecodePieces(s: Bytes)
    requires |s| >= HEADER_SIZE && (s[0] == TYPE_PUT || s[0] == TYPE_DELETE) && FromBigEndian(s[1..5]) > 0
    ensures var body, keySize, valueSize := s[HEADER_SIZE..], FromBigEndian(s[1..5]), FromBigEndian(s[5..9]);
            if |body| < keySize || |body[keySize..]| < valueSize
            then Decode(s) == Decoded(Err(ErrIncompleteRecord), |s|)
            else Decode(s) == Decoded(Ok(Record(s[0], body[..keySize], body[keySize..][..valueSize])),
                                      HEADER_SIZE + keySize + valueSize)
  {
    var k, v := FromBigEndian(s[1..5]), FromBigEndian(s[5..9]);
    if |s| >= HEADER_SIZE + k + v {
      assert s[9..][..k] == s[9..9 + k] && s[9..][k..][..v] == s[9 + k..9 + k + v];
    }
  }

  /** Decode: read the header, check it, read the key, read the value. */
  method DecodeFrom(r: Reader) returns (res: Result<Record>)
    requires r.InBounds()
    modifies r`pos
    ensures r.InBounds()
    ensures res == Decode(old(r.Rest())).res
    ensures r.Rest() == old(r.Rest())[Decode(old(r.Rest())).used..]
  {
    ghost var s := r.Rest();
    var header, ok := r.ReadFull(HEADER_SIZE);
    if !ok {
      return Err(if |header| == 0 then EOF else ErrIncompleteRecord);
    }
    var keySize := FromBigEndian(header[1..5]);
    var valueSize := FromBigEndian(header[5..9]);
    assert header[0] == s[0] && header[1..5] == s[1..5] && header[5..9] == s[5..9];
    if header[0] != TYPE_PUT && header[0] != TYPE_DELETE {
      return Err(ErrInvalidType);
    } else if keySize == 0 {
      return Err(ErrEmptyKey);
    }
    DecodePieces(s);
    res := DecodeBody(r, header[0], keySize, valueSize);
  }

  /** The second half of Decode: the key and the value, whose sizes the header gave. */
  method DecodeBody(r: Reader, typ: byte, keySize: nat, valueSize: nat) returns (res: Result<Record>)
    requires r.InBounds()
    modifies r`pos
    ensures r.InBounds()
    ensures var body := old(r.Rest());
            if |body| < keySize || |body[keySize..]| < valueSize then res == Err(ErrIncompleteRecord) && r.Rest() == []
            else
              && res == Ok(Record(typ, body[..keySize], body[keySize..][..valueSize]))
              && r.Rest() == body[keySize..][valueSize..]
  {
    var key, keyOk := r.ReadFull(keySize);
    if !keyOk {
      return Err(ErrIncompleteRecord);
    }
    var value, valueOk := r.ReadFull(valueSize);
    if !valueOk {
      return Err(ErrIncompleteRecord);
    }
    res := Ok(Record(typ, key, value));
  }
}
