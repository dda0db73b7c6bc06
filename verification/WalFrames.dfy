/** How a log segment holds records: each one is its JSON text behind a four-byte length. */
module WalFrames {

  type byte = x: int | 0 <= x < 0x100

  type Bytes = seq<byte>

  import opened SegmentNames

  datatype Error = TornLength | TornData | BadRecord | Corrupted | Closed

  datatype Result<T> = Ok(value: T) | Err(error: Error)

  /** The command and the timestamp stay one byte string; only what the log itself sets is apart. */
  datatype Record = Record(index: nat, term: nat, command: Bytes, checksum: nat)

  /** The JSON library and the checksum library. */
  datatype Codec = Codec(marshal: Record -> Bytes, unmarshal: Bytes -> Option<Record>, sum: Bytes -> nat)

  ghost predicate RoundTrips(codec: Codec) {
    forall r :: codec.unmarshal(codec.marshal(r)) == Some(r)
  }

  const WORD: nat := 0x1_0000_0000

  // ---------------------------------------------------------------- lengths

  function BigEndian(n: nat, width: nat): (b: Bytes)
    ensures |b| == width
    decreases width, n
  {
    if width == 0 then [] else BigEndian(n / 0x100, width - 1) + [n % 0x100]
  }

  function FromBigEndian(b: Bytes): nat {
    if |b| == 0 then 0 else 0x100 * FromBigEndian(b[..|b| - 1]) + b[|b| - 1]
  }

  function Power256(width: nat): nat {
    if width == 0 then 1 else 0x100 * Power256(width - 1)
  }

  /** The four shifts of the writer, and the shifts and ors of the reader. */
  lemma FourBytes(n: nat, a: byte, b: byte, c: byte, d: byte)
    ensures BigEndian(n, 4) == [n / 0x100_0000 % 0x100, n / 0x1_0000 % 0x100, n / 0x100 % 0x100, n % 0x100]
    ensures FromBigEndian([a, b, c, d]) == a * 0x100_0000 + b * 0x1_0000 + c * 0x100 + d
  {
    var n1 := n / 0x100;
    var n2 := n1 / 0x100;
    var n3 := n2 / 0x100;
    DivisionsNest(n);
    assert BigEndian(n3, 1) == BigEndian(n3 / 0x100, 0) + [n3 % 0x100];
    assert BigEndian(n2, 2) == BigEndian(n3, 1) + [n2 % 0x100];
    assert BigEndian(n1, 3) == BigEndian(n2, 2) + [n1 % 0x100];
    assert BigEndian(n, 4) == BigEndian(n1, 3) + [n % 0x100];
    assert [a, b, c, d][..3] == [a, b, c] && [a, b, c][..2] == [a, b] && [a, b][..1] == [a] && [a][..0] == [];
    assert FromBigEndian([a]) == 0x100 * FromBigEndian([]) + a;
    assert FromBigEndian([a, b]) == 0x100 * FromBigEndian([a]) + b;
    assert FromBigEndian([a, b, c]) == 0x100 * FromBigEndian([a, b]) + c;
  }

  lemma DivisionsNest(n: nat)
    ensures n / 0x1_0000 == n / 0x100 / 0x100 && n / 0x100_0000 == n / 0x1_0000 / 0x100
  {
  }

  lemma {:induction false} BigEndianReadsBack(n: nat, width: nat)
    requires n < Power256(width)
    ensures FromBigEndian(BigEndian(n, width)) == n
    decreases width
  {
    if width > 0 {
      BigEndianReadsBack(n / 0x100, width - 1);
      assert BigEndian(n, width)[..width - 1] == BigEndian(n / 0x100, width - 1);
    }
  }

  lemma WordIsFourBytes()
    ensures Power256(4) == WORD
  {
    assert Power256(2) == 0x1_0000;
  }

  /** The reader's shifts and ors undo the writer's. */
  lemma LengthReadsBack(n: nat)
    requires n < WORD
    ensures FromBigEndian(BigEndian(n, 4)) == n
  {
    WordIsFourBytes();
    BigEndianReadsBack(n, 4);
  }

  // ---------------------------------------------------------------- records

  function Sum(codec: Codec, r: Record): nat {
    codec.sum(codec.marshal(r.(checksum := 0)))
  }

  predicate Sealed(codec: Codec, r: Record) {
    r.checksum == Sum(codec, r)
  }

  function Seal(codec: Codec, index: nat, term: nat, command: Bytes): (r: Record)
    ensures Sealed(codec, r) && r.index == index && r.term == term && r.command == command
  {
    var bare := Record(index, term, command, 0);
    bare.(checksum := Sum(codec, bare))
  }

  /** The length is cut to 32 bits. */
  function Frame(data: Bytes): (f: Bytes)
    ensures |f| == 4 + |data|
  {
    BigEndian(|data| % WORD, 4) + data
  }

  function Frames(codec: Codec, rs: seq<Record>): Bytes {
    if |rs| == 0 then [] else Frame(codec.marshal(rs[0])) + Frames(codec, rs[1..])
  }

  predicate Fits(codec: Codec, r: Record) {
    |codec.marshal(r)| < WORD
  }

  predicate Good(codec: Codec, rs: seq<Record>) {
    forall i :: 0 <= i < |rs| ==> Sealed(codec, rs[i]) && Fits(codec, rs[i])
  }

  function Unmarshal(codec: Codec, data: Bytes): Result<Record> {
    match codec.unmarshal(data)
    case None => Err(BadRecord)
    case Some(r) => if Sealed(codec, r) then Ok(r) else Err(Corrupted)
  }

  function Prepend(r: Record, rest: Result<seq<Record>>): Result<seq<Record>> {
    match rest
    case Ok(rs) => Ok([r] + rs)
    case Err(e) => Err(e)
  }

  /** The first record of the bytes, and how many bytes it takes. */
  function ReadRecord(codec: Codec, bytes: Bytes): (result: Result<(Record, nat)>)
    requires |bytes| > 0
    ensures result.Ok? ==> 4 <= result.value.1 <= |bytes|
  {
    if |bytes| < 4 then Err(TornLength)
    else
      var length := FromBigEndian(bytes[..4]);
      if |bytes| < 4 + length then Err(TornData)
      else
        Sized(Unmarshal(codec, bytes[4..4 + length]), 4 + length)
  }

  function ReadSegment(codec: Codec, bytes: Bytes): Result<seq<Record>>
    decreases |bytes|
  {
    if |bytes| == 0 then Ok([])
    else
      match ReadRecord(codec, bytes)
      case Err(e) => Err(e)
      case Ok(first) => Prepend(first.0, ReadSegment(codec, bytes[first.1..]))
  }

  // ---------------------------------------------------------------- what is written is read back

  lemma FrameParts(data: Bytes, rest: Bytes)
    ensures var bytes := Frame(data) + rest;
      bytes[..4] == BigEndian(|data| % WORD, 4) && bytes[4..4 + |data|] == data && bytes[4 + |data|..] == rest
  {
  }

  function Sized(decoded: Result<Record>, size: nat): Result<(Record, nat)> {
    match decoded
    case Ok(r) => Ok((r, size))
    case Err(e) => Err(e)
  }

  lemma FirstFrame(codec: Codec, data: Bytes, rest: Bytes)
    requires |data| < WORD
    ensures ReadRecord(codec, Frame(data) + rest) == Sized(Unmarshal(codec, data), 4 + |data|)
  {
    var bytes := Frame(data) + rest;
    FrameParts(data, rest);
    assert FromBigEndian(bytes[..4]) == |data| by { LengthReadsBack(|data|); }
    assert |bytes| >= 4 + |data|;
  }

  lemma FirstRecord(codec: Codec, r: Record, rest: Bytes)
    requires RoundTrips(codec) && Sealed(codec, r) && Fits(codec, r)
    ensures ReadRecord(codec, Frame(codec.marshal(r)) + rest) == Ok((r, |Frame(codec.marshal(r))|))
  {
    FirstFrame(codec, codec.marshal(r), rest);
    assert codec.unmarshal(codec.marshal(r)) == Some(r);
  }

  lemma ReadOne(codec: Codec, r: Record, rest: Bytes)
    requires RoundTrips(codec) && Sealed(codec, r) && Fits(codec, r)
    ensures ReadSegment(codec, Frame(codec.marshal(r)) + rest) == Prepend(r, ReadSegment(codec, rest))
  {
    FirstRecord(codec, r, rest);
    FrameParts(codec.marshal(r), rest);
  }

  lemma {:induction false} SegmentReadsBack(codec: Codec, rs: seq<Record>)
    requires RoundTrips(codec) && Good(codec, rs)
    ensures ReadSegment(codec, Frames(codec, rs)) == Ok(rs)
  {
    if |rs| > 0 {
      ReadOne(codec, rs[0], Frames(codec, rs[1..]));
      SegmentReadsBack(codec, rs[1..]);
      assert [rs[0]] + rs[1..] == rs;
    }
  }

  lemma {:induction false} FramesConcat(codec: Codec, a: seq<Record>, b: seq<Record>)
    ensures Frames(codec, a + b) == Frames(codec, a) + Frames(codec, b)
  {
    if |a| == 0 {
      assert a + b == b;
    } else {
      var all := a + b;
      assert all[0] == a[0] && all[1..] == a[1..] + b;
      FramesConcat(codec, a[1..], b);
      Associative(Frame(codec.marshal(a[0])), Frames(codec, a[1..]), Frames(codec, b));
    }
  }

  lemma Associative<T>(a: seq<T>, b: seq<T>, c: seq<T>)
    ensures a + b + c == a + (b + c)
  {
  }

  /** A record alone in a segment is read back exactly when its length fits the prefix. */
  lemma FrameReadsBackExactlyWhen(codec: Codec, r: Record)
    requires RoundTrips(codec) && Sealed(codec, r)
    ensures ReadSegment(codec, Frame(codec.marshal(r))) == Ok([r]) <==> |codec.marshal(r)| < WORD
  {
    var data := codec.marshal(r);
    var bytes := Frame(data);
    if |data| < WORD {
      ReadOne(codec, r, []);
      assert bytes + [] == bytes && [r] + [] == [r];
    } else {
      LengthReadsBack(|data| % WORD);
      assert bytes[..4] == BigEndian(|data| % WORD, 4);
    }
  }

  // ---------------------------------------------------------------- damaged segments

  /** A cut inside the first record is noticed. */
  lemma CutInside(codec: Codec, data: Bytes, rest: Bytes, k: nat)
    requires |data| < WORD && 0 < k < 4 + |data|
    ensures ReadSegment(codec, (Frame(data) + rest)[..k]) == Err(if k < 4 then TornLength else TornData)
  {
    var bytes := (Frame(data) + rest)[..k];
    if k >= 4 {
      LengthReadsBack(|data|);
      assert bytes[..4] == BigEndian(|data|, 4);
    }
  }

  /** Wherever a written segment is cut, reading gives exactly the whole records before the cut if
      the cut falls between records, and an error if it does not. */
  lemma {:induction false} TornTail(codec: Codec, rs: seq<Record>, k: nat)
    requires RoundTrips(codec) && Good(codec, rs) && k <= |Frames(codec, rs)|
    ensures ReadSegment(codec, Frames(codec, rs)[..k]).Ok?
       <==> exists j :: 0 <= j <= |rs| && |Frames(codec, rs[..j])| == k
    ensures forall j :: 0 <= j <= |rs| && |Frames(codec, rs[..j])| == k ==>
      ReadSegment(codec, Frames(codec, rs)[..k]) == Ok(rs[..j])
  {
    if ReadSegment(codec, Frames(codec, rs)[..k]).Ok? { TornTailExists(codec, rs, k); }
    forall j | 0 <= j <= |rs| && |Frames(codec, rs[..j])| == k
      ensures ReadSegment(codec, Frames(codec, rs)[..k]) == Ok(rs[..j])
    {
      CutBetween(codec, rs, j);
    }
  }

  lemma CutBetween(codec: Codec, rs: seq<Record>, j: nat)
    requires RoundTrips(codec) && Good(codec, rs) && j <= |rs|
    ensures |Frames(codec, rs[..j])| <= |Frames(codec, rs)|
    ensures ReadSegment(codec, Frames(codec, rs)[..|Frames(codec, rs[..j])|]) == Ok(rs[..j])
  {
    FramesConcat(codec, rs[..j], rs[j..]);
    assert rs == rs[..j] + rs[j..];
    assert Frames(codec, rs)[..|Frames(codec, rs[..j])|] == Frames(codec, rs[..j]);
    SegmentReadsBack(codec, rs[..j]);
  }

  lemma {:induction false} TornTailExists(codec: Codec, rs: seq<Record>, k: nat)
    requires RoundTrips(codec) && Good(codec, rs) && k <= |Frames(codec, rs)|
    requires ReadSegment(codec, Frames(codec, rs)[..k]).Ok?
    ensures exists j :: 0 <= j <= |rs| && |Frames(codec, rs[..j])| == k
  {
    if k == 0 {
      assert rs[..0] == [];
      assert |Frames(codec, rs[..0])| == k;
    } else {
      var head := Frame(codec.marshal(rs[0]));
      var rest := Frames(codec, rs[1..]);
      if k < |head| {
        CutInside(codec, codec.marshal(rs[0]), rest, k);
      } else {
        assert Frames(codec, rs)[..k] == head + rest[..k - |head|];
        ReadOne(codec, rs[0], rest[..k - |head|]);
        TornTailExists(codec, rs[1..], k - |head|);
        var j: nat :| j <= |rs[1..]| && |Frames(codec, rs[1..][..j])| == k - |head|;
        assert rs[..j + 1][1..] == rs[1..][..j];
        assert |Frames(codec, rs[..j + 1])| == k;
      }
    }
  }

  ghost predicate DifferOnlyWithin(p: Bytes, q: Bytes, at: nat, width: nat) {
    |p| == |q| && at + width <= |p| && forall i :: 0 <= i < |p| && !(at <= i < at + width) ==> p[i] == q[i]
  }

  ghost predicate DetectsBursts(codec: Codec) {
    forall p, q, at, width {:trigger DifferOnlyWithin(p, q, at, width)} ::
      DifferOnlyWithin(p, q, at, width) && width <= 4 && codec.sum(p) == codec.sum(q) ==> p == q
  }

  /** Damage that leaves a record's length and checksum alone and turns its text, inside four
      consecutive bytes, into that of another record is reported, not read. */
  lemma BurstReported(codec: Codec, r: Record, damaged: Record, rest: Bytes, at: nat, width: nat)
    requires RoundTrips(codec) && DetectsBursts(codec) && Sealed(codec, r) && Fits(codec, damaged)
    requires damaged.checksum == r.checksum && damaged != r && width <= 4
    requires DifferOnlyWithin(codec.marshal(r.(checksum := 0)), codec.marshal(damaged.(checksum := 0)), at, width)
    ensures ReadSegment(codec, Frame(codec.marshal(damaged)) + rest) == Err(Corrupted)
  {
    var p, q := r.(checksum := 0), damaged.(checksum := 0);
    assert codec.unmarshal(codec.marshal(p)) == Some(p) && codec.unmarshal(codec.marshal(q)) == Some(q);
    assert !Sealed(codec, damaged);
    assert codec.unmarshal(codec.marshal(damaged)) == Some(damaged);
    FirstFrame(codec, codec.marshal(damaged), rest);
  }

  lemma {:induction false} ErrorBehind(codec: Codec, rs: seq<Record>, bytes: Bytes, e: Error)
    requires RoundTrips(codec) && Good(codec, rs) && ReadSegment(codec, bytes) == Err(e)
    ensures ReadSegment(codec, Frames(codec, rs) + bytes) == Err(e)
  {
    if |rs| == 0 {
      assert Frames(codec, rs) + bytes == bytes;
    } else {
      ErrorBehind(codec, rs[1..], bytes, e);
      Associative(Frame(codec.marshal(rs[0])), Frames(codec, rs[1..]), bytes);
      ReadOne(codec, rs[0], Frames(codec, rs[1..]) + bytes);
    }
  }

  /** Behind any whole records, a frame whose text is no record, or one whose checksum is not its own, ends
      the reading with the error that says which, whatever follows. */
  lemma BadFrameReported(codec: Codec, rs: seq<Record>, data: Bytes, rest: Bytes)
    requires RoundTrips(codec) && Good(codec, rs) && |data| < WORD
    ensures codec.unmarshal(data) == None ==>
      ReadSegment(codec, Frames(codec, rs) + (Frame(data) + rest)) == Err(BadRecord)
    ensures codec.unmarshal(data).Some? ==>
      var r := codec.unmarshal(data).value;
      r.checksum != codec.sum(codec.marshal(r.(checksum := 0))) ==>
        ReadSegment(codec, Frames(codec, rs) + (Frame(data) + rest)) == Err(Corrupted)
  {
    FirstFrame(codec, data, rest);
    if ReadSegment(codec, Frame(data) + rest).Err? {
      ErrorBehind(codec, rs, Frame(data) + rest, ReadSegment(codec, Frame(data) + rest).error);
    }
  }

  // ---------------------------------------------------------------- the reading loop

  /** One turn of the loop of readSegment, with data left. */
  method ReadNext(codec: Codec, left: Bytes) returns (result: Result<(Record, nat)>)
    requires |left| > 0
    ensures result == ReadRecord(codec, left)
  {
    if |left| < 4 { return Err(TornLength); }
    var length := FromBigEndian(left[..4]);
    if |left| < 4 + length { return Err(TornData); }
    var decoded := codec.unmarshal(left[4..4 + length]);
    if !decoded.Some? { return Err(BadRecord); }
    var record := decoded.value;
    var checksum := record.checksum;
    var actual := codec.sum(codec.marshal(record.(checksum := 0)));
    if actual != checksum { return Err(Corrupted); }
    return Ok((record, 4 + length));
  }

  /** The loop of readSegment over an open file. */
  method ReadFile(codec: Codec, bytes: Bytes) returns (result: Result<seq<Record>>)
    ensures result == ReadSegment(codec, bytes)
  {
    var records: seq<Record> := [];
    var at := 0;
    OntoNone(ReadSegment(codec, bytes));
    assert bytes[0..] == bytes;
    while at < |bytes|
      invariant 0 <= at <= |bytes|
      invariant ReadSegment(codec, bytes) == Onto(records, ReadSegment(codec, bytes[at..]))
    {
      var next := ReadNext(codec, bytes[at..]);
      if next.Err? { return Err(next.error); }
      var (record, size) := next.value;
      assert bytes[at..][size..] == bytes[at + size..];
      OntoOne(records, record, ReadSegment(codec, bytes[at + size..]));
      records := records + [record];
      at := at + size;
    }
    assert bytes[at..] == [] && records + [] == records;
    return Ok(records);
  }

  function Onto(records: seq<Record>, rest: Result<seq<Record>>): Result<seq<Record>> {
    match rest
    case Ok(rs) => Ok(records + rs)
    case Err(e) => Err(e)
  }

  lemma OntoNone(rest: Result<seq<Record>>)
    ensures Onto([], rest) == rest
  {
    if rest.Ok? { assert [] + rest.value == rest.value; }
  }

  lemma OntoAssociates(a: seq<Record>, b: seq<Record>, rest: Result<seq<Record>>)
    ensures Onto(a, Onto(b, rest)) == Onto(a + b, rest)
  {
    if rest.Ok? { Associative(a, b, rest.value); }
  }

  lemma OntoOne(records: seq<Record>, r: Record, rest: Result<seq<Record>>)
    ensures Onto(records, Prepend(r, rest)) == Onto(records + [r], rest)
  {
    if rest.Ok? { assert records + ([r] + rest.value) == records + [r] + rest.value; }
  }
}
