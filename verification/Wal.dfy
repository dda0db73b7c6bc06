/** The write-ahead log object, tied call by call to the steps of `WalStore`. */
module Wal {
  import opened SegmentNames
  import opened WalFrames
  import W = WalStore

  /** The directory's files stay in the object, standing for the disk. */
  class Log {
    const codec: Codec
    const maxSize: int
    var files: seq<W.File>
    var at: nat
    var index: nat
    var term: nat
    var fileSize: nat
    var closed: bool

    ghost predicate Valid()
      reads this
    {
      at < |files|
    }

    ghost function State(): W.Store
      reads this
    {
      W.Store(files, at, index, term, fileSize, maxSize)
    }

    /** Loads the latest segment of the directory, or starts the first one. */
    constructor (codec: Codec, onDisk: seq<W.File>, maxSize: int)
      ensures Valid() && !closed && this.codec == codec && this.maxSize == maxSize
      ensures State() == W.Open(onDisk, maxSize)
    {
      this.codec := codec;
      this.maxSize := maxSize;
      var latest := Latest(onDisk);
      if latest < 0 {
        var name := Name(0, 0);
        files := W.OpenAppend(onDisk, name);
        at := W.Place(onDisk, name);
        index, term, fileSize := 0, 0, 0;
      } else {
        files, at := onDisk, latest;
        index, term := ParseName(onDisk[latest].name).value.0, ParseName(onDisk[latest].name).value.1;
        fileSize := |onDisk[latest].bytes|;
      }
      closed := false;
    }

    /** Names that do not parse are skipped. */
    static method Latest(onDisk: seq<W.File>) returns (latest: int)
      ensures latest == W.LastListed(onDisk)
    {
      latest := -1;
      for i := 0 to |onDisk|
        invariant latest == W.LastListed(onDisk[..i])
      {
        assert onDisk[..i + 1][..i] == onDisk[..i];
        if ParseName(onDisk[i].name).Some? { latest := i; }
      }
      assert onDisk[..|onDisk|] == onDisk;
    }

    method CreateSegment(index: nat, term: nat)
      modifies this
      ensures Valid() && closed == old(closed)
      ensures State() == W.CreateSegment(old(State()), index, term)
    {
      var name := Name(index, term);
      OpenFile(name);
      this.index, this.term, fileSize := index, term, 0;
    }

    /** Opens a file to append to, creating it if there is none of that name. */
    method OpenFile(name: string)
      modifies this`files, this`at
      ensures Valid()
      ensures files == W.OpenAppend(old(files), name) && at == W.Place(old(files), name)
      ensures W.Listed(old(files)) ==> W.OpenedByName(old(files), name, at, files)
    {
      at := W.Place(files, name);
      files := W.OpenAppend(files, name);
      if W.Listed(old(files)) { W.OpenAppendMeans(old(files), name); }
    }

    method WriteRecord(data: Bytes)
      requires Valid()
      modifies this
      ensures Valid() && closed == old(closed)
      ensures State() == W.WriteRecord(old(State()), data)
    {
      if fileSize + |data| > maxSize {
        CreateSegment(index, term);
      }
      WriteFrame(data);
    }

    method WriteFrame(data: Bytes)
      requires Valid()
      modifies this`files, this`fileSize
      ensures State() == W.WriteFrame(old(State()), data)
    {
      var length := BigEndian(|data| % WORD, 4);
      WriteBytes(length);
      WriteBytes(data);
      fileSize := fileSize + (4 + |data|);
      Associative(old(files[at].bytes), length, data);
    }

    method WriteBytes(data: Bytes)
      requires Valid()
      modifies this`files
      ensures files == old(files)[at := W.File(old(files)[at].name, old(files)[at].bytes + data)]
    {
      files := files[at := files[at].(bytes := files[at].bytes + data)];
    }

    method Append(command: Bytes) returns (result: Result<Record>)
      requires Valid()
      modifies this
      ensures Valid() && closed == old(closed)
      ensures closed ==> result == Err(Closed) && State() == old(State())
      ensures !closed ==> result == Ok(W.Next(codec, old(State()), command))
      ensures !closed ==> State() == W.Append(codec, old(State()), command)
    {
      if closed { return Err(Closed); }
      var record := Record(index + 1, term, command, 0);
      var checksum := codec.sum(codec.marshal(record));
      record := record.(checksum := checksum);
      WriteRecord(codec.marshal(record));
      index := index + 1;
      return Ok(record);
    }

    method SetTerm(term: nat) returns (result: Result<()>)
      requires Valid()
      modifies this
      ensures Valid() && closed == old(closed)
      ensures closed ==> result == Err(Closed) && State() == old(State())
      ensures !closed ==> result == Ok(()) && State() == W.SetTerm(old(State()), term)
    {
      if closed { return Err(Closed); }
      if this.term != term {
        CreateSegment(index, term);
      }
      return Ok(());
    }

    method ReadAll() returns (result: Result<seq<Record>>)
      requires Valid()
      ensures closed ==> result == Err(Closed)
      ensures !closed ==> result == W.ReadFiles(codec, files)
    {
      if closed { return Err(Closed); }
      var records: seq<Record> := [];
      OntoNone(W.ReadFiles(codec, files));
      assert files[0..] == files;
      for i := 0 to |files|
        invariant W.ReadFiles(codec, files) == Onto(records, W.ReadFiles(codec, files[i..]))
      {
        assert files[i..][1..] == files[i + 1..];
        if ParseName(files[i].name).Some? {
          var more := ReadFile(codec, files[i].bytes);
          if more.Err? { return Err(more.error); }
          OntoAssociates(records, more.value, W.ReadFiles(codec, files[i + 1..]));
          records := records + more.value;
        }
      }
      assert files[|files|..] == [] && records + [] == records;
      return Ok(records);
    }

    method Close()
      requires Valid()
      modifies this
      ensures Valid() && closed && State() == old(State())
    {
      closed := true;
    }
  }
}
