/** When the log leaves a segment for a new one, and how large segments get. */
module WalRotation {
  import opened Strings
  import opened WalFrames
  import opened SegmentNames
  import opened WalStore
  import opened WalRuns

  // ---------------------------------------------------------------- the bookkeeping of sizes

  /** The bytes are the frames of at most one record, or fit the limit but for one length prefix. */
  ghost predicate WithinLimit(codec: Codec, bytes: Bytes, maxSize: int) {
    exists rs: seq<Record> :: HoldsWithin(codec, bytes, maxSize, rs)
  }

  predicate HoldsWithin(codec: Codec, bytes: Bytes, maxSize: int, rs: seq<Record>) {
    bytes == Frames(codec, rs) && (|rs| > 1 ==> |bytes| - 4 <= maxSize)
  }

  /** The segment was started before the log reached this index. */
  predicate StartedBefore(file: File, index: nat) {
    ParseName(file.name).Some? && ParseName(file.name).value.0 < index
  }

  /** The log gave the file its name. */
  predicate Named(file: File) {
    ParseName(file.name).Some? && file.name == Name(ParseName(file.name).value.0, ParseName(file.name).value.1)
  }

  ghost predicate FileOk(codec: Codec, file: File, index: nat, maxSize: int) {
    && Named(file) && WithinLimit(codec, file.bytes, maxSize)
    && (file.bytes != [] ==> StartedBefore(file, index))
  }

  /** fileSize is the length of the open file, and any file of the present index is still empty. */
  ghost predicate Measured(codec: Codec, s: Store) {
    && s.HasOpenFile() && Listed(s.files)
    && StartedBefore(s.files[s.at], s.index + 1)
    && s.fileSize == |s.files[s.at].bytes|
    && (forall file {:trigger file in s.files} :: file in s.files ==> FileOk(codec, file, s.index, s.maxSize))
  }

  lemma NamedFileIsEmpty(codec: Codec, s: Store, file: File, term: nat)
    requires Measured(codec, s) && file in s.files && file.name == Name(s.index, term)
    ensures file.bytes == []
  {
    NameReadsBack(s.index, term);
  }

  /** A segment of the present index, new or found, starts out empty. */
  lemma CreateMeasured(codec: Codec, s: Store, term: nat)
    requires Measured(codec, s)
    ensures var t := CreateSegment(s, s.index, term);
      && Measured(codec, t) && t.files[t.at] == File(Name(s.index, term), [])
      && t.files == (if HasName(s.files, t.files[t.at].name) then s.files
                     else s.files[..t.at] + [t.files[t.at]] + s.files[t.at..])
  {
    var name := Name(s.index, term);
    var t := CreateSegment(s, s.index, term);
    OpenAppendMeans(s.files, name);
    NameReadsBack(s.index, term);
    if HasName(s.files, name) {
      assert t.files[t.at] in s.files;
      NamedFileIsEmpty(codec, s, t.files[t.at], term);
    } else {
      NoFrames(codec, s.maxSize);
      InsertedFiles(s.files, t.at, File(name, []));
    }
  }

  lemma NoFrames(codec: Codec, maxSize: int)
    ensures WithinLimit(codec, [], maxSize)
  {
    assert HoldsWithin(codec, [], maxSize, []);
  }

  lemma InsertedFiles(files: seq<File>, p: nat, more: File)
    requires p <= |files|
    ensures forall file :: file in files[..p] + [more] + files[p..] <==> file in files || file == more
  {
    assert files == files[..p] + files[p..];
  }

  // ---------------------------------------------------------------- writing

  lemma GrownWithin(codec: Codec, bytes: Bytes, r: Record, maxSize: int)
    requires WithinLimit(codec, bytes, maxSize)
    requires bytes == [] || |bytes| + |codec.marshal(r)| <= maxSize
    ensures WithinLimit(codec, bytes + Frame(codec.marshal(r)), maxSize)
  {
    var more := bytes + Frame(codec.marshal(r));
    OneFrame(codec, r);
    if bytes == [] {
      assert more == Frame(codec.marshal(r));
      assert HoldsWithin(codec, more, maxSize, [r]);
    } else {
      var rs: seq<Record> :| HoldsWithin(codec, bytes, maxSize, rs);
      FramesConcat(codec, rs, [r]);
      assert HoldsWithin(codec, more, maxSize, rs + [r]);
    }
  }

  lemma SameNamesListed(files: seq<File>, p: nat, bytes: Bytes)
    requires Listed(files) && p < |files|
    ensures Listed(files[p := files[p].(bytes := bytes)])
  {
    var more := files[p := files[p].(bytes := bytes)];
    forall i, j | 0 <= i < j < |more| ensures Less(more[i].name, more[j].name) {
      assert Less(files[i].name, files[j].name);
    }
  }

  lemma WrittenFileOk(codec: Codec, file: File, r: Record, index: nat, maxSize: int)
    requires FileOk(codec, file, index, maxSize) && StartedBefore(file, index + 1)
    requires file.bytes == [] || |file.bytes| + |codec.marshal(r)| <= maxSize
    ensures FileOk(codec, file.(bytes := file.bytes + Frame(codec.marshal(r))), index + 1, maxSize)
  {
    GrownWithin(codec, file.bytes, r, maxSize);
  }

  /** Writing a frame that fits, or to an empty file, and counting the index up. */
  lemma WriteMeasured(codec: Codec, s: Store, r: Record)
    requires Measured(codec, s)
    requires s.files[s.at].bytes == [] || |s.files[s.at].bytes| + |codec.marshal(r)| <= s.maxSize
    ensures Measured(codec, WriteFrame(s, codec.marshal(r)).(index := s.index + 1))
  {
    var t, file := WriteFrame(s, codec.marshal(r)).(index := s.index + 1), s.files[s.at];
    assert file in s.files;
    SameNamesListed(s.files, s.at, file.bytes + Frame(codec.marshal(r)));
    WrittenFileOk(codec, file, r, s.index, s.maxSize);
    forall other | other in t.files ensures FileOk(codec, other, t.index, t.maxSize) {
      if other != t.files[s.at] { assert other in s.files; }
    }
  }

  /** The open file is too full for the payload; the length prefix is left out of account. */
  predicate Full(codec: Codec, s: Store, command: Bytes)
    requires s.HasOpenFile()
  {
    |s.files[s.at].bytes| + |codec.marshal(Next(codec, s, command))| > s.maxSize
  }

  /** The file an append writes to, and the files around it. */
  ghost predicate WritesTo(s: Store, t: Store, at: nat, files: seq<File>, data: Bytes) {
    && at < |files| && t.at == at
    && t.files == files[at := files[at].(bytes := files[at].bytes + Frame(data))]
  }

  lemma AppendWithRoom(codec: Codec, s: Store, command: Bytes)
    requires Measured(codec, s) && !Full(codec, s, command)
    ensures var t, data := Append(codec, s, command), codec.marshal(Next(codec, s, command));
      && Measured(codec, t) && WritesTo(s, t, s.at, s.files, data)
  {
    WriteMeasured(codec, s, Next(codec, s, command));
  }

  lemma FirstInSegment(c: Store, data: Bytes)
    requires c.HasOpenFile() && c.files[c.at].bytes == []
    ensures WriteFrame(c, data).files == c.files[c.at := File(c.files[c.at].name, Frame(data))]
  {
    assert [] + Frame(data) == Frame(data);
  }

  lemma AppendWhenFull(codec: Codec, s: Store, command: Bytes)
    requires Measured(codec, s) && Full(codec, s, command)
    ensures var t, data := Append(codec, s, command), codec.marshal(Next(codec, s, command));
      var name := Name(s.index, s.term);
      && Measured(codec, t) && t.HasOpenFile() && t.files[t.at] == File(name, Frame(data))
      && (HasName(s.files, name) ==> WritesTo(s, t, t.at, s.files, data))
      && (!HasName(s.files, name) ==>
            t.at <= |s.files| && t.files == s.files[..t.at] + [File(name, Frame(data))] + s.files[t.at..])
  {
    var r, c := Next(codec, s, command), CreateSegment(s, s.index, s.term);
    CreateMeasured(codec, s, s.term);
    WriteMeasured(codec, c, r);
    AppendsToNext(codec, s, command);
    FirstInSegment(c, codec.marshal(r));
    if !HasName(s.files, Name(s.index, s.term)) {
      InsertedThenWritten(s.files, c.at, c.files[c.at], File(Name(s.index, s.term), Frame(codec.marshal(r))));
    }
  }

  lemma AppendsToNext(codec: Codec, s: Store, command: Bytes)
    requires s.HasOpenFile() && s.fileSize == |s.files[s.at].bytes| && Full(codec, s, command)
    ensures var data, c := codec.marshal(Next(codec, s, command)), CreateSegment(s, s.index, s.term);
      Append(codec, s, command) == WriteFrame(c, data).(index := s.index + 1)
  {
  }

  lemma InsertedThenWritten(files: seq<File>, p: nat, empty: File, written: File)
    requires p <= |files|
    ensures (files[..p] + [empty] + files[p..])[p := written] == files[..p] + [written] + files[p..]
  {
  }

  /** An append goes to the end of the open file if the payload fits there; otherwise to an empty segment
      named after the present index and term, which is a new file exactly if there is none of that name. */
  lemma AppendRotatesExactlyWhen(codec: Codec, s: Store, command: Bytes)
    requires Measured(codec, s)
    ensures var t, data := Append(codec, s, command), codec.marshal(Next(codec, s, command));
      var name := Name(s.index, s.term);
      && Measured(codec, t)
      && (|t.files| == |s.files| + 1 <==> Full(codec, s, command) && !HasName(s.files, name))
      && (!Full(codec, s, command) ==> WritesTo(s, t, s.at, s.files, data))
      && (Full(codec, s, command) ==> t.files[t.at] == File(name, Frame(data)))
      && (Full(codec, s, command) && HasName(s.files, name) ==> WritesTo(s, t, t.at, s.files, data))
  {
    if Full(codec, s, command) { AppendWhenFull(codec, s, command); } else { AppendWithRoom(codec, s, command); }
  }

  // ---------------------------------------------------------------- over every run without a restart

  lemma EmptyMeasured(codec: Codec, maxSize: int)
    ensures Measured(codec, Open([], maxSize))
  {
    NameReadsBack(0, 0);
    NoFrames(codec, maxSize);
    assert Open([], maxSize).files == [File(Name(0, 0), [])];
  }

  lemma {:induction false} RunMeasured(codec: Codec, s: Store, calls: seq<Call>)
    requires Measured(codec, s) && NoRestart(calls)
    ensures Measured(codec, Run(codec, s, calls)) && Run(codec, s, calls).maxSize == s.maxSize
    decreases |calls|
  {
    if |calls| > 0 {
      match calls[0] {
        case Write(command) => AppendRotatesExactlyWhen(codec, s, command);
        case NewTerm(term) => if s.term != term { CreateMeasured(codec, s, term); }
      }
      RunMeasured(codec, Perform(codec, s, calls[0]), calls[1..]);
    }
  }

  /** Over every run without a restart, whatever the terms: the size kept is the open file's, and a
      segment of more than one record exceeds the limit by no more than its last length prefix. */
  lemma SegmentsStayWithin(codec: Codec, maxSize: int, calls: seq<Call>)
    requires NoRestart(calls)
    ensures var s := Run(codec, Open([], maxSize), calls);
      && s.fileSize == |s.files[s.at].bytes|
      && forall file :: file in s.files ==> WithinLimit(codec, file.bytes, maxSize)
  {
    EmptyMeasured(codec, maxSize);
    RunMeasured(codec, Open([], maxSize), calls);
  }

  /** And an append adds a file exactly when the open one is too full and none has the new name. */
  lemma RunRotatesExactlyWhen(codec: Codec, maxSize: int, calls: seq<Call>, command: Bytes)
    requires NoRestart(calls)
    ensures var s := Run(codec, Open([], maxSize), calls);
      |Append(codec, s, command).files| == |s.files| + 1 <==>
        && |s.files[s.at].bytes| + |codec.marshal(Next(codec, s, command))| > maxSize
        && !HasName(s.files, Name(s.index, s.term))
  {
    EmptyMeasured(codec, maxSize);
    RunMeasured(codec, Open([], maxSize), calls);
    AppendRotatesExactlyWhen(codec, Run(codec, Open([], maxSize), calls), command);
  }

  // ---------------------------------------------------------------- after a restart

  lemma {:induction false} PlaceOfName(files: seq<File>, p: nat)
    requires Listed(files) && p < |files|
    ensures Place(files, files[p].name) == p
  {
    if p == 0 {
      LessIrreflexive(files[0].name);
    } else {
      assert Less(files[0].name, files[p].name) && files[1..][p - 1] == files[p];
      assert forall i :: 0 <= i < |files| - 1 ==> files[1..][i] == files[i + 1];
      PlaceOfName(files[1..], p - 1);
    }
  }

  /** A restart takes up the last segment at the index it started from, so its name is still the next
      one's: the first append never adds a file, and writes to that segment however full it is. The size
      kept is the file's afterwards exactly if there was room or nothing in it; otherwise it is that of the
      new frame alone, and the segment can grow by the limit once more. */
  lemma RestartReopens(codec: Codec, files: seq<File>, maxSize: int, command: Bytes)
    requires Listed(files) && LastListed(files) >= 0
    requires var (index, term) := ParseName(files[LastListed(files)].name).value;
      files[LastListed(files)].name == Name(index, term)
    ensures var s := Open(files, maxSize);
      var t, data := Append(codec, s, command), codec.marshal(Next(codec, s, command));
      && |t.files| == |files| && WritesTo(s, t, LastListed(files), files, data)
      && (t.fileSize == |t.files[t.at].bytes| <==> files[s.at].bytes == [] || |files[s.at].bytes| + |data| <= maxSize)
      && (t.fileSize != |t.files[t.at].bytes| ==> t.fileSize == |Frame(data)|)
  {
    PlaceOfName(files, LastListed(files));
  }

  /** After a restart that ends any such run, under any new limit: the first append writes to a segment
      that is already too full, and loses count of its size, exactly if that segment holds something and
      the payload does not fit. */
  lemma RestartLosesCountExactlyWhen(codec: Codec, maxSize: int, calls: seq<Call>, limit: int, command: Bytes)
    requires NoRestart(calls)
    ensures var s := Open(Run(codec, Open([], maxSize), calls).files, limit);
      var t, data := Append(codec, s, command), codec.marshal(Next(codec, s, command));
      && |t.files| == |s.files| && WritesTo(s, t, s.at, s.files, data)
      && (t.fileSize != |t.files[t.at].bytes| <==>
            s.files[s.at].bytes != [] && |s.files[s.at].bytes| + |data| > limit)
  {
    EmptyMeasured(codec, maxSize);
    RunMeasured(codec, Open([], maxSize), calls);
    var files := Run(codec, Open([], maxSize), calls).files;
    assert files[|files| - 1] in files;
    RestartReopens(codec, files, limit, command);
  }
}
