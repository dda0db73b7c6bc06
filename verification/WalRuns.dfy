/** Runs of the log: what is written is what is read back, in order, as long as names sort as the
    calls come. */
module WalRuns {
  import opened WalFrames
  import opened SegmentNames
  import opened WalStore

  // ---------------------------------------------------------------- opening a segment at the end

  /** The open segment holds one record for every index given out since it was started. */
  predicate Counted(segs: seq<Segment>, index: nat) {
    |segs| > 0 && segs[|segs| - 1].index + |segs[|segs| - 1].records| == index
  }

  /** Nothing comes after the last segment's numbers or anything above them. */
  lemma OpensAtEnd(segs: seq<Segment>, p: nat, index: nat, term: nat)
    requires InOrder(segs) && |segs| > 0 && p <= |segs|
    requires NoneBefore(segs, p, index, term)
    requires !After(index, term, segs[|segs| - 1])
    ensures |Opened(segs, p, index, term)| == p + 1
  {
    var last := |segs| - 1;
    assert p < last ==> Earlier(segs[p], segs[last]);
  }

  lemma OpenedCounted(segs: seq<Segment>, p: nat, index: nat, term: nat)
    requires p <= |segs| && |Opened(segs, p, index, term)| == p + 1 && Counted(segs, index)
    ensures Counted(Opened(segs, p, index, term), index)
  {
  }

  lemma CreateHealthy(codec: Codec, s: Store, segs: seq<Segment>, term: nat)
    requires Healthy(codec, s, segs) && s.term <= term && Printable(s.index) && Printable(term)
    ensures var more := Opened(segs, Place(s.files, Name(s.index, term)), s.index, term);
      && Healthy(codec, CreateSegment(s, s.index, term), more) && Records(more) == Records(segs)
      && (Counted(segs, s.index) ==> Counted(more, s.index))
  {
    var p := Place(s.files, Name(s.index, term));
    PlaceMeans(codec, s.files, segs, s.index, term);
    OpensAtEnd(segs, p, s.index, term);
    OpenedStands(codec, s.files, segs, s.index, term);
    OpenedRecords(segs, p, s.index, term);
    if Counted(segs, s.index) { OpenedCounted(segs, p, s.index, term); }
  }

  lemma WriteHealthy(codec: Codec, s: Store, segs: seq<Segment>, r: Record)
    requires Healthy(codec, s, segs) && Sealed(codec, r) && Fits(codec, r) && r.term == s.term
    ensures Healthy(codec, WriteFrame(s, codec.marshal(r)), Grown(segs, s.at, r))
    ensures Records(Grown(segs, s.at, r)) == Records(segs) + [r]
    ensures Counted(segs, s.index) ==> Counted(Grown(segs, s.at, r), s.index + 1)
  {
    GrownStands(codec, s.files, segs, s.at, r);
    GrownInOrder(segs, s.at, r);
    GrownRecords(segs, s.at, r);
    assert segs[..s.at + 1] == segs && segs[s.at + 1..] == [];
  }

  // ---------------------------------------------------------------- calls

  datatype Call = Write(command: Bytes) | NewTerm(term: nat) | Restart(maxSize: int)

  function Perform(codec: Codec, s: Store, call: Call): (t: Store)
    requires s.HasOpenFile()
    ensures t.HasOpenFile()
  {
    match call
    case Write(command) => Append(codec, s, command)
    case NewTerm(term) => SetTerm(s, term)
    case Restart(maxSize) => Open(s.files, maxSize)
  }

  function Written(codec: Codec, s: Store, call: Call): seq<Record> {
    if call.Write? then [Next(codec, s, call.command)] else []
  }

  function Run(codec: Codec, s: Store, calls: seq<Call>): (t: Store)
    requires s.HasOpenFile()
    ensures t.HasOpenFile()
    decreases |calls|
  {
    if |calls| == 0 then s else Run(codec, Perform(codec, s, calls[0]), calls[1..])
  }

  function History(codec: Codec, s: Store, calls: seq<Call>): seq<Record>
    requires s.HasOpenFile()
    decreases |calls|
  {
    if |calls| == 0 then [] else Written(codec, s, calls[0]) + History(codec, Perform(codec, s, calls[0]), calls[1..])
  }

  predicate NoRestart(calls: seq<Call>)
    decreases |calls|
  {
    |calls| > 0 ==> !calls[0].Restart? && NoRestart(calls[1..])
  }

  /** What a caller can check beforehand: terms do not fall, numbers print in sixteen digits, and a
      record's length fits its prefix. */
  predicate Allowed(codec: Codec, s: Store, call: Call) {
    match call
    case Write(command) => Printable(s.index) && Fits(codec, Next(codec, s, command))
    case NewTerm(term) => s.term <= term && Printable(term) && Printable(s.index)
    case Restart(_) => true
  }

  predicate AllAllowed(codec: Codec, s: Store, calls: seq<Call>)
    requires s.HasOpenFile()
    decreases |calls|
  {
    |calls| > 0 ==> Allowed(codec, s, calls[0]) && AllAllowed(codec, Perform(codec, s, calls[0]), calls[1..])
  }

  // ---------------------------------------------------------------- each call keeps the log healthy

  lemma AppendHealthy(codec: Codec, s: Store, segs: seq<Segment>, command: Bytes) returns (more: seq<Segment>)
    requires Healthy(codec, s, segs) && Allowed(codec, s, Write(command))
    ensures Healthy(codec, Append(codec, s, command), more)
    ensures Records(more) == Records(segs) + [Next(codec, s, command)]
    ensures Counted(segs, s.index) ==> Counted(more, s.index + 1)
  {
    var r := Next(codec, s, command);
    var t, base := s, segs;
    if s.fileSize + |codec.marshal(r)| > s.maxSize {
      assert Stands(codec, s.files[s.at], segs[s.at]);
      t := CreateSegment(s, s.index, s.term);
      base := Opened(segs, Place(s.files, Name(s.index, s.term)), s.index, s.term);
      CreateHealthy(codec, s, segs, s.term);
    }
    WriteHealthy(codec, t, base, r);
    more := Grown(base, t.at, r);
  }

  lemma SetTermHealthy(codec: Codec, s: Store, segs: seq<Segment>, term: nat) returns (more: seq<Segment>)
    requires Healthy(codec, s, segs) && Allowed(codec, s, NewTerm(term))
    ensures Healthy(codec, SetTerm(s, term), more) && Records(more) == Records(segs)
    ensures Counted(segs, s.index) ==> Counted(more, s.index)
  {
    more := segs;
    if s.term != term {
      CreateHealthy(codec, s, segs, term);
      more := Opened(segs, Place(s.files, Name(s.index, term)), s.index, term);
    }
  }

  lemma OpenHealthy(codec: Codec, files: seq<File>, segs: seq<Segment>, maxSize: int)
    requires Stand(codec, files, segs) && InOrder(segs) && |segs| > 0
    ensures Healthy(codec, Open(files, maxSize), segs)
    ensures Open(files, maxSize).index == segs[|segs| - 1].index
  {
    var last := |segs| - 1;
    assert Stands(codec, files[last], segs[last]);
    NameReadsBack(segs[last].index, segs[last].term);
  }

  lemma EmptyHealthy(codec: Codec, maxSize: int)
    ensures Healthy(codec, Open([], maxSize), [Segment(0, 0, [])])
    ensures Records([Segment(0, 0, [])]) == []
  {
    RecordsOfOne(Segment(0, 0, []));
    assert Stands(codec, File(Name(0, 0), []), Segment(0, 0, []));
    assert Open([], maxSize).files == [File(Name(0, 0), [])];
  }

  lemma PerformHealthy(codec: Codec, s: Store, segs: seq<Segment>, call: Call) returns (more: seq<Segment>)
    requires Healthy(codec, s, segs) && Allowed(codec, s, call)
    ensures Healthy(codec, Perform(codec, s, call), more)
    ensures Records(more) == Records(segs) + Written(codec, s, call)
    ensures !call.Restart? && Counted(segs, s.index) ==> Counted(more, Perform(codec, s, call).index)
  {
    match call
    case Write(command) => more := AppendHealthy(codec, s, segs, command);
    case NewTerm(term) => more := SetTermHealthy(codec, s, segs, term);
    case Restart(maxSize) =>
      OpenHealthy(codec, s.files, segs, maxSize);
      more := segs;
  }

  lemma {:induction false} RunHealthy(codec: Codec, s: Store, segs: seq<Segment>, calls: seq<Call>)
    returns (more: seq<Segment>)
    requires Healthy(codec, s, segs) && AllAllowed(codec, s, calls)
    ensures Healthy(codec, Run(codec, s, calls), more)
    ensures Records(more) == Records(segs) + History(codec, s, calls)
    ensures NoRestart(calls) && Counted(segs, s.index)
      ==> Counted(more, Run(codec, s, calls).index)
    decreases |calls|
  {
    if |calls| == 0 {
      more := segs;
    } else {
      var t := Perform(codec, s, calls[0]);
      var next := PerformHealthy(codec, s, segs, calls[0]);
      more := RunHealthy(codec, t, next, calls[1..]);
      Associative(Records(segs), Written(codec, s, calls[0]), History(codec, t, calls[1..]));
    }
  }

  // ---------------------------------------------------------------- main results

  /** The log round trip: after any mix of appends, rotations, term changes and restarts, reading
      everything gives the appended records in the order they were appended. */
  lemma EverythingReadsBack(codec: Codec, maxSize: int, calls: seq<Call>)
    requires RoundTrips(codec) && AllAllowed(codec, Open([], maxSize), calls)
    ensures ReadFiles(codec, Run(codec, Open([], maxSize), calls).files) == Ok(History(codec, Open([], maxSize), calls))
  {
    EmptyHealthy(codec, maxSize);
    var segs := RunHealthy(codec, Open([], maxSize), [Segment(0, 0, [])], calls);
    FilesReadBack(codec, Run(codec, Open([], maxSize), calls).files, segs);
    assert [] + History(codec, Open([], maxSize), calls) == History(codec, Open([], maxSize), calls);
  }

  /** Without a restart the records of a run are numbered one after another. */
  lemma {:induction false} IndicesCount(codec: Codec, s: Store, calls: seq<Call>, i: nat)
    requires s.HasOpenFile() && NoRestart(calls)
    ensures Run(codec, s, calls).index == s.index + |History(codec, s, calls)|
    ensures i < |History(codec, s, calls)| ==> History(codec, s, calls)[i].index == s.index + 1 + i
    decreases |calls|
  {
    if |calls| > 0 {
      var wrote := |Written(codec, s, calls[0])|;
      IndicesCount(codec, Perform(codec, s, calls[0]), calls[1..], if i < wrote then 0 else i - wrote);
    }
  }

  /** The term in force after the calls, and at each call that writes. */
  function LastTerm(calls: seq<Call>, term: nat): nat
    decreases |calls|
  {
    if |calls| == 0 then term else LastTerm(calls[1..], if calls[0].NewTerm? then calls[0].term else term)
  }

  function Terms(calls: seq<Call>, term: nat): seq<nat>
    decreases |calls|
  {
    if |calls| == 0 then []
    else
      (if calls[0].Write? then [term] else [])
      + Terms(calls[1..], if calls[0].NewTerm? then calls[0].term else term)
  }

  /** Without a restart every record carries the term in force when it was written. */
  lemma {:induction false} TermsFollow(codec: Codec, s: Store, calls: seq<Call>)
    requires s.HasOpenFile() && NoRestart(calls)
    ensures Run(codec, s, calls).term == LastTerm(calls, s.term)
    ensures |History(codec, s, calls)| == |Terms(calls, s.term)|
    ensures forall i :: 0 <= i < |Terms(calls, s.term)| ==> History(codec, s, calls)[i].term == Terms(calls, s.term)[i]
    decreases |calls|
  {
    if |calls| > 0 {
      var t := Perform(codec, s, calls[0]);
      assert t.term == if calls[0].NewTerm? then calls[0].term else s.term;
      TermsFollow(codec, t, calls[1..]);
    }
  }

  /** The commands of the calls that write. */
  function Commands(calls: seq<Call>): seq<Bytes>
    decreases |calls|
  {
    if |calls| == 0 then []
    else (if calls[0].Write? then [calls[0].command] else []) + Commands(calls[1..])
  }

  lemma {:induction false} HistoryHoldsCommands(codec: Codec, s: Store, calls: seq<Call>)
    requires s.HasOpenFile()
    ensures |History(codec, s, calls)| == |Commands(calls)|
    ensures forall i :: 0 <= i < |Commands(calls)| ==> History(codec, s, calls)[i].command == Commands(calls)[i]
    decreases |calls|
  {
    if |calls| > 0 {
      var t := Perform(codec, s, calls[0]);
      HistoryHoldsCommands(codec, t, calls[1..]);
      PrependedCommands(Written(codec, s, calls[0]), History(codec, t, calls[1..]),
                        if calls[0].Write? then [calls[0].command] else [], Commands(calls[1..]));
    }
  }

  lemma PrependedCommands(a: seq<Record>, b: seq<Record>, p: seq<Bytes>, q: seq<Bytes>)
    requires |a| == |p| <= 1 && |b| == |q|
    requires |a| == 1 ==> a[0].command == p[0]
    requires forall i :: 0 <= i < |q| ==> b[i].command == q[i]
    ensures |a + b| == |p + q| && forall i :: 0 <= i < |p + q| ==> (a + b)[i].command == (p + q)[i]
  {
  }

  /** A restart keeps the numbering exactly when the last segment is still empty; otherwise numbers
      are given out again. */
  lemma RestartKeepsIndexExactlyWhen(codec: Codec, maxSize: int, calls: seq<Call>, smaller: int)
    requires AllAllowed(codec, Open([], maxSize), calls)
    requires NoRestart(calls)
    ensures var s := Run(codec, Open([], maxSize), calls);
      Open(s.files, smaller).index == s.index <==> s.files[|s.files| - 1].bytes == []
  {
    var segs := RunCounted(codec, maxSize, calls);
    OpensAtCount(codec, Run(codec, Open([], maxSize), calls), segs, smaller);
  }

  lemma RunCounted(codec: Codec, maxSize: int, calls: seq<Call>) returns (segs: seq<Segment>)
    requires AllAllowed(codec, Open([], maxSize), calls) && NoRestart(calls)
    ensures var s := Run(codec, Open([], maxSize), calls); Healthy(codec, s, segs) && Counted(segs, s.index)
  {
    EmptyHealthy(codec, maxSize);
    segs := RunHealthy(codec, Open([], maxSize), [Segment(0, 0, [])], calls);
  }

  lemma OpensAtCount(codec: Codec, s: Store, segs: seq<Segment>, maxSize: int)
    requires Healthy(codec, s, segs) && Counted(segs, s.index)
    ensures Open(s.files, maxSize).index == s.index <==> s.files[|s.files| - 1].bytes == []
  {
    OpenHealthy(codec, s.files, segs, maxSize);
    assert Stands(codec, s.files[|segs| - 1], segs[|segs| - 1]);
    CountDecides(codec, s.files[|segs| - 1], segs[|segs| - 1], s.index);
  }

  lemma CountDecides(codec: Codec, file: File, seg: Segment, index: nat)
    requires file.bytes == Frames(codec, seg.records) && seg.index + |seg.records| == index
    ensures seg.index == index <==> file.bytes == []
  {
    NoFramesNoRecords(codec, seg.records);
  }

  lemma NoFramesNoRecords(codec: Codec, rs: seq<Record>)
    ensures Frames(codec, rs) == [] <==> rs == []
  {
    if |rs| > 0 { assert Frames(codec, rs) == Frame(codec.marshal(rs[0])) + Frames(codec, rs[1..]); }
  }

  // ---------------------------------------------------------------- falling terms

  predicate NoneAfter(segs: seq<Segment>, index: nat, term: nat) {
    forall k :: 0 <= k < |segs| && After(index, term, segs[k]) ==> segs[k].records == []
  }

  lemma {:induction false} EmptyRecords(segs: seq<Segment>)
    requires forall k :: 0 <= k < |segs| ==> segs[k].records == []
    ensures Records(segs) == []
  {
    if |segs| > 0 { EmptyRecords(segs[1..]); }
  }

  /** The first record of any segments comes from one of them. */
  lemma {:induction false} FirstOfRecords(segs: seq<Segment>) returns (k: nat)
    requires Records(segs) != []
    ensures k < |segs| && segs[k].records != [] && Records(segs)[0] == segs[k].records[0]
  {
    if segs[0].records != [] {
      k := 0;
    } else {
      assert Records(segs) == Records(segs[1..]);
      var rest := FirstOfRecords(segs[1..]);
      k := rest + 1;
    }
  }

  lemma LastIsLatest(segs: seq<Segment>, index: nat, term: nat)
    requires InOrder(segs) && |segs| > 0 && !After(index, term, segs[|segs| - 1])
    ensures NoneAfter(segs, index, term)
    ensures forall k :: 0 <= k < |segs| ==> segs[k].index <= segs[|segs| - 1].index
  {
    forall k | 0 <= k < |segs| ensures !After(index, term, segs[k]) && segs[k].index <= segs[|segs| - 1].index {
      if k < |segs| - 1 { assert Earlier(segs[k], segs[|segs| - 1]); }
    }
  }

  lemma OpenedNoneAfter(segs: seq<Segment>, p: nat, index: nat, term: nat)
    requires p <= |segs|
    ensures NoneAfter(Opened(segs, p, index, term), index, term) <==> NoneAfter(segs, index, term)
  {
    var base := Opened(segs, p, index, term);
    if NoneAfter(base, index, term) {
      forall k | 0 <= k < |segs| && After(index, term, segs[k]) ensures segs[k].records == [] {
        assert segs[k] == base[k] || segs[k] == base[k + 1];
      }
    }
  }

  lemma OpenedIndices(segs: seq<Segment>, p: nat, index: nat, term: nat)
    requires p <= |segs| && forall k :: 0 <= k < |segs| ==> segs[k].index <= index
    ensures forall k :: 0 <= k < |Opened(segs, p, index, term)| ==> Opened(segs, p, index, term)[k].index <= index
  {
  }

  /** Opening the same segment twice changes nothing. */
  lemma CreatedTwice(codec: Codec, t: Store, base: seq<Segment>)
    requires Stand(codec, t.files, base) && InOrder(base) && t.at < |base| && t.fileSize == 0
    requires base[t.at].index == t.index && base[t.at].term == t.term
    ensures CreateSegment(t, t.index, t.term) == t
  {
    var p := Place(t.files, Name(t.index, t.term));
    assert Stands(codec, t.files[t.at], base[t.at]);
    PlaceMeans(codec, t.files, base, t.index, t.term);
    assert p <= t.at;
    assert p < t.at ==> Earlier(base[p], base[t.at]);
    ExistsMeans(codec, t.files, base, t.index, t.term);
  }

  /** Between the records before a place and those after it, a different one fits only at the end. */
  lemma OnlyAtTheEnd(a: seq<Record>, r: Record, b: seq<Record>)
    requires b != [] ==> b[0] != r
    ensures a + [r] + b == a + b + [r] <==> b == []
  {
    if b != [] {
      assert (a + [r] + b)[|a|] == r && (a + b + [r])[|a|] == b[0];
    } else {
      assert a + [r] + b == a + b + [r];
    }
  }

  lemma RecordsAfter(codec: Codec, files: seq<File>, base: seq<Segment>, p: nat, r: Record)
    requires Stand(codec, files, base) && InOrder(base) && p < |base| && base[p].term == r.term
    requires forall k :: 0 <= k < |base| ==> base[k].index <= base[p].index
    ensures var b := Records(base[p + 1..]); b != [] ==> b[0] != r
    ensures Records(base[p + 1..]) == [] <==> NoneAfter(base, base[p].index, base[p].term)
  {
    var index, term, rest := base[p].index, base[p].term, base[p + 1..];
    forall k | 0 <= k < |base| ensures After(index, term, base[k]) <==> p < k {
      if k < p { assert Earlier(base[k], base[p]); }
      if p < k { assert Earlier(base[p], base[k]); }
    }
    if Records(rest) != [] {
      var k := FirstOfRecords(rest);
      assert rest[k] == base[p + 1 + k];
      assert Stands(codec, files[p + 1 + k], base[p + 1 + k]);
      assert Earlier(base[p], base[p + 1 + k]);
    } else {
      EmptyIfNone(rest);
      forall k | 0 <= k < |base| && After(index, term, base[k]) ensures base[k].records == [] {
        assert base[k] == rest[k - p - 1];
      }
    }
    if NoneAfter(base, index, term) { EmptyRecords(rest); }
  }

  lemma {:induction false} EmptyIfNone(segs: seq<Segment>)
    requires Records(segs) == []
    ensures forall k :: 0 <= k < |segs| ==> segs[k].records == []
  {
    if |segs| > 0 {
      assert segs[0].records == [] && Records(segs[1..]) == [];
      EmptyIfNone(segs[1..]);
    }
  }

  /** The record written after a term change is read after all earlier ones exactly when no record
      sits in a segment named after the new one, as happens when the term falls at the index the
      open segment started from. */
  lemma TermChangeKeepsOrderExactlyWhen(codec: Codec, s: Store, segs: seq<Segment>, term: nat, command: Bytes)
    requires RoundTrips(codec) && Healthy(codec, s, segs) && Printable(s.index) && Printable(term)
    requires Fits(codec, Next(codec, SetTerm(s, term), command))
    ensures var r := Next(codec, SetTerm(s, term), command);
      ReadFiles(codec, Append(codec, SetTerm(s, term), command).files) == Ok(Records(segs) + [r])
      <==> NoneAfter(segs, s.index, term)
  {
    assert Stands(codec, s.files[s.at], segs[s.at]);
    LastIsLatest(segs, s.index, s.term);
    if term == s.term {
      AppendReadsBack(codec, s, segs, command);
    } else {
      ChangedTermAppend(codec, s, segs, term, command);
    }
  }

  lemma AppendReadsBack(codec: Codec, s: Store, segs: seq<Segment>, command: Bytes)
    requires RoundTrips(codec) && Healthy(codec, s, segs) && Allowed(codec, s, Write(command))
    ensures ReadFiles(codec, Append(codec, s, command).files) == Ok(Records(segs) + [Next(codec, s, command)])
  {
    var more := AppendHealthy(codec, s, segs, command);
    FilesReadBack(codec, Append(codec, s, command).files, more);
  }

  lemma ChangedTermAppend(codec: Codec, s: Store, segs: seq<Segment>, term: nat, command: Bytes)
    requires RoundTrips(codec) && Stand(codec, s.files, segs) && InOrder(segs) && s.HasOpenFile()
    requires term != s.term && Printable(s.index) && Printable(term)
    requires forall k :: 0 <= k < |segs| ==> segs[k].index <= s.index
    requires Fits(codec, Next(codec, SetTerm(s, term), command))
    ensures var r := Next(codec, SetTerm(s, term), command);
      ReadFiles(codec, Append(codec, SetTerm(s, term), command).files) == Ok(Records(segs) + [r])
      <==> NoneAfter(segs, s.index, term)
  {
    var t := SetTerm(s, term);
    var base := Opened(segs, t.at, s.index, term);
    OpenedStands(codec, s.files, segs, s.index, term);
    OpenedRecords(segs, t.at, s.index, term);
    OpenedNoneAfter(segs, t.at, s.index, term);
    OpenedIndices(segs, t.at, s.index, term);
    CreatedTwice(codec, t, base);
    AppendedAfterChange(codec, t, base, command);
  }

  lemma AppendedAfterChange(codec: Codec, t: Store, base: seq<Segment>, command: Bytes)
    requires RoundTrips(codec) && Fits(codec, Next(codec, t, command))
    requires Stand(codec, t.files, base) && InOrder(base) && t.at < |base|
    requires base[t.at].index == t.index && base[t.at].term == t.term && CreateSegment(t, t.index, t.term) == t
    requires forall k :: 0 <= k < |base| ==> base[k].index <= t.index
    ensures ReadFiles(codec, Append(codec, t, command).files) == Ok(Records(base) + [Next(codec, t, command)])
       <==> NoneAfter(base, t.index, t.term)
  {
    var p, r := t.at, Next(codec, t, command);
    var a, b := Records(base[..p + 1]), Records(base[p + 1..]);
    GrownStands(codec, t.files, base, p, r);
    GrownRecords(base, p, r);
    FilesReadBack(codec, Append(codec, t, command).files, Grown(base, p, r));
    RecordsConcat(base[..p + 1], base[p + 1..]);
    assert base == base[..p + 1] + base[p + 1..];
    RecordsAfter(codec, t.files, base, p, r);
    OnlyAtTheEnd(a, r, b);
  }

  /** A restart forgets how far the open segment had grown, so a term that falls right after it
      always puts the next record before those already there. */
  lemma TermFallAfterRestart(codec: Codec, s: Store, segs: seq<Segment>, maxSize: int, term: nat, command: Bytes)
    requires RoundTrips(codec) && Healthy(codec, s, segs) && segs[|segs| - 1].records != [] && term < s.term
    requires Fits(codec, Next(codec, SetTerm(Open(s.files, maxSize), term), command))
    ensures var t := SetTerm(Open(s.files, maxSize), term);
      ReadFiles(codec, Append(codec, t, command).files) != Ok(Records(segs) + [Next(codec, t, command)])
  {
    var after, last := Open(s.files, maxSize), |segs| - 1;
    assert Stands(codec, s.files[last], segs[last]);
    OpenHealthy(codec, s.files, segs, maxSize);
    assert After(after.index, term, segs[last]);
    TermChangeKeepsOrderExactlyWhen(codec, after, segs, term, command);
  }
}
