/** The segmented log: which file a record goes to, and what a reader of all files gets back. A
    directory lists its files by name. */
module WalStore {
  import opened Strings
  import opened WalFrames
  import opened SegmentNames

  datatype File = File(name: string, bytes: Bytes)

  /** `at` is the position of the open file in the directory. */
  datatype Store = Store(files: seq<File>, at: nat, index: nat, term: nat, fileSize: nat, maxSize: int) {
    predicate HasOpenFile() { at < |files| }
  }

  // ---------------------------------------------------------------- the directory

  /** Where a name stands, or would stand. */
  function Place(files: seq<File>, name: string): (p: nat)
    ensures p <= |files|
  {
    if |files| == 0 || !Less(files[0].name, name) then 0 else 1 + Place(files[1..], name)
  }

  function Exists(files: seq<File>, name: string): bool {
    var p := Place(files, name);
    p < |files| && files[p].name == name
  }

  /** Opening for append keeps what a file of that name already holds. */
  function OpenAppend(files: seq<File>, name: string): (more: seq<File>)
    ensures Place(files, name) < |more|
  {
    var p := Place(files, name);
    if Exists(files, name) then files else files[..p] + [File(name, [])] + files[p..]
  }

  /** A directory lists each name once, in order. */
  ghost predicate Listed(files: seq<File>) {
    forall i, j {:trigger files[i], files[j]} :: 0 <= i < j < |files| ==> Less(files[i].name, files[j].name)
  }

  lemma {:induction false} PlaceSplits(files: seq<File>, name: string)
    requires Listed(files)
    ensures var p := Place(files, name);
      && (forall i :: 0 <= i < p ==> Less(files[i].name, name))
      && (forall i :: p <= i < |files| ==> !Less(files[i].name, name))
  {
    if |files| > 0 {
      PlaceSplits(files[1..], name);
      assert forall i :: 0 < i < |files| ==> files[i] == files[1..][i - 1];
      forall i | 0 <= i < |files| && !Less(files[0].name, name) ensures !Less(files[i].name, name) {
        if i > 0 && Less(files[i].name, name) { LessTransitive(files[0].name, files[i].name, name); }
      }
    }
  }

  ghost predicate HasName(files: seq<File>, name: string) {
    exists file :: file in files && file.name == name
  }

  /** Looking only at the place of a name finds it exactly if some file has it. */
  lemma ExistsExactlyWhen(files: seq<File>, name: string)
    requires Listed(files)
    ensures Exists(files, name) <==> HasName(files, name)
  {
    PlaceSplits(files, name);
    var p := Place(files, name);
    if Exists(files, name) { assert files[p] in files; }
    forall i | 0 <= i < |files| && files[i].name == name ensures i == p && Exists(files, name) {
      LessIrreflexive(name);
      if files[p].name != files[i].name { assert false; }
    }
  }

  lemma RestIsAfter(files: seq<File>, name: string)
    requires Listed(files) && !Exists(files, name)
    ensures forall i :: Place(files, name) <= i < |files| ==> Less(name, files[i].name)
  {
    ExistsExactlyWhen(files, name);
    PlaceSplits(files, name);
    forall i | Place(files, name) <= i < |files| ensures Less(name, files[i].name) {
      LessTotal(files[i].name, name);
      assert files[i] in files;
    }
  }

  lemma InsertedListed(files: seq<File>, p: nat, file: File)
    requires Listed(files) && p <= |files|
    requires forall i :: 0 <= i < p ==> Less(files[i].name, file.name)
    requires forall i :: p <= i < |files| ==> Less(file.name, files[i].name)
    ensures Listed(files[..p] + [file] + files[p..])
  {
    var more := files[..p] + [file] + files[p..];
    assert forall i :: 0 <= i < p ==> more[i] == files[i];
    assert more[p] == file;
    assert forall i :: p < i < |more| ==> more[i] == files[i - 1];
  }

  /** The file of that name is open, and names are in order: if some file had the name, it is the one
      open and every file is as it was; otherwise there is one file more, empty, among them. */
  ghost predicate OpenedByName(files: seq<File>, name: string, at: nat, more: seq<File>) {
    && at < |more| && at <= |files| && more[at].name == name && Listed(more)
    && more == if HasName(files, name) then files else files[..at] + [File(name, [])] + files[at..]
  }

  lemma OpenAppendMeans(files: seq<File>, name: string)
    requires Listed(files)
    ensures OpenedByName(files, name, Place(files, name), OpenAppend(files, name))
  {
    ExistsExactlyWhen(files, name);
    if !Exists(files, name) {
      PlaceSplits(files, name);
      RestIsAfter(files, name);
      InsertedListed(files, Place(files, name), File(name, []));
    }
  }

  // ---------------------------------------------------------------- the log's steps

  function CreateSegment(s: Store, index: nat, term: nat): (t: Store)
    ensures t.HasOpenFile()
  {
    Store(OpenAppend(s.files, Name(index, term)), Place(s.files, Name(index, term)), index, term, 0, s.maxSize)
  }

  function WriteFrame(s: Store, data: Bytes): (t: Store)
    requires s.HasOpenFile()
    ensures t.HasOpenFile()
  {
    var file := s.files[s.at];
    s.(files := s.files[s.at := file.(bytes := file.bytes + Frame(data))], fileSize := s.fileSize + 4 + |data|)
  }

  /** The test for a full segment leaves out the length prefix. */
  function WriteRecord(s: Store, data: Bytes): (t: Store)
    requires s.HasOpenFile()
    ensures t.HasOpenFile()
  {
    WriteFrame(if s.fileSize + |data| > s.maxSize then CreateSegment(s, s.index, s.term) else s, data)
  }

  function Next(codec: Codec, s: Store, command: Bytes): Record {
    Seal(codec, s.index + 1, s.term, command)
  }

  function Append(codec: Codec, s: Store, command: Bytes): (t: Store)
    requires s.HasOpenFile()
    ensures t.HasOpenFile()
  {
    WriteRecord(s, codec.marshal(Next(codec, s, command))).(index := s.index + 1)
  }

  function SetTerm(s: Store, term: nat): (t: Store)
    requires s.HasOpenFile()
    ensures t.HasOpenFile()
  {
    if s.term != term then CreateSegment(s, s.index, term) else s
  }

  /** The position of the last file that has a segment's name, or -1. */
  function LastListed(files: seq<File>): (p: int)
    ensures -1 <= p < |files|
    ensures p >= 0 ==> ParseName(files[p].name).Some?
  {
    if |files| == 0 then -1
    else if ParseName(files[|files| - 1].name).Some? then |files| - 1
    else LastListed(files[..|files| - 1])
  }

  /** Opening resumes at the index the last segment started from. */
  function Open(files: seq<File>, maxSize: int): (t: Store)
    ensures t.HasOpenFile()
  {
    var p := LastListed(files);
    if p < 0 then CreateSegment(Store(files, 0, 0, 0, 0, maxSize), 0, 0)
    else
      var (index, term) := ParseName(files[p].name).value;
      Store(files, p, index, term, |files[p].bytes|, maxSize)
  }

  lemma {:induction false} LastListedIsLast(files: seq<File>)
    ensures forall i :: LastListed(files) < i < |files| ==> ParseName(files[i].name) == None
  {
    if |files| > 0 && ParseName(files[|files| - 1].name) == None {
      LastListedIsLast(files[..|files| - 1]);
      assert files == files[..|files| - 1] + [files[|files| - 1]];
    }
  }

  /** Opening takes up the last file with a segment's name, whatever files follow it, with the numbers it is
      named for and the size it has; only where there is none does it make one, the first. */
  lemma OpenResumes(files: seq<File>, maxSize: int)
    requires Listed(files)
    ensures var t := Open(files, maxSize);
      && t.maxSize == maxSize
      && ((exists i :: 0 <= i < |files| && ParseName(files[i].name).Some?) ==>
            && t.files == files && ParseName(files[t.at].name) == Some((t.index, t.term))
            && t.fileSize == |files[t.at].bytes|
            && forall i :: t.at < i < |files| ==> ParseName(files[i].name) == None)
      && ((forall i :: 0 <= i < |files| ==> ParseName(files[i].name) == None) ==>
            OpenedByName(files, Name(0, 0), t.at, t.files) && t.index == 0 && t.term == 0 && t.fileSize == 0)
  {
    LastListedIsLast(files);
    OpenAppendMeans(files, Name(0, 0));
  }

  /** Files with other names are passed over. */
  function ReadFiles(codec: Codec, files: seq<File>): Result<seq<Record>> {
    if |files| == 0 then Ok([])
    else if ParseName(files[0].name).None? then ReadFiles(codec, files[1..])
    else
      match ReadSegment(codec, files[0].bytes)
      case Err(e) => Err(e)
      case Ok(rs) => Onto(rs, ReadFiles(codec, files[1..]))
  }

  // ---------------------------------------------------------------- what the files stand for

  datatype Segment = Segment(index: nat, term: nat, records: seq<Record>)

  ghost predicate Stands(codec: Codec, file: File, seg: Segment) {
    && file.name == Name(seg.index, seg.term) && Printable(seg.index) && Printable(seg.term)
    && file.bytes == Frames(codec, seg.records) && Good(codec, seg.records)
    && forall i :: 0 <= i < |seg.records| ==> seg.records[i].term == seg.term
  }

  ghost predicate Stand(codec: Codec, files: seq<File>, segs: seq<Segment>) {
    |files| == |segs| && forall i {:trigger Stands(codec, files[i], segs[i])} ::
      0 <= i < |segs| ==> Stands(codec, files[i], segs[i])
  }

  predicate After(index: nat, term: nat, seg: Segment) {
    Before(index, term, seg.index, seg.term)
  }

  predicate Earlier(a: Segment, b: Segment) {
    Before(a.index, a.term, b.index, b.term)
  }

  predicate InOrder(segs: seq<Segment>) {
    forall i, j {:trigger Earlier(segs[i], segs[j])} :: 0 <= i < j < |segs| ==> Earlier(segs[i], segs[j])
  }

  function Records(segs: seq<Segment>): seq<Record> {
    if |segs| == 0 then [] else segs[0].records + Records(segs[1..])
  }

  /** What holds between the log's calls as long as terms do not fall. */
  ghost predicate Healthy(codec: Codec, s: Store, segs: seq<Segment>) {
    && Stand(codec, s.files, segs) && InOrder(segs) && |segs| > 0
    && s.at == |segs| - 1 && segs[s.at].index <= s.index && segs[s.at].term == s.term
  }

  lemma {:induction false} RecordsConcat(a: seq<Segment>, b: seq<Segment>)
    ensures Records(a + b) == Records(a) + Records(b)
  {
    if |a| == 0 {
      assert a + b == b;
    } else {
      var all := a + b;
      assert all[0] == a[0] && all[1..] == a[1..] + b;
      RecordsConcat(a[1..], b);
      assert Records(all) == a[0].records + (Records(a[1..]) + Records(b));
    }
  }

  lemma RecordsOfOne(seg: Segment)
    ensures Records([seg]) == seg.records
  {
  }

  lemma RecordsOfThree(a: seq<Segment>, seg: Segment, b: seq<Segment>)
    ensures Records(a + [seg] + b) == Records(a) + seg.records + Records(b)
  {
    RecordsConcat(a + [seg], b);
    RecordsConcat(a, [seg]);
    RecordsOfOne(seg);
  }

  lemma {:induction false} FilesReadBack(codec: Codec, files: seq<File>, segs: seq<Segment>)
    requires RoundTrips(codec) && Stand(codec, files, segs)
    ensures ReadFiles(codec, files) == Ok(Records(segs))
  {
    if |segs| > 0 {
      assert Stands(codec, files[0], segs[0]);
      NameReadsBack(segs[0].index, segs[0].term);
      SegmentReadsBack(codec, segs[0].records);
      FilesReadBack(codec, files[1..], segs[1..]);
    }
  }

  // ---------------------------------------------------------------- where a segment is placed

  lemma RestStands(codec: Codec, files: seq<File>, segs: seq<Segment>)
    requires Stand(codec, files, segs) && InOrder(segs) && |segs| > 0
    ensures Stand(codec, files[1..], segs[1..]) && InOrder(segs[1..])
    ensures forall i :: 0 < i < |segs| ==> Earlier(segs[0], segs[i])
  {
    forall i | 0 <= i < |segs[1..]| ensures Stands(codec, files[1..][i], segs[1..][i]) {
      assert Stands(codec, files[i + 1], segs[i + 1]);
    }
    forall i, j | 0 <= i < j < |segs[1..]| ensures Earlier(segs[1..][i], segs[1..][j]) {
      assert Earlier(segs[i + 1], segs[j + 1]);
    }
  }

  lemma FirstIsPlace(codec: Codec, file: File, seg: Segment, index: nat, term: nat)
    requires Stands(codec, file, seg) && Printable(index) && Printable(term)
    ensures Less(file.name, Name(index, term)) <==> Before(seg.index, seg.term, index, term)
  {
    NamesOrdered(seg.index, seg.term, index, term);
  }

  predicate AllBefore(segs: seq<Segment>, p: nat, index: nat, term: nat) {
    p <= |segs| && forall i :: 0 <= i < p ==> Before(segs[i].index, segs[i].term, index, term)
  }

  predicate NoneBefore(segs: seq<Segment>, p: nat, index: nat, term: nat) {
    forall i :: p <= i < |segs| ==> !Before(segs[i].index, segs[i].term, index, term)
  }

  lemma PlaceShifts(segs: seq<Segment>, q: nat, index: nat, term: nat)
    requires |segs| > 0 && Before(segs[0].index, segs[0].term, index, term)
    requires AllBefore(segs[1..], q, index, term) && NoneBefore(segs[1..], q, index, term)
    ensures AllBefore(segs, q + 1, index, term) && NoneBefore(segs, q + 1, index, term)
  {
    assert forall i :: 1 <= i < |segs| ==> segs[i] == segs[1..][i - 1];
  }

  lemma NoneBeforeFirst(segs: seq<Segment>, index: nat, term: nat)
    requires |segs| > 0 && !Before(segs[0].index, segs[0].term, index, term)
    requires forall i :: 0 < i < |segs| ==> Earlier(segs[0], segs[i])
    ensures AllBefore(segs, 0, index, term) && NoneBefore(segs, 0, index, term)
  {
  }

  /** As many segments as come before it. */
  lemma {:induction false} PlaceMeans(codec: Codec, files: seq<File>, segs: seq<Segment>, index: nat, term: nat)
    requires Stand(codec, files, segs) && InOrder(segs) && Printable(index) && Printable(term)
    ensures var p := Place(files, Name(index, term));
      AllBefore(segs, p, index, term) && NoneBefore(segs, p, index, term)
  {
    if |files| > 0 {
      assert Stands(codec, files[0], segs[0]);
      FirstIsPlace(codec, files[0], segs[0], index, term);
      RestStands(codec, files, segs);
      if Less(files[0].name, Name(index, term)) {
        PlaceMeans(codec, files[1..], segs[1..], index, term);
        PlaceShifts(segs, Place(files[1..], Name(index, term)), index, term);
      } else {
        NoneBeforeFirst(segs, index, term);
      }
    }
  }

  /** The segments once (index, term) is open. */
  function Opened(segs: seq<Segment>, p: nat, index: nat, term: nat): (more: seq<Segment>)
    requires p <= |segs|
    ensures p < |more|
  {
    if p < |segs| && segs[p].index == index && segs[p].term == term then segs
    else segs[..p] + [Segment(index, term, [])] + segs[p..]
  }

  lemma SameNameSameNumbers(i: nat, t: nat, j: nat, u: nat)
    requires Printable(i) && Printable(t) && Printable(j) && Printable(u)
    ensures Name(i, t) == Name(j, u) <==> i == j && t == u
  {
    NamesOrdered(i, t, j, u);
    NamesOrdered(j, u, i, t);
    LessIrreflexive(Name(i, t));
  }

  lemma ExistsMeans(codec: Codec, files: seq<File>, segs: seq<Segment>, index: nat, term: nat)
    requires Stand(codec, files, segs) && Printable(index) && Printable(term)
    ensures var p := Place(files, Name(index, term));
      Exists(files, Name(index, term)) <==> p < |segs| && segs[p].index == index && segs[p].term == term
  {
    var p := Place(files, Name(index, term));
    if p < |segs| {
      assert Stands(codec, files[p], segs[p]);
      SameNameSameNumbers(segs[p].index, segs[p].term, index, term);
    }
  }

  lemma EmptyStands(codec: Codec, index: nat, term: nat)
    requires Printable(index) && Printable(term)
    ensures Stands(codec, File(Name(index, term), []), Segment(index, term, []))
  {
  }

  lemma StandsAmong(codec: Codec, files: seq<File>, segs: seq<Segment>, p: nat, file: File, seg: Segment)
    requires Stand(codec, files, segs) && p <= |segs| && Stands(codec, file, seg)
    ensures Stand(codec, files[..p] + [file] + files[p..], segs[..p] + [seg] + segs[p..])
  {
    var more, all := files[..p] + [file] + files[p..], segs[..p] + [seg] + segs[p..];
    forall i | 0 <= i < |all| ensures Stands(codec, more[i], all[i]) {
      if i < p {
        assert Stands(codec, files[i], segs[i]);
      } else if i > p {
        assert Stands(codec, files[i - 1], segs[i - 1]);
      }
    }
  }

  lemma InsertedStands(codec: Codec, files: seq<File>, segs: seq<Segment>, p: nat, index: nat, term: nat)
    requires Stand(codec, files, segs) && p <= |segs| && Printable(index) && Printable(term)
    ensures Stand(codec, files[..p] + [File(Name(index, term), [])] + files[p..],
                  segs[..p] + [Segment(index, term, [])] + segs[p..])
  {
    EmptyStands(codec, index, term);
    StandsAmong(codec, files, segs, p, File(Name(index, term), []), Segment(index, term, []));
  }

  lemma InsertedInOrder(segs: seq<Segment>, p: nat, index: nat, term: nat)
    requires InOrder(segs) && p <= |segs|
    requires AllBefore(segs, p, index, term)
    requires forall i :: p <= i < |segs| ==> After(index, term, segs[i])
    ensures InOrder(segs[..p] + [Segment(index, term, [])] + segs[p..])
  {
  }

  /** Whatever is not before a place is after it, unless it is the place itself. */
  lemma RestComesAfter(segs: seq<Segment>, p: nat, index: nat, term: nat)
    requires InOrder(segs) && p <= |segs|
    requires NoneBefore(segs, p, index, term)
    ensures forall i :: p < i < |segs| ==> After(index, term, segs[i])
    ensures p < |segs| && !(segs[p].index == index && segs[p].term == term) ==> After(index, term, segs[p])
  {
    forall i | p < i < |segs| ensures After(index, term, segs[i]) {
      assert Earlier(segs[p], segs[i]);
    }
  }

  lemma OpenedInserts(segs: seq<Segment>, p: nat, index: nat, term: nat)
    requires p <= |segs| && !(p < |segs| && segs[p].index == index && segs[p].term == term)
    ensures Opened(segs, p, index, term) == segs[..p] + [Segment(index, term, [])] + segs[p..]
  {
  }

  lemma InsertionStands(codec: Codec, files: seq<File>, segs: seq<Segment>, p: nat, index: nat, term: nat)
    requires Stand(codec, files, segs) && InOrder(segs) && Printable(index) && Printable(term) && p <= |segs|
    requires AllBefore(segs, p, index, term) && NoneBefore(segs, p, index, term)
    requires !(p < |segs| && segs[p].index == index && segs[p].term == term)
    ensures Stand(codec, files[..p] + [File(Name(index, term), [])] + files[p..], Opened(segs, p, index, term))
    ensures InOrder(Opened(segs, p, index, term))
  {
    OpenedInserts(segs, p, index, term);
    RestComesAfter(segs, p, index, term);
    InsertedInOrder(segs, p, index, term);
    InsertedStands(codec, files, segs, p, index, term);
  }

  lemma OpenedStands(codec: Codec, files: seq<File>, segs: seq<Segment>, index: nat, term: nat)
    requires Stand(codec, files, segs) && InOrder(segs) && Printable(index) && Printable(term)
    ensures var p := Place(files, Name(index, term));
      && Stand(codec, OpenAppend(files, Name(index, term)), Opened(segs, p, index, term))
      && InOrder(Opened(segs, p, index, term))
  {
    PlaceMeans(codec, files, segs, index, term);
    ExistsMeans(codec, files, segs, index, term);
    if !Exists(files, Name(index, term)) {
      InsertionStands(codec, files, segs, Place(files, Name(index, term)), index, term);
    }
  }

  lemma InsertedRecords(segs: seq<Segment>, p: nat, empty: Segment)
    requires p <= |segs| && empty.records == []
    ensures Records(segs[..p] + [empty] + segs[p..]) == Records(segs)
  {
    var a, b := segs[..p], segs[p..];
    RecordsOfThree(a, empty, b);
    assert Records(a) + [] == Records(a);
    RecordsConcat(a, b);
    assert segs == a + b;
  }

  lemma OpenedRecords(segs: seq<Segment>, p: nat, index: nat, term: nat)
    requires p <= |segs|
    ensures Records(Opened(segs, p, index, term)) == Records(segs)
    ensures Opened(segs, p, index, term)[p].index == index && Opened(segs, p, index, term)[p].term == term
  {
    InsertedRecords(segs, p, Segment(index, term, []));
  }

  // ---------------------------------------------------------------- writing to a segment

  function Grown(segs: seq<Segment>, p: nat, r: Record): seq<Segment>
    requires p < |segs|
  {
    segs[p := segs[p].(records := segs[p].records + [r])]
  }

  function Longer(files: seq<File>, p: nat, data: Bytes): seq<File>
    requires p < |files|
  {
    files[p := files[p].(bytes := files[p].bytes + Frame(data))]
  }

  lemma OneFrame(codec: Codec, r: Record)
    ensures Frames(codec, [r]) == Frame(codec.marshal(r))
  {
  }

  lemma GrownFileStands(codec: Codec, file: File, seg: Segment, r: Record)
    requires Stands(codec, file, seg) && Sealed(codec, r) && Fits(codec, r) && r.term == seg.term
    ensures Stands(codec, file.(bytes := file.bytes + Frame(codec.marshal(r))), seg.(records := seg.records + [r]))
  {
    FramesConcat(codec, seg.records, [r]);
    OneFrame(codec, r);
  }

  lemma GrownStands(codec: Codec, files: seq<File>, segs: seq<Segment>, p: nat, r: Record)
    requires Stand(codec, files, segs) && p < |segs|
    requires Sealed(codec, r) && Fits(codec, r) && r.term == segs[p].term
    ensures Stand(codec, Longer(files, p, codec.marshal(r)), Grown(segs, p, r))
  {
    var longer, grown := Longer(files, p, codec.marshal(r)), Grown(segs, p, r);
    forall i | 0 <= i < |segs| ensures Stands(codec, longer[i], grown[i]) {
      assert Stands(codec, files[i], segs[i]);
      if i == p { GrownFileStands(codec, files[p], segs[p], r); }
    }
  }

  lemma GrownInOrder(segs: seq<Segment>, p: nat, r: Record)
    requires InOrder(segs) && p < |segs|
    ensures InOrder(Grown(segs, p, r))
  {
    forall i, j | 0 <= i < j < |segs| ensures Earlier(Grown(segs, p, r)[i], Grown(segs, p, r)[j]) {
      assert Earlier(segs[i], segs[j]);
    }
  }

  /** A new record is read right after those of its own segment. */
  lemma GrownRecords(segs: seq<Segment>, p: nat, r: Record)
    requires p < |segs|
    ensures Records(Grown(segs, p, r)) == Records(segs[..p + 1]) + [r] + Records(segs[p + 1..])
  {
    var grown := segs[p].(records := segs[p].records + [r]);
    assert Grown(segs, p, r) == segs[..p] + [grown] + segs[p + 1..];
    RecordsOfThree(segs[..p], grown, segs[p + 1..]);
    assert segs[..p + 1] == segs[..p] + [segs[p]];
    RecordsConcat(segs[..p], [segs[p]]);
    RecordsOfOne(segs[p]);
  }
}
