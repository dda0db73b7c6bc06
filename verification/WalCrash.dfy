/** What a reader finds after a write was cut short, and after bytes were damaged. */
module WalCrash {
  import opened SegmentNames
  import opened WalFrames
  import opened WalStore
  import opened WalRuns

  lemma {:induction false} ReadsUpToLast(codec: Codec, files: seq<File>, last: File)
    requires ReadFiles(codec, files).Ok? && ParseName(last.name).Some?
    ensures ReadFiles(codec, files + [last]) == Onto(ReadFiles(codec, files).value, ReadSegment(codec, last.bytes))
  {
    if |files| == 0 {
      assert files + [last] == [last];
      OntoNone(ReadSegment(codec, last.bytes));
      if ReadSegment(codec, last.bytes).Ok? {
        assert ReadSegment(codec, last.bytes).value + [] == ReadSegment(codec, last.bytes).value;
      }
    } else {
      var all := files + [last];
      assert all[0] == files[0] && all[1..] == files[1..] + [last];
      ReadsUpToLast(codec, files[1..], last);
      if ParseName(files[0].name).Some? {
        OntoAssociates(ReadSegment(codec, files[0].bytes).value, ReadFiles(codec, files[1..]).value,
                       ReadSegment(codec, last.bytes));
      }
    }
  }

  lemma FramesGrow(codec: Codec, rs: seq<Record>, j: nat)
    requires j <= |rs|
    ensures |Frames(codec, rs[..j])| <= |Frames(codec, rs)|
  {
    FramesConcat(codec, rs[..j], rs[j..]);
    assert rs == rs[..j] + rs[j..];
  }

  /** A segment whose last frame is cut short cannot be read. */
  lemma CutFrame(codec: Codec, rs: seq<Record>, r: Record, k: nat)
    requires RoundTrips(codec) && Good(codec, rs + [r]) && 0 < k < |Frame(codec.marshal(r))|
    ensures ReadSegment(codec, Frames(codec, rs) + Frame(codec.marshal(r))[..k]).Err?
  {
    var all, frame := rs + [r], Frame(codec.marshal(r));
    FramesConcat(codec, rs, [r]);
    OneFrame(codec, r);
    var cut := |Frames(codec, rs)| + k;
    assert Frames(codec, all)[..cut] == Frames(codec, rs) + frame[..k];
    TornTail(codec, all, cut);
    forall j | 0 <= j <= |all| ensures |Frames(codec, all[..j])| != cut {
      if j <= |rs| {
        assert all[..j] == rs[..j];
        FramesGrow(codec, rs, j);
      } else {
        assert all[..j] == all;
      }
    }
  }

  function Torn(s: Store, data: Bytes, k: nat): seq<File>
    requires s.HasOpenFile() && k <= |Frame(data)|
  {
    s.files[s.at := s.files[s.at].(bytes := s.files[s.at].bytes + Frame(data)[..k])]
  }

  /** A crash while a record is being written leaves a readable log exactly when none or all of its
      frame reached the disk; the records before it, or before and including it, are then intact.
      Otherwise the whole log is refused, and with it the store's recovery. */
  lemma CrashDuringWrite(codec: Codec, s: Store, segs: seq<Segment>, r: Record, k: nat)
    requires RoundTrips(codec) && Healthy(codec, s, segs) && Sealed(codec, r) && Fits(codec, r) && r.term == s.term
    requires k <= |Frame(codec.marshal(r))|
    ensures k == 0 ==> ReadFiles(codec, Torn(s, codec.marshal(r), k)) == Ok(Records(segs))
    ensures k == |Frame(codec.marshal(r))| ==> ReadFiles(codec, Torn(s, codec.marshal(r), k)) == Ok(Records(segs) + [r])
    ensures 0 < k < |Frame(codec.marshal(r))| ==> ReadFiles(codec, Torn(s, codec.marshal(r), k)).Err?
  {
    var data := codec.marshal(r);
    if k == 0 {
      assert Torn(s, data, k) == s.files by {
        assert s.files[s.at].bytes + Frame(data)[..0] == s.files[s.at].bytes;
      }
      FilesReadBack(codec, s.files, segs);
    } else if k == |Frame(data)| {
      assert Frame(data)[..k] == Frame(data);
      WriteHealthy(codec, s, segs, r);
      FilesReadBack(codec, Torn(s, data, k), Grown(segs, s.at, r));
    } else {
      TornFilesRefused(codec, s, segs, r, k);
    }
  }

  /** One unreadable segment makes the whole log unreadable. */
  lemma LastFileRefused(codec: Codec, files: seq<File>, segs: seq<Segment>, last: File)
    requires RoundTrips(codec) && Stand(codec, files, segs)
    requires ParseName(last.name).Some? && ReadSegment(codec, last.bytes).Err?
    ensures ReadFiles(codec, files + [last]).Err?
  {
    FilesReadBack(codec, files, segs);
    ReadsUpToLast(codec, files, last);
  }

  lemma TornFilesRefused(codec: Codec, s: Store, segs: seq<Segment>, r: Record, k: nat)
    requires RoundTrips(codec) && Healthy(codec, s, segs) && Sealed(codec, r) && Fits(codec, r)
    requires 0 < k < |Frame(codec.marshal(r))|
    ensures ReadFiles(codec, Torn(s, codec.marshal(r), k)).Err?
  {
    var before, seg, torn := s.files[..s.at], segs[s.at], Torn(s, codec.marshal(r), k);
    assert Stands(codec, s.files[s.at], seg);
    CutFrame(codec, seg.records, r, k);
    NameReadsBack(seg.index, seg.term);
    PrefixStands(codec, s.files, segs, s.at);
    assert torn == before + [torn[s.at]];
    LastFileRefused(codec, before, segs[..s.at], torn[s.at]);
  }

  lemma PrefixStands(codec: Codec, files: seq<File>, segs: seq<Segment>, p: nat)
    requires Stand(codec, files, segs) && p <= |segs|
    ensures Stand(codec, files[..p], segs[..p])
  {
    forall i | 0 <= i < p ensures Stands(codec, files[..p][i], segs[..p][i]) {
      assert Stands(codec, files[i], segs[i]);
    }
  }
}
