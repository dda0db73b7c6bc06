/** The engine over the log: what a restart rebuilds from the segments on disk. */
module Recovery {
  import F = WalFrames
  import W = WalStore
  import R = WalRuns
  import opened EngineSteps
  import opened EngineReplay

  /** A command as the bytes of a record, and back. */
  datatype Coding = Coding(encode: Command -> F.Bytes, decode: F.Bytes -> Command)

  ghost predicate Faithful(coding: Coding) {
    forall c :: coding.decode(coding.encode(c)) == c
  }

  function Decoded(coding: Coding, records: seq<F.Record>): (cs: seq<Command>)
    ensures |cs| == |records|
  {
    seq(|records|, i requires 0 <= i < |records| => coding.decode(records[i].command))
  }

  /** The log calls append these commands, in this order; terms may change and the log may be
      reopened in between. */
  predicate Appends(coding: Coding, calls: seq<R.Call>, cs: seq<Command>) {
    |R.Commands(calls)| == |cs| && forall i :: 0 <= i < |cs| ==> R.Commands(calls)[i] == coding.encode(cs[i])
  }

  lemma HistoryDecodes(coding: Coding, records: seq<F.Record>, calls: seq<R.Call>, cs: seq<Command>)
    requires Faithful(coding) && Appends(coding, calls, cs) && |records| == |cs|
    requires forall i :: 0 <= i < |cs| ==> records[i].command == R.Commands(calls)[i]
    ensures Decoded(coding, records) == cs
  {
    forall i | 0 <= i < |cs| ensures Decoded(coding, records)[i] == cs[i] {
      assert records[i].command == coding.encode(cs[i]);
    }
  }

  /** End to end: if the log calls append what the engine logs, then after any run the segments can
      be read, and replaying them gives back each key as memory holds it exactly when the key's account
      is settled and memory holds the last value logged; of the keys that no committed transaction
      touches, those that memory holds come back with their values in any case. */
  lemma DiskRecoversExactlyWhen(
    coding: Coding, codec: F.Codec, maxSize: int, calls: seq<R.Call>, es: seq<Event>, k: Key)
    requires F.RoundTrips(codec) && Faithful(coding)
    requires R.AllAllowed(codec, W.Open([], maxSize), calls) && AllPossible(es)
    requires Appends(coding, calls, Run(EMPTY, es).log)
    ensures var s, read := Run(EMPTY, es), W.ReadFiles(codec, R.Run(codec, W.Open([], maxSize), calls).files);
      && read.Ok?
      && (Agree(s.data, Replay(Decoded(coding, read.value)), k) <==> Settled(es, k))
      && (AllLeaveAlone(es, k) && k in s.data ==>
            k in Replay(Decoded(coding, read.value))
            && Replay(Decoded(coding, read.value))[k].value == s.data[k].value)
  {
    R.EverythingReadsBack(codec, maxSize, calls);
    R.HistoryHoldsCommands(codec, W.Open([], maxSize), calls);
    HistoryDecodes(coding, R.History(codec, W.Open([], maxSize), calls), calls, Run(EMPTY, es).log);
    RecoversExactlyWhen(es, k);
    if AllLeaveAlone(es, k) && k in Run(EMPTY, es).data { HeldKeysRecover(es, k); }
  }
}
