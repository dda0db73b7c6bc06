/** The key-value state machine fed by the Raft log. */
module StateMachine {
  import opened RaftTypes
  import opened RaftSteps

  datatype ApplyError = NoError | UnknownCommand

  class SimpleStateMachine {
    var data: map<string, string>
    var terms: map<string, nat>
    ghost var applied: seq<LogEntry>   // every entry given to Apply, in order

    function State(): Machine
      reads this
    {
      Machine(data, terms)
    }

    constructor ()
      ensures State() == EMPTY_MACHINE && applied == []
    {
      data, terms, applied := map[], map[], [];
    }

    method Apply(entry: LogEntry) returns (err: ApplyError)
      modifies this
      ensures State() == ApplyEntry(old(State()), entry) && applied == old(applied) + [entry]
      ensures err == UnknownCommand <==> entry.index != 0 && entry.command.kind == CommandUnknown
    {
      err := NoError;
      applied := applied + [entry];
      if entry.index == 0 { return; }
      match entry.command.kind
      case CommandPut => ApplyPut(entry);
      case CommandDelete => ApplyDelete(entry);
      case CommandGet =>
      case CommandUnknown => err := UnknownCommand;
    }

    method ApplyPut(entry: LogEntry)
      modifies this`data, this`terms
      ensures data == old(data)[entry.command.key := entry.command.value]
      ensures terms == old(terms)[entry.command.key := entry.term]
    {
      data := data[entry.command.key := entry.command.value];
      terms := terms[entry.command.key := entry.term];
    }

    method ApplyDelete(entry: LogEntry)
      modifies this`data, this`terms
      ensures data == old(data) - {entry.command.key} && terms == old(terms) - {entry.command.key}
    {
      data := data - {entry.command.key};
      terms := terms - {entry.command.key};
    }
  }

  function ApplyAll(m: Machine, entries: seq<LogEntry>): Machine {
    if |entries| == 0 then m else ApplyEntry(ApplyAll(m, entries[..|entries| - 1]), entries[|entries| - 1])
  }

  /** What a sequence of entries says about one key, read off its last write. */
  datatype Verdict = Silent | Absent | Present(value: string, term: nat)

  function Writes(entry: LogEntry, key: string): Verdict {
    if entry.index == 0 || entry.command.key != key then Silent
    else
      match entry.command.kind
      case CommandPut => Present(entry.command.value, entry.term)
      case CommandDelete => Absent
      case CommandGet => Silent
      case CommandUnknown => Silent
  }

  function LastWrite(entries: seq<LogEntry>, key: string): Verdict {
    if |entries| == 0 then Silent
    else
      var last := Writes(entries[|entries| - 1], key);
      if last != Silent then last else LastWrite(entries[..|entries| - 1], key)
  }

  ghost predicate SaysOf(m: Machine, key: string, v: Verdict) {
    match v
    case Silent => true
    case Absent => key !in m.data && key !in m.terms
    case Present(value, term) => key in m.data && m.data[key] == value && key in m.terms && m.terms[key] == term
  }

  ghost predicate SameAt(m: Machine, n: Machine, key: string) {
    && (key in m.data <==> key in n.data) && (key in m.data ==> m.data[key] == n.data[key])
    && (key in m.terms <==> key in n.terms) && (key in m.terms ==> m.terms[key] == n.terms[key])
  }

  /** After any entries, each key is as its last write left it, or untouched. */
  lemma {:induction false} ApplyAllAt(m: Machine, entries: seq<LogEntry>, key: string)
    ensures var v := LastWrite(entries, key); var m' := ApplyAll(m, entries);
      SaysOf(m', key, v) && (v == Silent ==> SameAt(m', m, key))
  {
    if |entries| > 0 {
      ApplyAllAt(m, entries[..|entries| - 1], key);
    }
  }

  lemma {:induction false} LastWriteOfTail(a: seq<LogEntry>, b: seq<LogEntry>, key: string)
    ensures LastWrite(a + b, key) == if LastWrite(b, key) != Silent then LastWrite(b, key) else LastWrite(a, key)
  {
    if |b| == 0 {
      assert a + b == a;
    } else {
      LastWriteOfTail(a, b[..|b| - 1], key);
      assert (a + b)[..|a + b| - 1] == a + b[..|b| - 1];
    }
  }

  /** Replay idempotence: applying again any contiguous tail of what has been applied changes
      neither data nor terms. */
  lemma ReplayIdempotent(m: Machine, a: seq<LogEntry>, tail: seq<LogEntry>)
    ensures ApplyAll(ApplyAll(m, a + tail), tail) == ApplyAll(m, a + tail)
  {
    var once := ApplyAll(m, a + tail);
    var twice := ApplyAll(once, tail);
    forall key ensures SameAt(twice, once, key) {
      ApplyAllAt(m, a + tail, key);
      ApplyAllAt(once, tail, key);
      LastWriteOfTail(a, tail, key);
    }
    SameEverywhere(twice, once);
  }

  lemma SameEverywhere(m: Machine, n: Machine)
    requires forall key :: SameAt(m, n, key)
    ensures m == n
  {
    assert forall key :: (key in m.data <==> key in n.data) && (key in m.data ==> m.data[key] == n.data[key]) by {
      forall key ensures (key in m.data <==> key in n.data) && (key in m.data ==> m.data[key] == n.data[key]) {
        assert SameAt(m, n, key);
      }
    }
    assert m.data == n.data;
    assert forall key :: (key in m.terms <==> key in n.terms) && (key in m.terms ==> m.terms[key] == n.terms[key]) by {
      forall key ensures (key in m.terms <==> key in n.terms) && (key in m.terms ==> m.terms[key] == n.terms[key]) {
        assert SameAt(m, n, key);
      }
    }
    assert m.terms == n.terms;
  }

  /** A key present in the machine carries the value and the term of the same log entry. */
  lemma DataAndTermsTogether(entries: seq<LogEntry>, key: string)
    ensures var m := ApplyAll(EMPTY_MACHINE, entries);
      (key in m.data <==> key in m.terms)
      && (key in m.data <==> LastWrite(entries, key).Present?)
      && (key in m.data ==> LastWrite(entries, key) == Present(m.data[key], m.terms[key]))
  {
    ApplyAllAt(EMPTY_MACHINE, entries, key);
  }
}
