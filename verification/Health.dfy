/**
 What the daemon logs about failing collectors: the faithful difference between one snapshot's faults
 and the next one's. Models `record_collector_health` in crates/daemon/src/state.rs.
 */
module Health {

  datatype Collector = Kraken | Cpu | Gpu | Memory

  /** One collector's fault, as a snapshot reports it. */
  datatype Fault = Fault(collector: Collector, detail: string)

  type Faults = map<Collector, string>

  datatype Note = Failed(collector: Collector, detail: string) | Recovered(collector: Collector)

  /** A snapshot's faults by collector; a later one replaces an earlier one. */
  function Failing(faults: seq<Fault>): Faults {
    if faults == [] then map[]
    else Failing(faults[..|faults| - 1])[faults[|faults| - 1].collector := faults[|faults| - 1].detail]
  }

  /** Reading the log back: what it says is failing. */
  function Replay(from: Faults, notes: seq<Note>): Faults {
    if notes == [] then from
    else
      var before := Replay(from, notes[..|notes| - 1]);
      match notes[|notes| - 1]
      case Failed(c, detail) => before[c := detail]
      case Recovered(c) => before - {c}
  }

  /** The collector is failing now, and was not failing like that before. */
  predicate Worse(was: Faults, now: Faults, c: Collector) {
    c in now && !(c in was && was[c] == now[c])
  }

  predicate Better(was: Faults, now: Faults, c: Collector) {
    c in was && c !in now
  }

  /** The note says something that is so now and was not before. */
  predicate News(was: Faults, now: Faults, note: Note) {
    match note
    case Failed(c, detail) => Worse(was, now, c) && now[c] == detail
    case Recovered(c) => Better(was, now, c)
  }

  predicate OncePerCollector(notes: seq<Note>) {
    forall i, j :: 0 <= i < j < |notes| ==> notes[i].collector != notes[j].collector
  }

  /** The notes are the difference between two snapshots: every change once, and nothing else. */
  ghost predicate Faithful(was: Faults, now: Faults, notes: seq<Note>) {
    && (forall note :: note in notes ==> News(was, now, note))
    && OncePerCollector(notes)
    && (forall c :: Worse(was, now, c) ==> Failed(c, now[c]) in notes)
    && (forall c :: Better(was, now, c) ==> Recovered(c) in notes)
  }

  lemma {:induction false} ReplayOfOne(from: Faults, notes: seq<Note>, c: Collector)
    requires OncePerCollector(notes)
    ensures (forall k :: 0 <= k < |notes| ==> notes[k].collector != c) ==>
      (c in Replay(from, notes) <==> c in from) && (c in from ==> Replay(from, notes)[c] == from[c])
    ensures forall k :: 0 <= k < |notes| && notes[k].collector == c ==>
      match notes[k]
      case Failed(_, detail) => c in Replay(from, notes) && Replay(from, notes)[c] == detail
      case Recovered(_) => c !in Replay(from, notes)
  {
    if notes != [] {
      var n := |notes| - 1;
      ReplayOfOne(from, notes[..n], c);
      assert forall k :: 0 <= k < n ==> notes[..n][k] == notes[k];
    }
  }

  /** A log that is faithful about each collector rebuilds exactly what is failing now. */
  lemma FaithfulNotesRebuild(was: Faults, now: Faults, notes: seq<Note>)
    requires Faithful(was, now, notes)
    ensures Replay(was, notes) == now
  {
    forall c: Collector
      ensures c in Replay(was, notes) <==> c in now
      ensures c in now ==> Replay(was, notes)[c] == now[c]
    {
      ReplayOfOne(was, notes, c);
      if Worse(was, now, c) {
        var k :| 0 <= k < |notes| && notes[k] == Failed(c, now[c]);
        assert notes[k].collector == c;
      } else if Better(was, now, c) {
        var k :| 0 <= k < |notes| && notes[k] == Recovered(c);
        assert notes[k].collector == c;
      } else {
        forall k | 0 <= k < |notes| ensures notes[k].collector != c {
          assert notes[k] in notes && News(was, now, notes[k]);
        }
      }
    }
  }

  lemma {:induction false} ReplayJoins(from: Faults, a: seq<Note>, b: seq<Note>)
    ensures Replay(from, a + b) == Replay(Replay(from, a), b)
  {
    if b == [] {
      assert a + b == a;
    } else {
      var n := |b| - 1;
      assert (a + b)[..|a + b| - 1] == a + b[..n];
      ReplayJoins(from, a, b[..n]);
    }
  }

  /** The collectors in the order an ordered map lists its keys. */
  const ORDER: seq<Collector> := [Kraken, Cpu, Gpu, Memory]

  lemma EveryCollectorIsListed()
    ensures forall c: Collector :: c in ORDER[..|ORDER|]
  {
    assert ORDER[..|ORDER|] == ORDER;
    assert ORDER[0] == Kraken && ORDER[1] == Cpu && ORDER[2] == Gpu && ORDER[3] == Memory;
    forall c: Collector ensures c in ORDER[..|ORDER|] {
      match c { case Kraken => case Cpu => case Gpu => case Memory => }
    }
  }

  /** Every note in the order it was written so far is news of one kind, once, about these collectors. */
  ghost predicate Pass(was: Faults, now: Faults, notes: seq<Note>, seen: seq<Collector>) {
    && (forall note :: note in notes ==> note.collector in seen && News(was, now, note))
    && OncePerCollector(notes)
  }

  method Collect(faults: seq<Fault>) returns (current: Faults)
    ensures current == Failing(faults)
  {
    current := map[];
    for i := 0 to |faults|
      invariant current == Failing(faults[..i])
    {
      assert faults[..i + 1][..i] == faults[..i];
      current := current[faults[i].collector := faults[i].detail];
    }
    assert faults[..|faults|] == faults;
  }

  /** What started failing, or failed differently. */
  method NoteFailures(was: Faults, now: Faults) returns (notes: seq<Note>)
    ensures Pass(was, now, notes, ORDER) && forall note :: note in notes ==> note.Failed?
    ensures forall c :: Worse(was, now, c) ==> Failed(c, now[c]) in notes
  {
    notes := [];
    for i := 0 to |ORDER|
      invariant Pass(was, now, notes, ORDER[..i]) && forall note :: note in notes ==> note.Failed?
      invariant forall c :: c in ORDER[..i] && Worse(was, now, c) ==> Failed(c, now[c]) in notes
    {
      var c := ORDER[i];
      assert c !in ORDER[..i];
      if Worse(was, now, c) {
        notes := notes + [Failed(c, now[c])];
      }
    }
    EveryCollectorIsListed();
  }

  /** What stopped failing. */
  method NoteRecoveries(was: Faults, now: Faults) returns (notes: seq<Note>)
    ensures Pass(was, now, notes, ORDER) && forall note :: note in notes ==> note.Recovered?
    ensures forall c :: Better(was, now, c) ==> Recovered(c) in notes
  {
    notes := [];
    for i := 0 to |ORDER|
      invariant Pass(was, now, notes, ORDER[..i]) && forall note :: note in notes ==> note.Recovered?
      invariant forall c :: c in ORDER[..i] && Better(was, now, c) ==> Recovered(c) in notes
    {
      var c := ORDER[i];
      assert c !in ORDER[..i];
      if Better(was, now, c) {
        notes := notes + [Recovered(c)];
      }
    }
    EveryCollectorIsListed();
  }

  /** The two passes never speak of the same collector. */
  lemma PassesJoin(was: Faults, now: Faults, failed: seq<Note>, recovered: seq<Note>)
    requires Pass(was, now, failed, ORDER) && Pass(was, now, recovered, ORDER)
    requires forall note :: note in failed ==> note.Failed?
    requires forall note :: note in recovered ==> note.Recovered?
    requires forall c :: Worse(was, now, c) ==> Failed(c, now[c]) in failed
    requires forall c :: Better(was, now, c) ==> Recovered(c) in recovered
    ensures Faithful(was, now, failed + recovered)
  {
    var notes := failed + recovered;
    forall i, j | 0 <= i < j < |notes| ensures notes[i].collector != notes[j].collector {
      if i < |failed| && |failed| <= j {
        assert notes[i] in failed && notes[j] in recovered;
        assert News(was, now, notes[i]) && News(was, now, notes[j]);
      }
    }
  }

  class HealthLog {
    /** What the last snapshot reported. */
    var reported: Faults
    /** Every note ever written. */
    var notes: seq<Note>

    /** What is reported is what the log says. */
    ghost predicate Valid()
      reads this
    {
      Replay(map[], notes) == reported
    }

    constructor ()
      ensures Valid() && reported == map[] && notes == []
    {
      reported, notes := map[], [];
    }

    /** Two passes over the same two maps: what started or changed, then what stopped. */
    method Record(faults: seq<Fault>) returns (added: seq<Note>)
      requires Valid()
      modifies this
      ensures Valid()
      ensures reported == Failing(faults)
      ensures notes == old(notes) + added && Faithful(old(reported), Failing(faults), added)
      ensures added == [] <==> Failing(faults) == old(reported)
    {
      var current := Collect(faults);
      var failed := NoteFailures(reported, current);
      var recovered := NoteRecoveries(reported, current);
      added := failed + recovered;
      PassesJoin(reported, current, failed, recovered);
      FaithfulNotesRebuild(reported, current, added);
      ReplayJoins(map[], notes, added);
      AnUnchangedFaultIsSilent(reported, current, added);
      notes := notes + added;
      reported := current;
    }
  }

  /** The same faults again add nothing to the log, and only then. */
  lemma AnUnchangedFaultIsSilent(was: Faults, now: Faults, notes: seq<Note>)
    requires Faithful(was, now, notes)
    ensures notes == [] <==> was == now
  {
    if notes == [] {
      FaithfulNotesRebuild(was, now, notes);
    } else {
      assert News(was, now, notes[0]);
    }
  }

  /** What a snapshot says of a collector is the last fault it lists for it. */
  lemma {:induction false} TheLastFaultCounts(faults: seq<Fault>, k: nat)
    requires k < |faults|
    requires forall j :: k < j < |faults| ==> faults[j].collector != faults[k].collector
    ensures faults[k].collector in Failing(faults) && Failing(faults)[faults[k].collector] == faults[k].detail
  {
    var n := |faults| - 1;
    if k < n {
      assert faults[..n][k] == faults[k];
      TheLastFaultCounts(faults[..n], k);
    }
  }

  /** And nothing when it lists none. */
  lemma {:induction false} NoFaultNoEntry(faults: seq<Fault>, c: Collector)
    requires forall k :: 0 <= k < |faults| ==> faults[k].collector != c
    ensures c !in Failing(faults)
  {
    if faults != [] {
      NoFaultNoEntry(faults[..|faults| - 1], c);
    }
  }
}
