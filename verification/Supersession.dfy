/** Which records of an accepted fulfillment log are still in force. */
module Supersession {
  import opened Wrappers
  import opened FulfillmentRecords
  import opened FulfillmentStore

  function RecordsFor(records: seq<Record>, binding: Binding): seq<Record> {
    if records == [] then []
    else (if records[0].binding == binding then [records[0]] else []) + RecordsFor(records[1..], binding)
  }

  function SupersededIds(records: seq<Record>): set<string> {
    set r | r in records && r.supersedes.Some? :: r.supersedes.value
  }

  function Without(records: seq<Record>, ids: set<string>): seq<Record> {
    if records == [] then []
    else (if records[0].id !in ids then [records[0]] else []) + Without(records[1..], ids)
  }

  /** The records of one contract binding that no record of that binding supersedes. */
  function ActiveRecords(records: seq<Record>, binding: Binding): seq<Record> {
    var scoped := RecordsFor(records, binding);
    Without(scoped, SupersededIds(scoped))
  }

  lemma RecordsForMembers(records: seq<Record>, binding: Binding)
    ensures forall r :: r in RecordsFor(records, binding) <==> r in records && r.binding == binding
  {
  }

  lemma WithoutMembers(records: seq<Record>, ids: set<string>)
    ensures forall r :: r in Without(records, ids) <==> r in records && r.id !in ids
  {
  }

  /** Dropping ids and keeping one binding commute when only that binding's ids matter. */
  lemma WithoutRecordsFor(records: seq<Record>, binding: Binding, local: set<string>, all: set<string>)
    requires forall r <- records :: r.binding == binding ==> (r.id in local <==> r.id in all)
    ensures Without(RecordsFor(records, binding), local) == RecordsFor(Without(records, all), binding)
  {
    if records != [] {
      var rest := records[1..];
      WithoutRecordsFor(rest, binding, local, all);
      var first := records[0];
      assert first in records;
      WithoutConcat(if first.binding == binding then [first] else [], RecordsFor(rest, binding), local);
      RecordsForConcat(if first.id !in all then [first] else [], Without(rest, all), binding);
    }
  }

  lemma WithoutConcat(a: seq<Record>, b: seq<Record>, ids: set<string>)
    ensures Without(a + b, ids) == Without(a, ids) + Without(b, ids)
  {
    if a != [] {
      assert (a + b)[1..] == a[1..] + b;
    } else {
      assert a + b == b;
    }
  }

  lemma RecordsForConcat(a: seq<Record>, b: seq<Record>, binding: Binding)
    ensures RecordsFor(a + b, binding) == RecordsFor(a, binding) + RecordsFor(b, binding)
  {
    if a != [] {
      assert (a + b)[1..] == a[1..] + b;
    } else {
      assert a + b == b;
    }
  }

  /** In an accepted log it makes no difference whether supersession is computed per binding or globally. */
  lemma ActiveIsGlobal(lines: seq<Envelope>, binding: Binding)
    requires ReadLines(lines).Success?
    ensures var records := ReadLines(lines).value;
            ActiveRecords(records, binding) == RecordsFor(Without(records, SupersededIds(records)), binding)
  {
    AcceptedIffValid(lines);
    var records := Records(lines);
    var scoped := RecordsFor(records, binding);
    RecordsForMembers(records, binding);
    forall r | r in records && r.binding == binding
      ensures r.id in SupersededIds(scoped) <==> r.id in SupersededIds(records)
    {
      if r.id in SupersededIds(records) {
        var x :| x in records && x.supersedes == Some(r.id);
        var i :| 0 <= i < |records| && records[i] == x;
        var j :| 0 <= j < i && Supersedes(records, i, j);
        var k :| 0 <= k < |records| && records[k] == r;
        assert j == k;
        assert x in scoped;
      }
    }
    WithoutRecordsFor(records, binding, SupersededIds(scoped), SupersededIds(records));
  }

  /** Each record of the chain supersedes the next one. */
  ghost predicate Chain(records: seq<Record>, chain: seq<nat>) {
    && chain != []
    && (forall i :: 0 <= i < |chain| ==> chain[i] < |records|)
    && (forall i :: 0 <= i < |chain| - 1 ==> Supersedes(records, chain[i], chain[i + 1]))
  }

  /** A supersession chain from a record in force down to record `i`. */
  ghost predicate HeirChain(records: seq<Record>, chain: seq<nat>, i: nat)
    requires i < |records|
  {
    && Chain(records, chain) && chain[|chain| - 1] == i
    && records[chain[0]] in ActiveRecords(records, records[i].binding)
  }

  /** A record not in force is superseded, later in the log and within its own binding. */
  lemma SupersededLater(records: seq<Record>, i: nat) returns (k: nat)
    requires DistinctIds(records) && SupersedesBackward(records)
    requires i < |records| && records[i] !in ActiveRecords(records, records[i].binding)
    ensures i < k < |records| && Supersedes(records, k, i)
  {
    var scoped := RecordsFor(records, records[i].binding);
    RecordsForMembers(records, records[i].binding);
    WithoutMembers(scoped, SupersededIds(scoped));
    var x :| x in scoped && x.supersedes == Some(records[i].id);
    k :| k < |records| && records[k] == x;
    var j :| 0 <= j < k && Supersedes(records, k, j);
  }

  lemma {:induction false} ActiveHeir(records: seq<Record>, i: nat)
    requires DistinctIds(records) && SupersedesBackward(records) && i < |records|
    ensures exists chain :: HeirChain(records, chain, i)
    decreases |records| - i
  {
    if records[i] in ActiveRecords(records, records[i].binding) {
      assert HeirChain(records, [i], i);
    } else {
      var k := SupersededLater(records, i);
      ActiveHeir(records, k);
      var chain :| HeirChain(records, chain, k);
      assert HeirChain(records, chain + [i], i);
    }
  }

  /**
   Every record of an accepted log is in force, or is reached by a supersession chain from one
   that is. Chains run strictly backward in the log and stay inside one binding.
   */
  lemma EveryRecordHasActiveHeir(lines: seq<Envelope>, i: nat)
    requires ReadLines(lines).Success? && i < |lines|
    ensures exists chain :: HeirChain(Records(lines), chain, i)
  {
    AcceptedIffValid(lines);
    ActiveHeir(Records(lines), i);
  }

  /** A chain runs strictly backward, so supersession has no cycles. */
  lemma {:induction false} ChainsDescend(records: seq<Record>, chain: seq<nat>, i: nat, j: nat)
    requires Chain(records, chain) && i < j < |chain|
    ensures chain[j] < chain[i] && records[chain[j]].binding == records[chain[i]].binding
  {
    assert Supersedes(records, chain[j - 1], chain[j]);
    if i < j - 1 {
      ChainsDescend(records, chain, i, j - 1);
    }
  }

  /** Some record of a binding is in force as soon as the binding has a record at all. */
  lemma ActiveNonEmpty(lines: seq<Envelope>, binding: Binding)
    requires ReadLines(lines).Success?
    ensures RecordsFor(ReadLines(lines).value, binding) == [] <==> ActiveRecords(ReadLines(lines).value, binding) == []
  {
    AcceptedIffValid(lines);
    var records := Records(lines);
    RecordsForMembers(records, binding);
    var scoped := RecordsFor(records, binding);
    if scoped != [] {
      assert scoped[0] in records;
      var i: nat :| i < |records| && records[i] == scoped[0];
      ActiveHeir(records, i);
    }
  }
}
