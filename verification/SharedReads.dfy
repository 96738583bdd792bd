/** What the threads of SharedList get to see, told by the calls alone: every find returns what the last insert of its index
    stored, toggled as often as there were toggles since. */
module SharedReads {
  import opened ListMemory
  import opened Wrappers
  import opened SharedList
  import L = RwLock
  import Lin = Linearizability

  predicate InsertsAt(e: Entry, k: int) {
    e.op.Insert? && e.op.index == k
  }

  predicate TogglesAt(e: Entry, k: int) {
    e.op.Toggle? && e.op.index == k
  }

  /** How many toggles of index k there are from entry j on. */
  function Toggles(log: seq<Entry>, j: nat, k: int): nat {
    if |log| <= j then 0
    else Toggles(log[..|log| - 1], j, k) + if TogglesAt(log[|log| - 1], k) then 1 else 0
  }

  /** A record toggled n times: its onoff counts as 1 or, whatever else it was, as 0. */
  function ToggledBy(d: Output, n: nat): Output {
    if n == 0 then d else d.(onoff := ((if d.onoff == 1 then 1 else 0) + n) % 2)
  }

  /** Entry j is the last insert of index k. */
  ghost predicate LastInsert(log: seq<Entry>, j: nat, k: int) {
    j < |log| && InsertsAt(log[j], k) && forall i | j < i < |log| :: !InsertsAt(log[i], k)
  }

  lemma {:induction false} KeyAfterInsert(log: seq<Entry>, j: nat, k: int)
    requires LastInsert(log, j, k)
    ensures k in Replay(log) && Replay(log)[k] == ToggledBy(log[j].op.data, Toggles(log, j + 1, k))
  {
    var n := |log| - 1;
    if j < n {
      KeyAfterInsert(log[..n], j, k);
    }
  }

  lemma {:induction false} KeyNeverInserted(log: seq<Entry>, k: int)
    requires forall i | 0 <= i < |log| :: !InsertsAt(log[i], k)
    ensures k !in Replay(log)
  {
    if log != [] {
      KeyNeverInserted(log[..|log| - 1], k);
    }
  }

  /** In every run of any number of threads: a find of k returns the data of the last insert of k before it, with onoff flipped as
      often as k was toggled since; a toggle of k returns, as 0 or 1, the state it leaves. */
  lemma ReadsLastWrite(n: nat, run: seq<Action>, s: Shared, i: nat, j: nat, k: int)
    requires Lin.Reaches(n, run, s) && i < |s.log| && !s.log[i].op.Insert? && s.log[i].op.index == k
    requires LastInsert(s.log[..i], j, k)
    ensures var d, since := s.log[j].op.data, Toggles(s.log[..i], j + 1, k);
            if s.log[i].op.Find? then s.log[i].result == Found(Some(ToggledBy(d, since)))
            else s.log[i].result == Toggled(Some(((if d.onoff == 1 then 1 else 0) + since + 1) % 2))
  {
    ResultIsSpec(n, run, s, i);
    KeyAfterInsert(s.log[..i], j, k);
  }

  /** Before the first insert of k there is nothing to find or to toggle. */
  lemma ReadsNothing(n: nat, run: seq<Action>, s: Shared, i: nat, k: int)
    requires Lin.Reaches(n, run, s) && i < |s.log| && !s.log[i].op.Insert? && s.log[i].op.index == k
    requires forall j | 0 <= j < i :: !InsertsAt(s.log[j], k)
    ensures s.log[i].result == if s.log[i].op.Find? then Found(None) else Toggled(None)
  {
    ResultIsSpec(n, run, s, i);
    assert forall j | 0 <= j < i :: s.log[..i][j] == s.log[j];
    KeyNeverInserted(s.log[..i], k);
  }

  lemma ResultIsSpec(n: nat, run: seq<Action>, s: Shared, i: nat)
    requires Lin.Reaches(n, run, s) && i < |s.log|
    ensures s.log[i].result == SpecResult(Replay(s.log[..i]), s.log[i].op)
  {
    Lin.Linearizable(n, run, s);
  }

  /** Two toggles with no other write between give the record back, if it said 0 or 1. */
  lemma ToggledTwice(d: Output, n: nat)
    requires 0 <= d.onoff <= 1
    ensures ToggledBy(d, n + 2) == ToggledBy(d, n) && ToggledBy(d, 0) == d
    ensures ToggledBy(d, n + 1).onoff == 1 - ToggledBy(d, n).onoff
  {
    assert (d.onoff + n + 2) % 2 == (d.onoff + n) % 2;
  }

  /** Every toggle that found its index returned 0 or 1. */
  lemma TogglesReturnBits(n: nat, run: seq<Action>, s: Shared, i: nat)
    requires Lin.Reaches(n, run, s) && i < |s.log| && s.log[i].op.Toggle?
    ensures s.log[i].result.Toggled?
    ensures s.log[i].result.onoff.Some? ==> 0 <= s.log[i].result.onoff.value <= 1
  {
    ResultIsSpec(n, run, s, i);
  }
}
