/** Handing cache writes to their worker through a one-place channel in which the
    newest write replaces the one still waiting (crates/jabar-server/src/server.rs:
    293-314, 772-778, 1436-1455). The event loop is the only sender; the worker may
    take the waiting write between any two of its steps. Both ends stay connected as
    long as the server lives, because it holds a sender and a receiver itself. */
module CacheQueue {
  import opened Wrappers

  type Ticket = nat

  predicate Increasing(s: seq<Ticket>) {
    forall i, j :: 0 <= i < j < |s| ==> s[i] < s[j]
  }

  function Waiting(slot: Option<Ticket>): seq<Ticket> {
    if slot.Some? then [slot.value] else []
  }

  /** Every write offered was taken by the worker, replaced, or still waits, and each
      in the order offered; what waits is newer than anything taken or replaced. */
  ghost predicate Balanced(offered: seq<Ticket>, taken: seq<Ticket>, replaced: seq<Ticket>, slot: Option<Ticket>) {
    && Increasing(offered) && Increasing(taken + Waiting(slot)) && Increasing(replaced + Waiting(slot))
    && multiset(offered) == multiset(taken) + multiset(replaced) + multiset(Waiting(slot))
  }

  /** Besides, the newest write is waiting or was the last one taken. */
  ghost predicate Accounted(offered: seq<Ticket>, taken: seq<Ticket>, replaced: seq<Ticket>, slot: Option<Ticket>) {
    && Balanced(offered, taken, replaced, slot)
    && (offered != [] ==>
          var last := offered[|offered| - 1];
          slot == Some(last) || (slot == None && taken != [] && taken[|taken| - 1] == last))
  }

  /** The worker takes what waits, or the event loop takes it back. */
  lemma Leaves(offered: seq<Ticket>, taken: seq<Ticket>, replaced: seq<Ticket>, t: Ticket)
    requires Balanced(offered, taken, replaced, Some(t))
    ensures Balanced(offered, taken + [t], replaced, None) && Balanced(offered, taken, replaced + [t], None)
  {
    assert taken + [t] + [] == taken + [t] && replaced + [t] + [] == replaced + [t];
    IncreasingPrefix(taken, [t]);
    IncreasingPrefix(replaced, [t]);
    assert taken + [] == taken && replaced + [] == replaced;
  }

  lemma IncreasingPrefix(a: seq<Ticket>, b: seq<Ticket>)
    requires Increasing(a + b)
    ensures Increasing(a)
  {
    forall i, j | 0 <= i < j < |a|
      ensures a[i] < a[j]
    {
      assert (a + b)[i] == a[i] && (a + b)[j] == a[j];
    }
  }

  /** A write newer than all before it goes into the empty place. */
  lemma Enters(offered: seq<Ticket>, taken: seq<Ticket>, replaced: seq<Ticket>, t: Ticket)
    requires Balanced(offered, taken, replaced, None)
    requires offered != [] ==> offered[|offered| - 1] < t
    ensures Accounted(offered + [t], taken, replaced, Some(t))
  {
    assert taken + [] == taken && replaced + [] == replaced;
    NewerThanAll(offered, taken, replaced, t);
    NewerThanAll(offered, replaced, taken, t);
    AppendIncreasing(offered, t);
    AppendIncreasing(taken, t);
    AppendIncreasing(replaced, t);
  }

  lemma NewerThanAll(offered: seq<Ticket>, part: seq<Ticket>, other: seq<Ticket>, t: Ticket)
    requires Increasing(offered) && (offered != [] ==> offered[|offered| - 1] < t)
    requires multiset(offered) == multiset(part) + multiset(other) + multiset([])
    ensures forall i :: 0 <= i < |part| ==> part[i] < t
    ensures forall i :: 0 <= i < |offered| ==> offered[i] < t
  {
    forall i | 0 <= i < |part|
      ensures part[i] < t
    {
      assert part[i] in multiset(part) && part[i] in multiset(offered);
      var k :| 0 <= k < |offered| && offered[k] == part[i];
      assert k < |offered| - 1 ==> offered[k] < offered[|offered| - 1];
    }
  }

  lemma AppendIncreasing(s: seq<Ticket>, t: Ticket)
    requires Increasing(s) && forall i :: 0 <= i < |s| ==> s[i] < t
    ensures Increasing(s + [t])
  {
  }

  lemma IncreasingOnce(s: seq<Ticket>, t: Ticket)
    requires Increasing(s)
    ensures multiset(s)[t] <= 1
  {
    if s != [] {
      var front := s[..|s| - 1];
      assert s == front + [s[|s| - 1]];
      assert forall i :: 0 <= i < |front| ==> front[i] == s[i] < s[|s| - 1];
      IncreasingOnce(front, t);
    }
  }

  /** Every write has exactly one fate, and the newest one is never replaced: it is
      being waited on or has been taken. */
  lemma OneFateEach(offered: seq<Ticket>, taken: seq<Ticket>, replaced: seq<Ticket>, slot: Option<Ticket>, t: Ticket)
    requires Accounted(offered, taken, replaced, slot) && t in offered
    ensures multiset(taken)[t] + multiset(replaced)[t] + multiset(Waiting(slot))[t] == 1
    ensures t == offered[|offered| - 1] ==> t !in replaced
  {
    IncreasingOnce(offered, t);
    assert multiset(offered)[t] == multiset(taken)[t] + multiset(replaced)[t] + multiset(Waiting(slot))[t];
    if t == offered[|offered| - 1] {
      assert t in multiset(taken) || t in multiset(Waiting(slot));
    }
  }

  class Channel {
    /** The waiting write, and what became of all the others. */
    var slot: Option<Ticket>
    var taken: seq<Ticket>
    ghost var offered: seq<Ticket>
    ghost var replaced: seq<Ticket>

    ghost predicate Valid()
      reads this
    {
      Accounted(offered, taken, replaced, slot)
    }

    constructor ()
      ensures Valid() && offered == taken == replaced == [] && slot == None
    {
      slot, taken, offered, replaced := None, [], [], [];
    }

    /** Any number of turns of the worker between two steps of the event loop: each may
        receive the waiting write, if there is one, and run it. */
    method WorkerTurns()
      requires Balanced(offered, taken, replaced, slot)
      modifies this`slot, this`taken
      ensures Balanced(offered, taken, replaced, slot)
      ensures (slot == old(slot) && taken == old(taken))
              || (old(slot).Some? && slot == None && taken == old(taken) + [old(slot).value])
    {
      var turns: nat := *;
      while turns > 0
        invariant Balanced(offered, taken, replaced, slot)
        invariant (slot == old(slot) && taken == old(taken))
                  || (old(slot).Some? && slot == None && taken == old(taken) + [old(slot).value])
      {
        if slot.Some? {
          Leaves(offered, taken, replaced, slot.value);
          taken := taken + [slot.value];
          slot := None;
        }
        turns := turns - 1;
      }
    }

    /** `send_latest`: gets the new write into the channel in at most two passes,
        whatever the worker does meanwhile, replacing at most one older write. */
    method SendLatest(value: Ticket) returns (passes: nat)
      requires Valid() && (offered != [] ==> offered[|offered| - 1] < value)
      modifies this
      ensures Valid() && passes <= 2 && slot == Some(value) && offered == old(offered) + [value]
      ensures replaced == old(replaced) || (old(slot).Some? && replaced == old(replaced) + [old(slot).value])
      ensures taken == old(taken) || (old(slot).Some? && taken == old(taken) + [old(slot).value])
    {
      passes := 0;
      while true
        invariant passes <= 1 && offered == old(offered)
        invariant passes == 1 ==> slot == None
        invariant Balanced(offered, taken, replaced, slot)
        invariant || (slot == old(slot) && taken == old(taken) && replaced == old(replaced))
                  || (slot == None && old(slot).Some? && replaced == old(replaced) && taken == old(taken) + [old(slot).value])
                  || (slot == None && old(slot).Some? && taken == old(taken) && replaced == old(replaced) + [old(slot).value])
        decreases 2 - passes
      {
        WorkerTurns();
        passes := passes + 1;
        if slot.None? {
          Enters(offered, taken, replaced, value);
          slot := Some(value);
          offered := offered + [value];
          return;
        }
        WorkerTurns();
        if slot.Some? {
          Leaves(offered, taken, replaced, slot.value);
          replaced := replaced + [slot.value];
          slot := None;
        }
      }
    }
  }
}
