/** Cache entries, the counters that limit them, and the choice of a victim. */
module Caches {
  import opened Words

  /** A cached page; `pid` is negative while the entry is free. */
  datatype Entry = Entry(pid: int, page: int, content: seq<byte>, written: bool, lastUsed: nat)

  /** How many entries a process has been charged for, in 16 bits. */
  datatype Quota = Quota(pid: int, entries: int16)

  const MISS := -1

  // ---------- looking up ----------

  predicate Holds(es: seq<Entry>, i: int, pid: int, page: int) {
    0 <= i < |es| && es[i].pid == pid && es[i].page == page
  }

  /** The first entry that holds the page, or MISS. */
  function FindEntry(es: seq<Entry>, pid: int, page: int, from: nat): (r: int)
    requires from <= |es|
    ensures r == MISS || (from <= r && Holds(es, r, pid, page))
    ensures forall i :: from <= i < (if r == MISS then |es| else r) ==> !Holds(es, i, pid, page)
    decreases |es| - from
  {
    if from == |es| then MISS
    else if Holds(es, from, pid, page) then from
    else FindEntry(es, pid, page, from + 1)
  }

  // ---------- counters ----------

  predicate Known(qs: seq<Quota>, pid: int) {
    exists i :: 0 <= i < |qs| && qs[i].pid == pid
  }

  function Counter(qs: seq<Quota>, pid: int): int16 {
    if qs == [] then 0 else if qs[0].pid == pid then qs[0].entries else Counter(qs[1..], pid)
  }

  /** The signed counter is compared with the unsigned limit. */
  predicate UsedUp(entries: int16, most: nat) {
    U32(entries) >= most
  }

  /** A process on the list that has used up its quota. */
  predicate Exceeded(qs: seq<Quota>, pid: int, most: nat) {
    Known(qs, pid) && UsedUp(Counter(qs, pid), most)
  }

  /** Charging the process once more would not wrap its counter around. */
  predicate Countable(qs: seq<Quota>, pid: int, most: nat) {
    Exceeded(qs, pid, most) || Counter(qs, pid) < 0x7fff
  }

  /** The list after a miss of `pid`. */
  function Charged(qs: seq<Quota>, pid: int, most: nat): seq<Quota> {
    if qs == [] then [Quota(pid, 1)]
    else if qs[0].pid == pid then [if UsedUp(qs[0].entries, most) then qs[0] else Quota(pid, Next16(qs[0].entries))] + qs[1..]
    else [qs[0]] + Charged(qs[1..], pid, most)
  }

  /** The most entries a process is ever charged for: a newcomer gets one whatever the limit. */
  function Limit(most: nat): (l: nat)
    ensures l >= 1 && l >= most
  {
    if most == 0 then 1 else most
  }

  ghost predicate CountersOk(qs: seq<Quota>, limit: nat) {
    && (forall i :: 0 <= i < |qs| ==> 1 <= qs[i].entries <= limit)
    && forall i, j :: 0 <= i < j < |qs| ==> qs[i].pid != qs[j].pid
  }

  lemma {:induction false} CounterAt(qs: seq<Quota>, pid: int)
    ensures Known(qs, pid) ==> exists i :: 0 <= i < |qs| && qs[i].pid == pid && qs[i].entries == Counter(qs, pid)
    ensures !Known(qs, pid) ==> Counter(qs, pid) == 0
  {
    if qs != [] {
      var tail := qs[1..];
      CounterAt(tail, pid);
      KnownCons(qs[0], tail, pid);
      assert qs == [qs[0]] + tail;
      if qs[0].pid != pid && Known(qs, pid) {
        var i :| 0 <= i < |tail| && tail[i].pid == pid && tail[i].entries == Counter(tail, pid);
        assert qs[i + 1] == tail[i];
      }
    }
  }

  lemma KnownCons(q: Quota, qs: seq<Quota>, pid: int)
    ensures Known([q] + qs, pid) <==> q.pid == pid || Known(qs, pid)
  {
    var all := [q] + qs;
    assert all[0] == q;
    if Known(qs, pid) {
      var i :| 0 <= i < |qs| && qs[i].pid == pid;
      assert all[i + 1].pid == pid;
    }
  }

  lemma {:induction false} ChargedCounter(qs: seq<Quota>, pid: int, most: nat, p: int)
    ensures Counter(Charged(qs, pid, most), p) ==
      if p == pid && !Exceeded(qs, pid, most) then Next16(Counter(qs, p)) else Counter(qs, p)
  {
    if qs != [] {
      assert qs == [qs[0]] + qs[1..];
      KnownCons(qs[0], qs[1..], pid);
      if qs[0].pid != pid { ChargedCounter(qs[1..], pid, most, p); }
    }
  }

  lemma {:induction false} ChargedKnown(qs: seq<Quota>, pid: int, most: nat, p: int)
    ensures Known(Charged(qs, pid, most), p) <==> Known(qs, p) || p == pid
  {
    if qs == [] {
      assert Charged(qs, pid, most)[0].pid == pid;
    } else {
      var c := Charged(qs, pid, most);
      assert qs == [qs[0]] + qs[1..] && c == [c[0]] + c[1..];
      KnownCons(qs[0], qs[1..], p);
      KnownCons(c[0], c[1..], p);
      if qs[0].pid != pid { ChargedKnown(qs[1..], pid, most, p); }
    }
  }

  lemma CountableTail(qs: seq<Quota>, pid: int, most: nat)
    requires qs != [] && qs[0].pid != pid
    ensures Countable(qs[1..], pid, most) <==> Countable(qs, pid, most)
    ensures Known(qs[1..], pid) <==> Known(qs, pid)
  {
    assert qs == [qs[0]] + qs[1..];
    KnownCons(qs[0], qs[1..], pid);
  }

  /** The head of the list is charged. */
  lemma ChargedHead(qs: seq<Quota>, pid: int, most: nat)
    requires qs != [] && qs[0].pid == pid && Countable(qs, pid, most) && CountersOk(qs, Limit(most))
    ensures CountersOk(Charged(qs, pid, most), Limit(most)) && Known(qs, pid)
  {
    var c := Charged(qs, pid, most);
    assert c[1..] == qs[1..];
    assert U32(qs[0].entries) == qs[0].entries;
    forall i | 0 < i < |c| ensures c[i] == qs[i] { assert c[i] == c[1..][i - 1]; }
  }

  lemma {:induction false} ChargedOk(qs: seq<Quota>, pid: int, most: nat)
    requires CountersOk(qs, Limit(most)) && Countable(qs, pid, most)
    ensures CountersOk(Charged(qs, pid, most), Limit(most))
    ensures |Charged(qs, pid, most)| == |qs| + if Known(qs, pid) then 0 else 1
  {
    hide Countable, Known;
    if qs == [] {
      assert !Known(qs, pid) by { NobodyKnown(pid); }
    } else if qs[0].pid == pid {
      ChargedHead(qs, pid, most);
    } else {
      var tail := Charged(qs[1..], pid, most);
      CountableTail(qs, pid, most);
      ChargedOk(qs[1..], pid, most);
      forall j | 0 <= j < |tail| ensures tail[j].pid != qs[0].pid { ChargedMember(qs, pid, most, j); }
    }
  }

  lemma NobodyKnown(pid: int)
    ensures !Known([], pid)
  {
  }

  lemma ChargedMember(qs: seq<Quota>, pid: int, most: nat, j: nat)
    requires qs != [] && qs[0].pid != pid && j < |Charged(qs[1..], pid, most)|
    requires forall i :: 0 < i < |qs| ==> qs[i].pid != qs[0].pid
    ensures Charged(qs[1..], pid, most)[j].pid != qs[0].pid
  {
    var tail := Charged(qs[1..], pid, most);
    assert Known(tail, tail[j].pid);
    ChargedKnown(qs[1..], pid, most, tail[j].pid);
  }

  /** A limit that fits the counter keeps it from wrapping around. */
  lemma SmallLimit(qs: seq<Quota>, pid: int, most: nat)
    requires CountersOk(qs, Limit(most)) && most <= 0x7fff
    ensures Countable(qs, pid, most)
  {
    CounterAt(qs, pid);
    if Counter(qs, pid) == 0x7fff {
      var i :| 0 <= i < |qs| && qs[i].pid == pid && qs[i].entries == 0x7fff;
      assert Limit(most) >= 0x7fff;
    }
  }

  /** The list after `n` misses of `pid`. */
  function ChargedTimes(qs: seq<Quota>, pid: int, most: nat, n: nat): seq<Quota> {
    if n == 0 then qs else Charged(ChargedTimes(qs, pid, most, n - 1), pid, most)
  }

  /** A newcomer is charged for every miss until it has used up its quota, and then no more. */
  lemma {:induction false} ChargedToLimit(qs: seq<Quota>, pid: int, most: nat, n: nat)
    requires most <= 0x7fff && !Known(qs, pid)
    ensures Counter(ChargedTimes(qs, pid, most, n), pid) == if n <= Limit(most) then n else Limit(most)
    ensures Known(ChargedTimes(qs, pid, most, n), pid) <==> n > 0
    ensures Exceeded(ChargedTimes(qs, pid, most, n), pid, most) <==> n >= Limit(most)
  {
    hide Charged, Counter, Known;
    if n == 0 {
      CounterAt(qs, pid);
    } else {
      ChargedToLimit(qs, pid, most, n - 1);
      var before := ChargedTimes(qs, pid, most, n - 1);
      ChargedCounter(before, pid, most, pid);
      ChargedKnown(before, pid, most, pid);
    }
  }

  // ---------- occupancy ----------

  /** How many entries hold pages of `pid`. */
  function Occupied(es: seq<Entry>, pid: int): nat {
    if es == [] then 0 else Occupied(es[..|es| - 1], pid) + if es[|es| - 1].pid == pid then 1 else 0
  }

  lemma {:induction false} OccupiedUpdate(es: seq<Entry>, r: nat, e: Entry, pid: int)
    requires r < |es|
    ensures Occupied(es[r := e], pid) == Occupied(es, pid) - (if es[r].pid == pid then 1 else 0) + if e.pid == pid then 1 else 0
  {
    var n := |es| - 1;
    if r == n {
      assert es[r := e][..n] == es[..n];
    } else {
      OccupiedUpdate(es[..n], r, e, pid);
      assert es[r := e][..n] == es[..n][r := e];
    }
  }

  lemma {:induction false} OccupiedWitness(es: seq<Entry>, pid: int)
    ensures Occupied(es, pid) > 0 <==> exists i :: 0 <= i < |es| && es[i].pid == pid
  {
    if es != [] {
      var n := |es| - 1;
      OccupiedWitness(es[..n], pid);
      if Occupied(es[..n], pid) > 0 {
        var i :| 0 <= i < n && es[..n][i].pid == pid;
        assert es[i].pid == pid;
      }
      assert forall i :: 0 <= i < n ==> es[..n][i] == es[i];
    }
  }

  /** No process holds more entries than it was charged for, nor was it charged for more than the limit. */
  ghost predicate QuotaSafe(qs: seq<Quota>, es: seq<Entry>, limit: nat) {
    CountersOk(qs, limit) && forall p :: p >= 0 ==> Occupied(es, p) <= Counter(qs, p)
  }

  lemma CounterBelow(qs: seq<Quota>, limit: nat, pid: int)
    requires CountersOk(qs, limit)
    ensures Counter(qs, pid) <= limit && (Known(qs, pid) <==> Counter(qs, pid) >= 1)
  {
    CounterAt(qs, pid);
  }

  // ---------- the entry a miss is given ----------

  predicate InPool(es: seq<Entry>, own: bool, pid: int, i: int) {
    0 <= i < |es| && (own ==> es[i].pid == pid)
  }

  /** The least recently used entry before `upto` of the pool, the first of equals; MISS if there is none. */
  ghost predicate Oldest(es: seq<Entry>, own: bool, pid: int, r: int, upto: nat) {
    && (r == MISS ==> forall i :: 0 <= i < upto ==> !InPool(es, own, pid, i))
    && (r != MISS ==>
         0 <= r < upto && InPool(es, own, pid, r) &&
         forall i :: 0 <= i < upto && InPool(es, own, pid, i) ==>
           es[r].lastUsed < es[i].lastUsed || (es[r].lastUsed == es[i].lastUsed && r <= i))
  }

  ghost predicate FirstFreeEntry(es: seq<Entry>, r: int) {
    0 <= r < |es| && es[r].pid < 0 && forall i :: 0 <= i < r ==> es[i].pid >= 0
  }

  ghost predicate AllTaken(es: seq<Entry>) {
    forall i :: 0 <= i < |es| ==> es[i].pid >= 0
  }

  /** Within its quota a process gets the first free entry, or else the least recently used of all;
      beyond it, the least recently used of its own. */
  ghost predicate IsVictim(es: seq<Entry>, exceeded: bool, pid: int, r: int) {
    if !exceeded && !AllTaken(es) then FirstFreeEntry(es, r) else Oldest(es, exceeded, pid, r, |es|)
  }

  /** Giving the victim's entry to `pid` after charging it keeps the quotas exactly when the counter does
      not wrap around: stealing an entry lowers its owner's occupancy and not its counter. */
  lemma VictimKeepsQuotasIff(qs: seq<Quota>, es: seq<Entry>, most: nat, pid: int, r: nat, e: Entry)
    requires QuotaSafe(qs, es, Limit(most)) && IsVictim(es, Exceeded(qs, pid, most), pid, r) && r < |es| && e.pid == pid
    ensures QuotaSafe(Charged(qs, pid, most), es[r := e], Limit(most)) <==> Countable(qs, pid, most)
  {
    hide CountersOk, Charged, Counter, Occupied, Exceeded;
    if Countable(qs, pid, most) {
      ChargedOk(qs, pid, most);
      forall p | p >= 0 ensures Occupied(es[r := e], p) <= Counter(Charged(qs, pid, most), p) {
        OccupiedUpdate(es, r, e, p);
        ChargedCounter(qs, pid, most, p);
        CounterRoom(qs, Limit(most), p);
      }
    } else {
      WrapsAround(qs, most, pid);
    }
  }

  lemma CounterRoom(qs: seq<Quota>, limit: nat, pid: int)
    requires CountersOk(qs, limit)
    ensures 0 <= Counter(qs, pid) <= limit
  {
    CounterBelow(qs, limit, pid);
  }

  /** The charge that makes a counter negative. */
  lemma WrapsAround(qs: seq<Quota>, most: nat, pid: int)
    requires !Countable(qs, pid, most)
    ensures Counter(Charged(qs, pid, most), pid) == -0x8000 && !CountersOk(Charged(qs, pid, most), Limit(most))
  {
    hide CountersOk, Charged, Exceeded;
    ChargedCounter(qs, pid, most, pid);
    if CountersOk(Charged(qs, pid, most), Limit(most)) { CounterRoom(Charged(qs, pid, most), Limit(most), pid); }
  }

  lemma {:induction false} NotCharged(qs: seq<Quota>, pid: int, most: nat)
    requires Exceeded(qs, pid, most)
    ensures Charged(qs, pid, most) == qs
  {
    assert qs == [qs[0]] + qs[1..];
    KnownCons(qs[0], qs[1..], pid);
    if qs[0].pid != pid { NotCharged(qs[1..], pid, most); }
  }

  /** A counter that has become negative is large as an unsigned number: it counts as used up, for any limit
      below it, and the process is never charged again. */
  lemma WrappedIsUsedUp(qs: seq<Quota>, pid: int, most: nat)
    requires !Countable(qs, pid, most) && most <= 0xffff_8000
    ensures var qs' := Charged(qs, pid, most);
      Counter(qs', pid) == -0x8000 && Exceeded(qs', pid, most) && Charged(qs', pid, most) == qs'
  {
    hide Charged, Counter, Known;
    ChargedCounter(qs, pid, most, pid);
    ChargedKnown(qs, pid, most, pid);
    NotCharged(Charged(qs, pid, most), pid, most);
  }

  // ---------- when there is room for everyone ----------

  /** Counters equal to real occupancy, and every holder on the list. */
  ghost predicate Snug(qs: seq<Quota>, es: seq<Entry>) {
    && (forall p :: p >= 0 ==> Occupied(es, p) == Counter(qs, p))
    && (forall i :: 0 <= i < |qs| ==> qs[i].pid >= 0)
  }

  /** Entries in use. */
  function Taken(es: seq<Entry>): nat {
    if es == [] then 0 else Taken(es[..|es| - 1]) + if es[|es| - 1].pid >= 0 then 1 else 0
  }

  lemma {:induction false} TakenBelow(es: seq<Entry>)
    ensures Taken(es) <= |es| && (Taken(es) < |es| ==> !AllTaken(es))
  {
    if es != [] { TakenBelow(es[..|es| - 1]); }
  }

  function Total(qs: seq<Quota>): int {
    if qs == [] then 0 else qs[0].entries + Total(qs[1..])
  }

  /** The entries held by the processes on the list, process by process. */
  function Held(qs: seq<Quota>, es: seq<Entry>): nat {
    if qs == [] then 0 else Occupied(es, qs[0].pid) + Held(qs[1..], es)
  }

  lemma {:induction false} HeldMore(qs: seq<Quota>, es: seq<Entry>)
    requires es != []
    ensures var n := |es| - 1;
      Held(qs, es) >= Held(qs, es[..n]) + if Known(qs, es[n].pid) then 1 else 0
  {
    if qs != [] {
      assert qs == [qs[0]] + qs[1..];
      KnownCons(qs[0], qs[1..], es[|es| - 1].pid);
      HeldMore(qs[1..], es);
    }
  }

  lemma {:induction false} TakenIsHeld(qs: seq<Quota>, es: seq<Entry>)
    requires forall i :: 0 <= i < |es| && es[i].pid >= 0 ==> Known(qs, es[i].pid)
    ensures Taken(es) <= Held(qs, es)
  {
    if es != [] {
      TakenIsHeld(qs, es[..|es| - 1]);
      HeldMore(qs, es);
    }
  }

  lemma {:induction false} HeldIsTotal(qs: seq<Quota>, es: seq<Entry>)
    requires forall i :: 0 <= i < |qs| ==> Occupied(es, qs[i].pid) == qs[i].entries
    ensures Held(qs, es) == Total(qs)
  {
    if qs != [] { HeldIsTotal(qs[1..], es); }
  }

  lemma {:induction false} OwnCounter(qs: seq<Quota>, limit: nat, i: nat)
    requires CountersOk(qs, limit) && i < |qs|
    ensures Counter(qs, qs[i].pid) == qs[i].entries
  {
    if i > 0 { OwnCounter(qs[1..], limit, i - 1); }
  }

  lemma {:induction false} TotalBelow(qs: seq<Quota>, limit: nat)
    requires CountersOk(qs, limit)
    ensures Total(qs) <= |qs| * limit
  {
    if qs != [] {
      TotalBelow(qs[1..], limit);
      assert |qs| * limit == (|qs| - 1) * limit + limit;
    }
  }

  lemma {:induction false} TotalBelowStrictly(qs: seq<Quota>, limit: nat, pid: int)
    requires CountersOk(qs, limit) && Known(qs, pid) && Counter(qs, pid) < limit
    ensures Total(qs) < |qs| * limit
  {
    assert qs == [qs[0]] + qs[1..];
    assert |qs| * limit == (|qs| - 1) * limit + limit;
    KnownCons(qs[0], qs[1..], pid);
    if qs[0].pid == pid {
      TotalBelow(qs[1..], limit);
    } else {
      TotalBelowStrictly(qs[1..], limit, pid);
    }
  }

  lemma TakenIsTotal(qs: seq<Quota>, es: seq<Entry>, limit: nat)
    requires CountersOk(qs, limit) && Snug(qs, es)
    ensures Taken(es) <= Total(qs)
  {
    forall i | 0 <= i < |es| && es[i].pid >= 0 ensures Known(qs, es[i].pid) {
      OccupiedWitness(es, es[i].pid);
      CounterBelow(qs, limit, es[i].pid);
    }
    TakenIsHeld(qs, es);
    forall i | 0 <= i < |qs| ensures Occupied(es, qs[i].pid) == qs[i].entries {
      OwnCounter(qs, limit, i);
    }
    HeldIsTotal(qs, es);
  }

  /** With an entry for each unit of every quota, a process within its quota finds a free one. */
  lemma RoomLeft(qs: seq<Quota>, es: seq<Entry>, most: nat, pid: int)
    requires CountersOk(qs, Limit(most)) && Snug(qs, es) && !Exceeded(qs, pid, most) && most <= 0x7fff
    requires |Charged(qs, pid, most)| * Limit(most) <= |es|
    ensures !AllTaken(es)
  {
    hide Charged, Counter, Known, Snug, CountersOk, Taken, Total, AllTaken, Countable, Exceeded;
    var l := Limit(most);
    TakenIsTotal(qs, es, l);
    SmallLimit(qs, pid, most);
    ChargedOk(qs, pid, most);
    if Known(qs, pid) {
      WithinQuota(qs, most, pid);
      TotalBelowStrictly(qs, l, pid);
    } else {
      TotalBelow(qs, l);
      assert (|qs| + 1) * l == |qs| * l + l;
    }
    TakenBelow(es);
  }

  lemma WithinQuota(qs: seq<Quota>, most: nat, pid: int)
    requires CountersOk(qs, Limit(most)) && Known(qs, pid) && !Exceeded(qs, pid, most)
    ensures Counter(qs, pid) < Limit(most)
  {
    CounterBelow(qs, Limit(most), pid);
  }

  /** Then no process is ever given another's page: its victim is a free entry, or, once it has used up
      its quota, the least recently used of its own; and counters stay equal to occupancy. */
  lemma NobodyElseEvicted(qs: seq<Quota>, es: seq<Entry>, most: nat, pid: int, r: int, e: Entry)
    requires QuotaSafe(qs, es, Limit(most)) && Snug(qs, es) && pid >= 0 && e.pid == pid && most <= 0x7fff
    requires |Charged(qs, pid, most)| * Limit(most) <= |es|
    requires IsVictim(es, Exceeded(qs, pid, most), pid, r)
    ensures 0 <= r < |es|
    ensures if Exceeded(qs, pid, most) then es[r].pid == pid && Oldest(es, true, pid, r, |es|) else es[r].pid < 0
    ensures Snug(Charged(qs, pid, most), es[r := e])
  {
    hide CountersOk, Charged, Counter, Occupied;
    SmallLimit(qs, pid, most);
    if Exceeded(qs, pid, most) {
      CounterBelow(qs, Limit(most), pid);
      OccupiedWitness(es, pid);
      var i :| 0 <= i < |es| && es[i].pid == pid;
      assert InPool(es, true, pid, i);
    } else {
      RoomLeft(qs, es, most, pid);
    }
    forall p | p >= 0 ensures Occupied(es[r := e], p) == Counter(Charged(qs, pid, most), p) {
      OccupiedUpdate(es, r, e, p);
      ChargedCounter(qs, pid, most, p);
    }
    ChargedPids(qs, pid, most);
  }

  lemma {:induction false} ChargedPids(qs: seq<Quota>, pid: int, most: nat)
    requires pid >= 0 && forall i :: 0 <= i < |qs| ==> qs[i].pid >= 0
    ensures forall i :: 0 <= i < |Charged(qs, pid, most)| ==> Charged(qs, pid, most)[i].pid >= 0
  {
    if qs != [] { ChargedPids(qs[1..], pid, most); }
  }

  // ---------- a write to a page that is not cached ----------

  ghost predicate SameWhateverWasThere(page: seq<byte>, offset: nat, buffer: seq<byte>)
    requires offset + |buffer| <= |page|
  {
    forall stale: seq<byte> :: |stale| == |page| ==> Splice(stale, offset, buffer) == Splice(page, offset, buffer)
  }

  /** The entry keeps what its last page left in it: the write comes out right whatever that was exactly
      when it covers the whole page. */
  lemma StaleWriteIff(page: seq<byte>, offset: nat, buffer: seq<byte>)
    requires offset + |buffer| <= |page|
    ensures SameWhateverWasThere(page, offset, buffer) <==> |buffer| == |page|
  {
    if |buffer| < |page| {
      var x := if offset > 0 then 0 else |page| - 1;
      var stale := page[x := if page[x] == 0 then 1 else 0];
      assert Splice(stale, offset, buffer)[x] != Splice(page, offset, buffer)[x];
    } else {
      forall stale: seq<byte> | |stale| == |page| ensures Splice(stale, offset, buffer) == Splice(page, offset, buffer) {
        assert Splice(stale, offset, buffer) == buffer;
      }
    }
  }
}
