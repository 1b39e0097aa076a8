/** The page a miss takes from the cache is the one whose last request is furthest back in the run. */
module Recency {
  import opened Frames
  import opened Caches
  import opened PagedMemories
  import opened MemoryRuns

  // ---------- one request ----------

  predicate IsAccess(req: Request) {
    req.Read? || req.Write?
  }

  /** Entry `i` holds the page that was asked for, and its time is the time of the request; the clock goes
      on by one, and the other entries are what they were. A page that was not cached got the victim. */
  ghost predicate Renews(c: Config, m: Memory, pid: int, page: int, m': Memory, i: int) {
    && |m'.entries| == |m.entries| && Holds(m'.entries, i, pid, page)
    && m'.entries[i].lastUsed == m.clock && m'.clock == m.clock + 1
    && (forall k :: 0 <= k < |m.entries| && k != i ==> m'.entries[k] == m.entries[k])
    && (if FindEntry(m.entries, pid, page, 0) == MISS then IsVictim(m.entries, Exceeded(m.quotas, pid, c.most), pid, i)
        else i == FindEntry(m.entries, pid, page, 0))
  }

  lemma WriteRenews(c: Config, m: Memory, pid: int, page: int, offset: nat, buffer: seq<Words.byte>, r: int, reply: Reply, m': Memory) returns (i: int)
    requires WriteStep(c, m, pid, page, offset, buffer, r, reply, m') && reply != Stuck
    ensures Renews(c, m, pid, page, m', i) && m'.entries[i].written
  {
    hide IsVictim, Exceeded, Charged, FindFrame, InBounds, Owned, Words.Splice;
    i := if FindEntry(m.entries, pid, page, 0) != MISS then FindEntry(m.entries, pid, page, 0) else r;
  }

  lemma ReadRenews(c: Config, m: Memory, pid: int, page: int, offset: nat, size: nat, r: int, reply: Reply, m': Memory) returns (i: int)
    requires ReadStep(c, m, pid, page, offset, size, r, reply, m') && reply != Stuck
    ensures Renews(c, m, pid, page, m', i)
    ensures m'.entries[i].written <==> FindEntry(m.entries, pid, page, 0) == i && m.entries[i].written
  {
    hide IsVictim, Exceeded, Charged, FindFrame, InBounds, Owned, Words.Splice, Page;
    i := if FindEntry(m.entries, pid, page, 0) != MISS then FindEntry(m.entries, pid, page, 0) else r;
  }

  /** A read or a write that is served renews the time of its page's entry. */
  lemma AccessRenews(c: Config, m: Memory, req: Request, reply: Reply, m': Memory) returns (i: int)
    requires Step(c, m, req, reply, m') && IsAccess(req) && reply != Stuck
    ensures Renews(c, m, req.pid, req.page, m', i) && req.pid > 0
  {
    hide WriteStep, ReadStep, Renews;
    match req {
      case Write(pid, page, offset, buffer) =>
        var r :| WriteStep(c, m, pid, page, offset, buffer, r, reply, m');
        WriteEntry(c, m, pid, page, offset, buffer, r, reply, m');
        i := WriteRenews(c, m, pid, page, offset, buffer, r, reply, m');
      case Read(pid, page, offset, size) =>
        var r :| ReadStep(c, m, pid, page, offset, size, r, reply, m');
        ReadEntry(c, m, pid, page, offset, size, r, reply, m');
        i := ReadRenews(c, m, pid, page, offset, size, r, reply, m');
    }
  }

  /** Every other request leaves entries and clock alone. */
  lemma OthersRenewNothing(c: Config, m: Memory, req: Request, reply: Reply, m': Memory)
    requires Step(c, m, req, reply, m') && (!IsAccess(req) || reply == Stuck)
    ensures m'.entries == m.entries && m'.clock == m.clock
  {
    hide Charged, IsVictim, Exceeded, FindFrame, Granting, Freeing;
    match req {
      case Assign(pid, pages) => AssignEntries(c, m, pid, pages, reply, m');
      case Finalize(pid) => FinalizeEntries(c, m, pid, reply, m');
      case Write(pid, page, offset, buffer) =>
        var r :| WriteStep(c, m, pid, page, offset, buffer, r, reply, m');
        NoEntryUsed(c, m, pid, page, offset, buffer, r, reply, m');
      case Read(pid, page, offset, size) =>
        var r :| ReadStep(c, m, pid, page, offset, size, r, reply, m');
    }
  }

  lemma NoEntryUsed(c: Config, m: Memory, pid: int, page: int, offset: nat, buffer: seq<Words.byte>, r: int, reply: Reply, m': Memory)
    requires WriteStep(c, m, pid, page, offset, buffer, r, reply, m') && reply == Stuck
    ensures m' == ChargedFor(c, m, pid)
  {
    hide Charged, IsVictim, Exceeded, FindFrame;
  }

  // ---------- a run ----------

  /** Request `j` read or wrote the page and was served. */
  predicate IsUse(reqs: seq<Request>, replies: seq<Reply>, j: int, p: int, g: int) {
    0 <= j < |reqs| && j < |replies| && IsAccess(reqs[j]) && replies[j] != Stuck && reqs[j].pid == p && reqs[j].page == g
  }

  /** The last request before `i` that used the page, or -1. */
  function LastUse(reqs: seq<Request>, replies: seq<Reply>, i: nat, p: int, g: int): (j: int)
    ensures -1 <= j < i && (j >= 0 ==> IsUse(reqs, replies, j, p, g))
    ensures forall k :: j < k < i ==> !IsUse(reqs, replies, k, p, g)
  {
    if i == 0 then -1 else if IsUse(reqs, replies, i - 1, p, g) then i - 1 else LastUse(reqs, replies, i - 1, p, g)
  }

  /** No page is in two entries. */
  ghost predicate CachedOnce(es: seq<Entry>) {
    forall a, b :: 0 <= a < b < |es| && es[a].pid >= 0 ==> !(es[b].pid == es[a].pid && es[b].page == es[a].page)
  }

  /** An entry in use bears the time of the last request for its page. */
  ghost predicate Stamped(ms: seq<Memory>, reqs: seq<Request>, replies: seq<Reply>, i: nat)
    requires i < |ms|
  {
    forall k :: 0 <= k < |ms[i].entries| && ms[i].entries[k].pid >= 0 ==> StampedAt(ms, reqs, replies, i, k)
  }

  predicate StampedAt(ms: seq<Memory>, reqs: seq<Request>, replies: seq<Reply>, i: nat, k: nat)
    requires i < |ms| && k < |ms[i].entries|
  {
    var j := LastUse(reqs, replies, i, ms[i].entries[k].pid, ms[i].entries[k].page);
    j >= 0 && ms[i].entries[k].lastUsed == ms[j].clock
  }

  lemma RenewsOnce(c: Config, m: Memory, pid: int, page: int, m': Memory, i: int)
    requires CachedOnce(m.entries) && Renews(c, m, pid, page, m', i) && pid > 0
    ensures CachedOnce(m'.entries)
    ensures forall k :: 0 <= k < |m.entries| && k != i ==> !Holds(m.entries, k, pid, page)
  {
    hide IsVictim, Exceeded;
    var f := FindEntry(m.entries, pid, page, 0);
    forall k | 0 <= k < |m.entries| && k != i ensures !Holds(m.entries, k, pid, page) {
      if f != MISS { assert Holds(m.entries, f, pid, page); }
    }
    forall a, b | 0 <= a < b < |m'.entries| && m'.entries[a].pid >= 0
      ensures !(m'.entries[b].pid == m'.entries[a].pid && m'.entries[b].page == m'.entries[a].page) {
      assert a != i ==> !Holds(m.entries, a, pid, page);
      assert b != i ==> !Holds(m.entries, b, pid, page);
    }
  }

  lemma RenewsStamps(c: Config, ms: seq<Memory>, reqs: seq<Request>, replies: seq<Reply>, n: nat, i: int)
    requires n < |reqs| == |replies| && |ms| == |reqs| + 1 && Stamped(ms, reqs, replies, n) && CachedOnce(ms[n].entries)
    requires IsAccess(reqs[n]) && replies[n] != Stuck && reqs[n].pid > 0
    requires Renews(c, ms[n], reqs[n].pid, reqs[n].page, ms[n + 1], i)
    ensures Stamped(ms, reqs, replies, n + 1)
  {
    hide IsVictim, Exceeded, CachedOnce;
    var m, m' := ms[n], ms[n + 1];
    RenewsOnce(c, m, reqs[n].pid, reqs[n].page, m', i);
    forall k | 0 <= k < |m'.entries| && m'.entries[k].pid >= 0 ensures StampedAt(ms, reqs, replies, n + 1, k) {
      if k != i {
        assert m'.entries[k] == m.entries[k] && !Holds(m.entries, k, reqs[n].pid, reqs[n].page);
        assert StampedAt(ms, reqs, replies, n, k);
      }
    }
  }

  lemma NothingStamps(ms: seq<Memory>, reqs: seq<Request>, replies: seq<Reply>, n: nat)
    requires n < |reqs| == |replies| && |ms| == |reqs| + 1 && Stamped(ms, reqs, replies, n)
    requires (!IsAccess(reqs[n]) || replies[n] == Stuck) && ms[n + 1].entries == ms[n].entries
    ensures Stamped(ms, reqs, replies, n + 1)
  {
    var m' := ms[n + 1];
    forall k | 0 <= k < |m'.entries| && m'.entries[k].pid >= 0 ensures StampedAt(ms, reqs, replies, n + 1, k) {
      assert StampedAt(ms, reqs, replies, n, k);
    }
  }

  lemma {:induction false} RunsStamp(c: Config, ms: seq<Memory>, reqs: seq<Request>, replies: seq<Reply>, i: nat)
    requires IsRun(c, ms, reqs, replies) && i < |ms| && forall k :: 0 <= k < |ms[0].entries| ==> ms[0].entries[k].pid < 0
    ensures Stamped(ms, reqs, replies, i) && CachedOnce(ms[i].entries)
  {
    hide Step, Stamped, CachedOnce, Renews;
    if i == 0 {
      FreshStamped(ms, reqs, replies);
    } else {
      var n := i - 1;
      RunsStamp(c, ms, reqs, replies, n);
      assert Step(c, ms[n], reqs[n], replies[n], ms[n + 1]);
      if IsAccess(reqs[n]) && replies[n] != Stuck {
        var k := AccessRenews(c, ms[n], reqs[n], replies[n], ms[i]);
        RenewsOnce(c, ms[n], reqs[n].pid, reqs[n].page, ms[i], k);
        RenewsStamps(c, ms, reqs, replies, n, k);
      } else {
        OthersRenewNothing(c, ms[n], reqs[n], replies[n], ms[i]);
        NothingStamps(ms, reqs, replies, n);
      }
    }
  }

  lemma FreshStamped(ms: seq<Memory>, reqs: seq<Request>, replies: seq<Reply>)
    requires ms != [] && forall k :: 0 <= k < |ms[0].entries| ==> ms[0].entries[k].pid < 0
    ensures Stamped(ms, reqs, replies, 0) && CachedOnce(ms[0].entries)
  {
  }

  /** The clock never goes back, and every use moves it on. */
  lemma {:induction false} ClockGrows(c: Config, ms: seq<Memory>, reqs: seq<Request>, replies: seq<Reply>, a: nat, b: nat)
    requires IsRun(c, ms, reqs, replies) && a <= b < |ms|
    ensures ms[a].clock <= ms[b].clock
    ensures a < b && IsAccess(reqs[a]) && replies[a] != Stuck ==> ms[a].clock < ms[b].clock
    decreases b
  {
    hide Step;
    if a < b {
      var n := b - 1;
      ClockGrows(c, ms, reqs, replies, a, n);
      assert Step(c, ms[n], reqs[n], replies[n], ms[n + 1]);
      ClockSteps(c, ms[n], reqs[n], replies[n], ms[b]);
    }
  }

  lemma ClockSteps(c: Config, m: Memory, req: Request, reply: Reply, m': Memory)
    requires Step(c, m, req, reply, m')
    ensures m'.clock == m.clock + if IsAccess(req) && reply != Stuck then 1 else 0
  {
    hide Step;
    if IsAccess(req) && reply != Stuck {
      var i := AccessRenews(c, m, req, reply, m');
    } else {
      OthersRenewNothing(c, m, req, reply, m');
    }
  }

  /** Of two pages in the cache the one with the earlier time was asked for last at the earlier request. */
  lemma OlderIsEarlier(c: Config, ms: seq<Memory>, reqs: seq<Request>, replies: seq<Reply>, i: nat, a: nat, b: nat)
    requires IsRun(c, ms, reqs, replies) && i < |ms| && Stamped(ms, reqs, replies, i) && CachedOnce(ms[i].entries)
    requires a < |ms[i].entries| && b < |ms[i].entries| && a != b && ms[i].entries[a].pid >= 0 && ms[i].entries[b].pid >= 0
    requires ms[i].entries[a].lastUsed <= ms[i].entries[b].lastUsed
    ensures LastUse(reqs, replies, i, ms[i].entries[a].pid, ms[i].entries[a].page) <
      LastUse(reqs, replies, i, ms[i].entries[b].pid, ms[i].entries[b].page)
  {
    hide LastUse, IsRun;
    var es := ms[i].entries;
    assert StampedAt(ms, reqs, replies, i, a) && StampedAt(ms, reqs, replies, i, b);
    var j, l := LastUse(reqs, replies, i, es[a].pid, es[a].page), LastUse(reqs, replies, i, es[b].pid, es[b].page);
    if l < j { ClockGrows(c, ms, reqs, replies, l, j); }
  }

  /** In every run from an empty cache: when a request takes the entry of a page from it, no entry is free or
      the process has used up its quota, and of all pages in the cache, or of its own ones in the latter
      case, the page lost is the one that nobody has asked for for the longest time. */
  lemma LeastRecentlyAskedGoes(c: Config, ms: seq<Memory>, reqs: seq<Request>, replies: seq<Reply>, i: nat, k: nat)
    requires IsRun(c, ms, reqs, replies) && i < |reqs| && forall e :: 0 <= e < |ms[0].entries| ==> ms[0].entries[e].pid < 0
    requires k < |ms[i].entries| == |ms[i + 1].entries| && ms[i].entries[k].pid >= 0
    requires !Holds(ms[i + 1].entries, k, ms[i].entries[k].pid, ms[i].entries[k].page)
    ensures IsAccess(reqs[i]) && replies[i] != Stuck && Holds(ms[i + 1].entries, k, reqs[i].pid, reqs[i].page)
    ensures var own := Exceeded(ms[i].quotas, reqs[i].pid, c.most);
      var lost := ms[i].entries[k];
      && (own ==> lost.pid == reqs[i].pid) && (!own ==> AllTaken(ms[i].entries))
      && forall b :: 0 <= b < |ms[i].entries| && b != k && ms[i].entries[b].pid >= 0 && (own ==> ms[i].entries[b].pid == reqs[i].pid) ==>
           LastUse(reqs, replies, i, lost.pid, lost.page) < LastUse(reqs, replies, i, ms[i].entries[b].pid, ms[i].entries[b].page)
  {
    hide Step, Stamped, CachedOnce, LastUse, Exceeded;
    RunsStamp(c, ms, reqs, replies, i);
    assert Step(c, ms[i], reqs[i], replies[i], ms[i + 1]);
    if !IsAccess(reqs[i]) || replies[i] == Stuck {
      OthersRenewNothing(c, ms[i], reqs[i], replies[i], ms[i + 1]);
      assert false;
    }
    var r := AccessRenews(c, ms[i], reqs[i], replies[i], ms[i + 1]);
    var own := Exceeded(ms[i].quotas, reqs[i].pid, c.most);
    LostIsVictim(c, ms[i], reqs[i].pid, reqs[i].page, ms[i + 1], r, k);
    VictimIsOldest(ms[i].entries, own, reqs[i].pid, k);
    forall b | 0 <= b < |ms[i].entries| && b != k && ms[i].entries[b].pid >= 0 && (own ==> ms[i].entries[b].pid == reqs[i].pid)
      ensures LastUse(reqs, replies, i, ms[i].entries[k].pid, ms[i].entries[k].page) < LastUse(reqs, replies, i, ms[i].entries[b].pid, ms[i].entries[b].page) {
      OlderIsEarlier(c, ms, reqs, replies, i, k, b);
    }
  }

  lemma LostIsVictim(c: Config, m: Memory, pid: int, page: int, m': Memory, r: int, k: nat)
    requires Renews(c, m, pid, page, m', r) && k < |m.entries| && !Holds(m'.entries, k, m.entries[k].pid, m.entries[k].page)
    ensures k == r && IsVictim(m.entries, Exceeded(m.quotas, pid, c.most), pid, k) && Holds(m'.entries, k, pid, page)
  {
    hide IsVictim, Exceeded;
  }

  lemma VictimIsOldest(es: seq<Entry>, own: bool, pid: int, k: nat)
    requires IsVictim(es, own, pid, k) && k < |es| && es[k].pid >= 0
    ensures (own ==> es[k].pid == pid) && (!own ==> AllTaken(es))
    ensures forall b :: 0 <= b < |es| && (own ==> es[b].pid == pid) ==> es[k].lastUsed <= es[b].lastUsed
  {
    forall b | 0 <= b < |es| && (own ==> es[b].pid == pid) ensures es[k].lastUsed <= es[b].lastUsed { assert InPool(es, own, pid, b); }
  }

  /** A process within its quota is given the first free entry, if there is one. */
  lemma FirstFreeGiven(c: Config, m: Memory, req: Request, reply: Reply, m': Memory) returns (i: int)
    requires Step(c, m, req, reply, m') && IsAccess(req) && reply != Stuck && FindEntry(m.entries, req.pid, req.page, 0) == MISS
    requires !Exceeded(m.quotas, req.pid, c.most) && exists k :: 0 <= k < |m.entries| && m.entries[k].pid < 0
    ensures 0 <= i < |m.entries| == |m'.entries| && m.entries[i].pid < 0 && Holds(m'.entries, i, req.pid, req.page)
    ensures (forall k :: 0 <= k < i ==> m.entries[k].pid >= 0) && forall k :: 0 <= k < |m.entries| && k != i ==> m'.entries[k] == m.entries[k]
  {
    hide Step, Exceeded;
    i := AccessRenews(c, m, req, reply, m');
  }

  /** With room for every quota it is always one of the process's own, and of these the one it has not asked
      for for the longest time. */
  lemma RoomyLosesOwnOldest(c: Config, ms: seq<Memory>, reqs: seq<Request>, replies: seq<Reply>, all: set<int>, i: nat, k: nat)
    requires IsRun(c, ms, reqs, replies) && i < |reqs| && c.most <= 0x7fff
    requires ms[0].quotas == [] && forall e :: 0 <= e < |ms[0].entries| ==> ms[0].entries[e].pid < 0
    requires (forall j :: 0 <= j < |reqs| ==> reqs[j].pid in all) && |all| * Limit(c.most) <= |ms[0].entries|
    requires k < |ms[i].entries| == |ms[i + 1].entries| && ms[i].entries[k].pid >= 0
    requires !Holds(ms[i + 1].entries, k, ms[i].entries[k].pid, ms[i].entries[k].page)
    ensures ms[i].entries[k].pid == reqs[i].pid
    ensures forall b :: 0 <= b < |ms[i].entries| && b != k && ms[i].entries[b].pid == reqs[i].pid ==>
      LastUse(reqs, replies, i, reqs[i].pid, ms[i].entries[k].page) < LastUse(reqs, replies, i, reqs[i].pid, ms[i].entries[b].page)
  {
    hide Step, LastUse, Exceeded, QuotaSafe, Snug, Known, AllTaken;
    RoomyRuns(c, ms, reqs, replies, all, i);
    LeastRecentlyAskedGoes(c, ms, reqs, replies, i, k);
  }

  // ---------- what misses cost ----------

  /** `p` asks for a page that is not cached. */
  predicate IsMiss(m: Memory, req: Request, p: int) {
    IsAccess(req) && req.pid == p && forall k :: 0 <= k < |m.entries| ==> !Holds(m.entries, k, p, req.page)
  }

  function Misses(ms: seq<Memory>, reqs: seq<Request>, p: int, i: nat): nat
    requires i <= |reqs| && |ms| == |reqs| + 1
  {
    if i == 0 then 0 else Misses(ms, reqs, p, i - 1) + if IsMiss(ms[i - 1], reqs[i - 1], p) then 1 else 0
  }

  /** A request charges the process for a miss, found an entry or not, and nobody for anything else. */
  lemma MissIsCharged(c: Config, m: Memory, req: Request, reply: Reply, m': Memory)
    requires Step(c, m, req, reply, m')
    ensures m'.quotas == if IsAccess(req) && FindEntry(m.entries, req.pid, req.page, 0) == MISS then Charged(m.quotas, req.pid, c.most) else m.quotas
  {
    hide Charged, IsVictim, Exceeded, FindFrame, Granting, Freeing, FindEntry;
  }

  /** In every run from an empty cache a process has been charged for each of its misses, up to the limit, and
      has used up its quota when it has missed as often as the limit allows. */
  lemma {:induction false} RunsCountMisses(c: Config, ms: seq<Memory>, reqs: seq<Request>, replies: seq<Reply>, p: int, i: nat)
    requires IsRun(c, ms, reqs, replies) && i < |ms| && ms[0].quotas == [] && c.most <= 0x7fff
    ensures var n := Misses(ms, reqs, p, i);
      && Counter(ms[i].quotas, p) == (if n <= Limit(c.most) then n else Limit(c.most))
      && (Known(ms[i].quotas, p) <==> n > 0)
      && (Exceeded(ms[i].quotas, p, c.most) <==> n >= Limit(c.most))
  {
    hide Step, Charged, Known;
    if i == 0 {
      NobodyKnown(p);
    } else {
      var m, req := ms[i - 1], reqs[i - 1];
      RunsCountMisses(c, ms, reqs, replies, p, i - 1);
      assert Step(c, m, req, replies[i - 1], ms[i]);
      MissIsCharged(c, m, req, replies[i - 1], ms[i]);
      ChargedCounter(m.quotas, req.pid, c.most, p);
      ChargedKnown(m.quotas, req.pid, c.most, p);
      MissIsFound(m, req, p);
    }
  }

  lemma MissIsFound(m: Memory, req: Request, p: int)
    ensures IsMiss(m, req, p) <==> IsAccess(req) && req.pid == p && FindEntry(m.entries, req.pid, req.page, 0) == MISS
  {
  }
}
