/** The replay guard: a cache that forgets, and the full history it stands in for. */
module ReplayGuard {

  type Key = (string, string) // rfq id and peer id

  datatype Guard = Guard(ttl: int, seen: map<Key, int>)

  function Evicted(seen: map<Key, int>, ttl: int, now: int): map<Key, int> {
    map k | k in seen && now - seen[k] < ttl :: seen[k]
  }

  predicate Accepts(g: Guard, now: int, key: Key) {
    key !in Evicted(g.seen, g.ttl, now)
  }

  function Checked(g: Guard, now: int, key: Key): Guard {
    var kept := Evicted(g.seen, g.ttl, now);
    g.(seen := if key in kept then kept else kept[key := now])
  }

  class Cache {
    const ttl: int
    var seen: map<Key, int>

    ghost function View(): Guard
      reads this
    {
      Guard(ttl, seen)
    }

    constructor (ttl: int)
      ensures View() == Guard(ttl, map[])
    {
      this.ttl, seen := ttl, map[];
    }

    method CheckAndRecord(now: int, key: Key) returns (ok: bool)
      modifies this
      ensures ok == Accepts(old(View()), now, key) && View() == Checked(old(View()), now, key)
    {
      Evict(now);
      if key in seen {
        return false;
      }
      seen := seen[key := now];
      ok := true;
    }

    /** The stale keys are collected first and deleted one by one. */
    method Evict(now: int)
      modifies this
      ensures seen == Evicted(old(seen), ttl, now)
    {
      var stale := set k | k in seen && now - seen[k] >= ttl;
      while stale != {}
        invariant Evicted(seen, ttl, now) == Evicted(old(seen), ttl, now)
        invariant stale == set k | k in seen && now - seen[k] >= ttl
        decreases stale
      {
        var k :| k in stale;
        seen := seen - {k};
        stale := stale - {k};
      }
      assert forall k :: k in seen ==> k !in stale;
    }
  }

  // ---------------------------------------------------------------- against the full history

  datatype Check = Check(now: int, key: Key)

  function Run(ttl: int, checks: seq<Check>): Guard {
    if checks == [] then Guard(ttl, map[])
    else
      var last := checks[|checks| - 1];
      Checked(Run(ttl, checks[..|checks| - 1]), last.now, last.key)
  }

  /** Whether check `i` of the run was accepted, as the cache decides it. */
  predicate Accepted(ttl: int, checks: seq<Check>, i: nat)
    requires i < |checks|
  {
    Accepts(Run(ttl, checks[..i]), checks[i].now, checks[i].key)
  }

  /** An accepted check of `key` that is still less than `ttl` old at `now`. */
  ghost predicate Blocks(ttl: int, checks: seq<Check>, i: nat, now: int, key: Key)
    requires i < |checks|
  {
    Accepted(ttl, checks, i) && checks[i].key == key && now - checks[i].now < ttl
  }

  /** Check `i` was accepted, for key `k` at time `t`. */
  ghost predicate Recorded(ttl: int, checks: seq<Check>, i: nat, k: Key, t: int) {
    i < |checks| && Accepted(ttl, checks, i) && checks[i] == Check(t, k)
  }

  lemma RecordedInPrefix(ttl: int, checks: seq<Check>, i: nat, k: Key, t: int)
    requires i < |checks| - 1
    ensures Recorded(ttl, checks, i, k, t) == Recorded(ttl, checks[..|checks| - 1], i, k, t)
  {
    assert checks[..|checks| - 1][..i] == checks[..i];
  }

  /** Check `i` is forgotten by the end of the run: a later check came `ttl` or more after it. */
  ghost predicate Forgotten(ttl: int, checks: seq<Check>, i: nat) {
    i < |checks| && exists j :: i < j < |checks| && checks[j].now - checks[i].now >= ttl
  }

  /** An accepted check that nobody has made the guard forget is the entry of its key. */
  lemma {:induction false} NotForgottenIsKept(ttl: int, checks: seq<Check>, i: nat, k: Key, t: int)
    requires Recorded(ttl, checks, i, k, t) && !Forgotten(ttl, checks, i)
    ensures k in Run(ttl, checks).seen && Run(ttl, checks).seen[k] == t
    decreases |checks|
  {
    var front := checks[..|checks| - 1];
    TtlIsFixed(ttl, front);
    if i < |front| {
      RecordedInPrefix(ttl, checks, i, k, t);
      assert forall j :: 0 <= j < |front| ==> front[j] == checks[j];
      NotForgottenIsKept(ttl, front, i, k, t);
    }
  }

  /** Every entry is an accepted check that nobody has made the guard forget. */
  lemma {:induction false} EntriesWereAccepted(ttl: int, checks: seq<Check>, k: Key)
    requires k in Run(ttl, checks).seen
    ensures exists i: nat :: Recorded(ttl, checks, i, k, Run(ttl, checks).seen[k]) && !Forgotten(ttl, checks, i)
  {
    var front, n := checks[..|checks| - 1], |checks| - 1;
    TtlIsFixed(ttl, front);
    var t := Run(ttl, checks).seen[k];
    if k in Run(ttl, front).seen && checks[n].now - Run(ttl, front).seen[k] < ttl {
      EntriesWereAccepted(ttl, front, k);
      var i: nat :| Recorded(ttl, front, i, k, t) && !Forgotten(ttl, front, i);
      RecordedInPrefix(ttl, checks, i, k, t);
      assert forall j :: 0 <= j < n ==> front[j] == checks[j];
    } else {
      assert Recorded(ttl, checks, n, k, t);
    }
  }

  /**
   What the guard decides, under any clock: it accepts a check exactly when every
   accepted check of the same key that is less than `ttl` old has been forgotten,
   because some check in between came `ttl` or more after it. A rejected check
   leaves nothing behind, so it never extends the window.
   */
  lemma AcceptsIffForgotten(ttl: int, checks: seq<Check>, now: int, key: Key)
    ensures Accepts(Run(ttl, checks), now, key)
            <==> forall i: nat :: i < |checks| && Blocks(ttl, checks, i, now, key) ==> Forgotten(ttl, checks, i)
  {
    TtlIsFixed(ttl, checks);
    var g := Run(ttl, checks);
    if key in g.seen {
      EntriesWereAccepted(ttl, checks, key);
      var i: nat :| Recorded(ttl, checks, i, key, g.seen[key]) && !Forgotten(ttl, checks, i);
      assert Blocks(ttl, checks, i, now, key) <==> now - g.seen[key] < ttl;
    }
    forall i: nat | i < |checks| && Blocks(ttl, checks, i, now, key) && !Forgotten(ttl, checks, i)
      ensures !Accepts(g, now, key)
    {
      NotForgottenIsKept(ttl, checks, i, key, checks[i].now);
    }
  }

  /** The guard answers as the full history would: a key is accepted iff no acceptance of it is less than `ttl` old. */
  ghost predicate Faithful(ttl: int, checks: seq<Check>, now: int, key: Key) {
    Accepts(Run(ttl, checks), now, key) <==> forall i: nat :: i < |checks| ==> !Blocks(ttl, checks, i, now, key)
  }

  ghost predicate AtTimes(checks: seq<Check>, times: seq<int>) {
    |checks| == |times| && forall i :: 0 <= i < |times| ==> checks[i].now == times[i]
  }

  /** A reading that another has overtaken by `ttl` is itself at least `ttl` old by now. */
  ghost predicate ClockAllows(ttl: int, times: seq<int>, now: int) {
    forall i, j :: 0 <= i < j < |times| && times[j] - times[i] >= ttl ==> now - times[i] >= ttl
  }

  /**
   The guard refines the full history for every choice of keys exactly when the
   clock readings allow it, so a clock set back by less than it takes to make a
   stale entry young again does no harm.
   */
  lemma FaithfulIffClockAllows(ttl: int, times: seq<int>, now: int)
    ensures (forall checks: seq<Check>, key: Key :: AtTimes(checks, times) ==> Faithful(ttl, checks, now, key))
            <==> ClockAllows(ttl, times, now)
  {
    if ClockAllows(ttl, times, now) {
      forall checks: seq<Check>, key: Key | AtTimes(checks, times) ensures Faithful(ttl, checks, now, key) {
        AcceptsIffForgotten(ttl, checks, now, key);
      }
    } else {
      var i, j :| 0 <= i < j < |times| && times[j] - times[i] >= ttl && now - times[i] < ttl;
      ForgottenKeyReadmitted(ttl, times, now, i, j);
    }
  }

  /** One key checked once, at a reading that another overtakes by `ttl`, is accepted again too early. */
  lemma ForgottenKeyReadmitted(ttl: int, times: seq<int>, now: int, i: nat, j: nat)
    requires i < j < |times| && times[j] - times[i] >= ttl && now - times[i] < ttl
    ensures exists checks: seq<Check>, key: Key :: AtTimes(checks, times) && !Faithful(ttl, checks, now, key)
  {
    hide Run, Accepts;
    var key, other := ("rfq", "peer"), ("another rfq", "peer");
    var checks := seq(|times|, n requires 0 <= n < |times| => Check(times[n], if n == i then key else other));
    AcceptsIffForgotten(ttl, checks[..i], times[i], key);
    assert Blocks(ttl, checks, i, now, key);
    AcceptsIffForgotten(ttl, checks, now, key);
    assert checks[j].now - checks[i].now >= ttl;
    assert AtTimes(checks, times) && !Faithful(ttl, checks, now, key);
  }

  ghost predicate ClockNeverGoesBack(checks: seq<Check>) {
    forall i, j :: 0 <= i < j < |checks| ==> checks[i].now <= checks[j].now
  }

  /** In particular it does so under a clock that never goes back. */
  lemma AcceptsIffNotBlocked(ttl: int, checks: seq<Check>, now: int, key: Key)
    requires ClockNeverGoesBack(checks + [Check(now, key)])
    ensures Accepts(Run(ttl, checks), now, key)
            <==> forall i: nat :: i < |checks| ==> !Blocks(ttl, checks, i, now, key)
  {
    var all := checks + [Check(now, key)];
    var times := seq(|checks|, n requires 0 <= n < |checks| => checks[n].now);
    assert forall n :: 0 <= n < |checks| ==> times[n] == all[n].now <= all[|checks|].now;
    FaithfulIffClockAllows(ttl, times, now);
    assert AtTimes(checks, times) && Faithful(ttl, checks, now, key);
  }

  /** Nothing stale is kept: an entry is younger than `ttl`, or was recorded just now. */
  lemma {:induction false} KeptEntriesAreFresh(ttl: int, checks: seq<Check>, k: Key)
    requires checks != [] && k in Run(ttl, checks).seen
    ensures var age := checks[|checks| - 1].now - Run(ttl, checks).seen[k];
            Run(ttl, checks).ttl == ttl && (age < ttl || age == 0)
  {
    TtlIsFixed(ttl, checks[..|checks| - 1]);
  }

  lemma {:induction false} TtlIsFixed(ttl: int, checks: seq<Check>)
    ensures Run(ttl, checks).ttl == ttl
  {
    if checks != [] {
      TtlIsFixed(ttl, checks[..|checks| - 1]);
    }
  }

  /** A clock set back that does harm: a key accepted at 10 for 5 is accepted again at 12. */
  lemma ClockSetBackReadmits(key: Key, other: Key)
    requires key != other
    ensures var checks := [Check(10, key), Check(20, other)];
            Accepts(Run(5, checks), 12, key) && Blocks(5, checks, 0, 12, key)
  {
    var checks := [Check(10, key), Check(20, other)];
    assert checks[..0] == [] && checks[..1] == [Check(10, key)] && [Check(10, key)][..0] == [];
    assert Run(5, checks[..1]) == Guard(5, map[key := 10]);
  }
}
