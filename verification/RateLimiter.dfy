/** The per-client sliding window on registry writes: a map of queues of recent times. */
module RateLimiter {
  import opened Common

  type Times = seq<real>
  type Windows = map<string, Times>

  datatype Limits = Limits(rateMax: int, window: real, maxKeys: int)

  /** What the `popleft` loops leave of one queue. */
  function DropOld(bucket: Times, cutoff: real): Times {
    if bucket != [] && bucket[0] < cutoff then DropOld(bucket[1..], cutoff) else bucket
  }

  function Swept(m: Windows, cutoff: real): Windows {
    map k | k in m && DropOld(m[k], cutoff) != [] :: DropOld(m[k], cutoff)
  }

  /** One call of the limiter: the new map, and whether the write may go on. */
  function CheckRate(l: Limits, m: Windows, key: string, now: real): (Windows, bool) {
    var cutoff := now - l.window;
    var room := if key !in m && |m| >= l.maxKeys then Swept(m, cutoff) else m;
    if key !in m && |room| >= l.maxKeys then (room, false)
    else Admitted(l, room, key, if key in m then m[key] else [], now)
  }

  /** What becomes of a client's queue when the map has room for it. */
  function Admitted(l: Limits, m: Windows, key: string, queue: Times, now: real): (Windows, bool) {
    var bucket := DropOld(queue, now - l.window);
    if |bucket| >= l.rateMax then (m[key := bucket], false)
    else (m[key := bucket + [now]], true)
  }

  lemma {:induction false} OverwriteQueue(m: Windows, key: string, a: Times, b: Times)
    ensures m[key := a][key := b] == m[key := b]
  {
  }

  lemma {:induction false} NewQueue(l: Limits, m: Windows, key: string, now: real)
    ensures Admitted(l, m[key := []], key, [], now) == Admitted(l, m, key, [], now)
  {
    OverwriteQueue(m, key, [], []);
    OverwriteQueue(m, key, [], [] + [now]);
  }

  class WriteLimiter {
    const limits: Limits
    var writeTimes: Windows

    constructor (limits: Limits)
      ensures this.limits == limits && writeTimes == map[]
    {
      this.limits := limits;
      writeTimes := map[];
    }

    /** The `popleft` loop on one queue. */
    static method Aged(queue: Times, cutoff: real) returns (bucket: Times)
      ensures bucket == DropOld(queue, cutoff)
    {
      bucket := queue;
      while bucket != [] && bucket[0] < cutoff
        invariant DropOld(bucket, cutoff) == DropOld(queue, cutoff)
        decreases |bucket|
      {
        bucket := bucket[1..];
      }
    }

    method Sweep(cutoff: real)
      modifies this
      ensures writeTimes == Swept(old(writeTimes), cutoff)
    {
      ghost var before := writeTimes;
      var todo := writeTimes.Keys;
      while todo != {}
        invariant todo <= before.Keys
        invariant forall k :: k in todo ==> k in writeTimes && writeTimes[k] == before[k]
        invariant forall k :: k in before && k !in todo ==>
                    (k in writeTimes <==> DropOld(before[k], cutoff) != [])
                    && (k in writeTimes ==> writeTimes[k] == DropOld(before[k], cutoff))
        invariant writeTimes.Keys <= before.Keys
        decreases todo
      {
        var k :| k in todo;
        var bucket := Aged(writeTimes[k], cutoff);
        writeTimes := if bucket == [] then writeTimes - {k} else writeTimes[k := bucket];
        todo := todo - {k};
      }
    }

    method Check(key: string, now: real) returns (ok: bool)
      modifies this
      ensures (writeTimes, ok) == CheckRate(limits, old(writeTimes), key, now)
    {
      var cutoff := now - limits.window;
      if key !in writeTimes {
        if |writeTimes| >= limits.maxKeys {
          Sweep(cutoff);
        }
        if |writeTimes| >= limits.maxKeys {
          return false;
        }
        NewQueue(limits, writeTimes, key, now);
        writeTimes := writeTimes[key := []];
      }
      ok := Admit(key, now);
    }

    method Admit(key: string, now: real) returns (ok: bool)
      requires key in writeTimes
      modifies this
      ensures (writeTimes, ok) == Admitted(limits, old(writeTimes), key, old(writeTimes)[key], now)
    {
      var bucket := Aged(writeTimes[key], now - limits.window);
      OverwriteQueue(writeTimes, key, bucket, bucket + [now]);
      writeTimes := writeTimes[key := bucket];
      if |bucket| >= limits.rateMax {
        return false;
      }
      writeTimes := writeTimes[key := bucket + [now]];
      ok := true;
    }
  }

  // ---------------------------------------------------------------- runs

  datatype Write = Write(key: string, now: real, ok: bool)

  ghost predicate NonDecreasing(ws: seq<Write>) {
    forall i, j :: 0 <= i <= j < |ws| ==> ws[i].now <= ws[j].now
  }

  /** The maps a sequence of checks goes through, starting empty. */
  ghost predicate IsRun(l: Limits, maps: seq<Windows>, ws: seq<Write>) {
    && |maps| == |ws| + 1 && maps[0] == map[] && NonDecreasing(ws)
    && forall i :: 0 <= i < |ws| ==> StepAt(l, maps, ws, i)
  }

  ghost predicate StepAt(l: Limits, maps: seq<Windows>, ws: seq<Write>, i: nat)
    requires i < |ws| < |maps|
  {
    (maps[i + 1], ws[i].ok) == CheckRate(l, maps[i], ws[i].key, ws[i].now)
  }

  /** The accepted writes of one client, oldest first. */
  function Accepted(ws: seq<Write>, key: string): Times {
    if ws == [] then []
    else
      var w := ws[|ws| - 1];
      Accepted(ws[..|ws| - 1], key) + if w.ok && w.key == key then [w.now] else []
  }

  predicate Sorted(a: Times) {
    forall i, j :: 0 <= i <= j < |a| ==> a[i] <= a[j]
  }

  function Bucket(m: Windows, key: string): Times {
    if key in m then m[key] else []
  }

  /** The queue is the tail of the client's accepted writes, and what it forgot is older
      than a window before `now`. */
  ghost predicate Remembers(a: Times, bucket: Times, window: real, now: real) {
    && |bucket| <= |a| && bucket == a[|a| - |bucket|..]
    && forall i :: 0 <= i < |a| - |bucket| ==> a[i] < now - window
  }

  /** Any `rateMax + 1` consecutive accepted writes span more than a window. */
  ghost predicate Spaced(a: Times, l: Limits) {
    if l.rateMax <= 0 then a == []
    else forall i, j :: 0 <= i && i + l.rateMax <= j < |a| ==> a[j] - a[i] > l.window
  }

  ghost predicate QueueInv(l: Limits, a: Times, bucket: Times, now: real) {
    && Sorted(a) && (forall i :: 0 <= i < |a| ==> a[i] <= now)
    && Remembers(a, bucket, l.window, now)
    && Spaced(a, l)
  }

  ghost predicate ClientInv(l: Limits, m: Windows, a: Times, key: string, now: real) {
    QueueInv(l, a, Bucket(m, key), now)
  }

  predicate AllFrom(b: Times, cutoff: real) {
    forall i :: 0 <= i < |b| ==> b[i] >= cutoff
  }

  lemma {:induction false} DropOldKeeps(a: Times, bucket: Times, window: real, now: real, later: real)
    requires Sorted(a) && Remembers(a, bucket, window, now) && now <= later
    ensures Remembers(a, DropOld(bucket, later - window), window, later)
    ensures AllFrom(DropOld(bucket, later - window), later - window)
    decreases |bucket|
  {
    if bucket != [] {
      assert bucket[0] == a[|a| - |bucket|];
      if bucket[0] < later - window {
        assert bucket[1..] == a[|a| - |bucket| + 1..];
        assert Remembers(a, bucket[1..], window, later);
        DropOldKeeps(a, bucket[1..], window, later, later);
        assert DropOld(bucket, later - window) == DropOld(bucket[1..], later - window);
      } else {
        forall i | 0 <= i < |bucket|
          ensures bucket[i] >= later - window
        {
          assert bucket[i] == a[|a| - |bucket| + i];
        }
      }
    }
  }

  /** What one check does to one client's queue. */
  lemma {:induction false} StepBucket(l: Limits, m: Windows, w: Write, key: string)
    requires w.ok == CheckRate(l, m, w.key, w.now).1
    ensures var m' := CheckRate(l, m, w.key, w.now).0;
            var kept := DropOld(Bucket(m, key), w.now - l.window);
            if w.ok && w.key == key then |kept| < l.rateMax && Bucket(m', key) == kept + [w.now]
            else Bucket(m', key) == Bucket(m, key) || Bucket(m', key) == kept
  {
  }

  lemma {:induction false} StepKeepsClient(l: Limits, m: Windows, w: Write, a: Times, key: string, now: real)
    requires ClientInv(l, m, a, key, now) && now <= w.now
    requires w.ok == CheckRate(l, m, w.key, w.now).1
    ensures ClientInv(l, CheckRate(l, m, w.key, w.now).0,
                      a + (if w.ok && w.key == key then [w.now] else []), key, w.now)
  {
    StepBucket(l, m, w, key);
    StepKeepsQueue(l, a, Bucket(m, key), Bucket(CheckRate(l, m, w.key, w.now).0, key), w.ok && w.key == key, now, w.now);
  }

  lemma {:induction false} StepKeepsQueue(
      l: Limits, a: Times, bucket: Times, after: Times, accepted: bool, now: real, later: real)
    requires QueueInv(l, a, bucket, now) && now <= later
    requires var kept := DropOld(bucket, later - l.window);
             if accepted then |kept| < l.rateMax && after == kept + [later] else after == bucket || after == kept
    ensures QueueInv(l, a + (if accepted then [later] else []), after, later)
  {
    AgingKeepsQueue(l, a, bucket, now, later);
    if accepted {
      AcceptKeepsQueue(l, a, DropOld(bucket, later - l.window), later);
    } else {
      assert a + [] == a;
    }
  }

  lemma {:induction false} AcceptKeepsQueue(l: Limits, a: Times, kept: Times, now: real)
    requires QueueInv(l, a, kept, now) && |kept| < l.rateMax
    ensures QueueInv(l, a + [now], kept + [now], now)
  {
    AcceptKeepsSpacing(l, a, kept, now);
  }

  lemma {:induction false} AgingKeepsQueue(l: Limits, a: Times, bucket: Times, now: real, later: real)
    requires QueueInv(l, a, bucket, now) && now <= later
    ensures QueueInv(l, a, bucket, later) && QueueInv(l, a, DropOld(bucket, later - l.window), later)
  {
    DropOldKeeps(a, bucket, l.window, now, later);
  }

  lemma {:induction false} AcceptKeepsSpacing(l: Limits, a: Times, b: Times, now: real)
    requires Sorted(a) && (forall i :: 0 <= i < |a| ==> a[i] <= now) && Spaced(a, l)
    requires Remembers(a, b, l.window, now) && |b| < l.rateMax
    ensures Sorted(a + [now]) && Spaced(a + [now], l) && Remembers(a + [now], b + [now], l.window, now)
  {
    var a' := a + [now];
    forall i, j | 0 <= i && i + l.rateMax <= j < |a'|
      ensures a'[j] - a'[i] > l.window
    {
      if j == |a| {
        assert a[i] < now - l.window;
      }
    }
  }

  lemma {:induction false} RunKeepsClient(l: Limits, maps: seq<Windows>, ws: seq<Write>, i: nat, key: string)
    requires IsRun(l, maps, ws) && 0 < i < |maps|
    ensures ClientInv(l, maps[i], Accepted(ws[..i], key), key, ws[i - 1].now)
  {
    assert StepAt(l, maps, ws, i - 1);
    assert ws[..i][..i - 1] == ws[..i - 1];
    var w := ws[i - 1];
    if i == 1 {
      assert ClientInv(l, maps[0], [], key, w.now);
      StepKeepsClient(l, maps[0], w, [], key, w.now);
    } else {
      RunKeepsClient(l, maps, ws, i - 1, key);
      StepKeepsClient(l, maps[i - 1], w, Accepted(ws[..i - 1], key), key, ws[i - 2].now);
    }
  }

  // ---------------------------------------------------------------- main results

  /** The positions of a client's accepted writes inside a closed interval of one window. */
  function Within(a: Times, from: real, window: real): set<int> {
    set i | 0 <= i < |a| && from <= a[i] <= from + window
  }

  /** The `n` integers from `lo` on. */
  function Range(lo: int, n: nat): (r: set<int>)
    ensures |r| == n && forall i :: i in r <==> lo <= i < lo + n
  {
    if n == 0 then {} else Range(lo, n - 1) + {lo + n - 1}
  }

  lemma {:induction false} SpacedIsSparse(a: Times, l: Limits, from: real)
    requires Sorted(a) && Spaced(a, l)
    ensures |Within(a, from, l.window)| <= if l.rateMax > 0 then l.rateMax else 0
  {
    var lo := 0;
    while lo < |a| && a[lo] < from
      invariant lo <= |a| && forall i :: 0 <= i < lo ==> a[i] < from
    {
      lo := lo + 1;
    }
    SubsetSize(Within(a, from, l.window), Range(lo, if l.rateMax > 0 then l.rateMax else 0));
  }

  /** In every run, whatever the other clients do and whatever is swept, a client has at
      most `rateMax` accepted writes in every closed interval of one window. */
  lemma {:induction false} SlidingWindowBound(
      l: Limits, maps: seq<Windows>, ws: seq<Write>, key: string, from: real)
    requires IsRun(l, maps, ws)
    ensures |Within(Accepted(ws, key), from, l.window)| <= if l.rateMax > 0 then l.rateMax else 0
  {
    if ws != [] {
      RunKeepsClient(l, maps, ws, |ws|, key);
      assert ws[..|ws|] == ws;
      SpacedIsSparse(Accepted(ws, key), l, from);
    }
  }

  /** A known client is refused exactly when its last `rateMax` accepted writes all lie in
      the window that ends now, or none is ever allowed. */
  lemma {:induction false} RefusedIffWindowFull(l: Limits, maps: seq<Windows>, ws: seq<Write>, i: nat)
    requires IsRun(l, maps, ws) && i < |ws| && ws[i].key in maps[i]
    ensures var a := Accepted(ws[..i], ws[i].key);
            !ws[i].ok <==> l.rateMax <= 0 || (|a| >= l.rateMax && a[|a| - l.rateMax] >= ws[i].now - l.window)
  {
    assert i > 0;
    var a, w := Accepted(ws[..i], ws[i].key), ws[i];
    RunKeepsClient(l, maps, ws, i, w.key);
    assert StepAt(l, maps, ws, i);
    DropOldKeeps(a, maps[i][w.key], l.window, ws[i - 1].now, w.now);
    var b := DropOld(maps[i][w.key], w.now - l.window);
    if |b| >= l.rateMax > 0 {
      var k := |b| - l.rateMax;
      assert b[k] == a[|a| - |b| + k] && b[k] >= w.now - l.window;
    }
  }

  /** What is kept of a queue: its end from the first time that is recent enough. */
  ghost predicate IsKept(queue: Times, kept: Times, cutoff: real) {
    && |kept| <= |queue| && kept == queue[|queue| - |kept|..]
    && (forall i :: 0 <= i < |queue| - |kept| ==> queue[i] < cutoff)
    && (kept != [] ==> kept[0] >= cutoff)
  }

  lemma {:induction false} DropOldExact(queue: Times, kept: Times, cutoff: real)
    ensures DropOld(queue, cutoff) == kept <==> IsKept(queue, kept, cutoff)
  {
    if queue != [] && queue[0] < cutoff {
      DropOldExact(queue[1..], kept, cutoff);
      if |kept| < |queue| {
        assert queue[|queue| - |kept|..] == queue[1..][|queue[1..]| - |kept|..];
        assert forall i :: 0 < i < |queue| ==> queue[i] == queue[1..][i - 1];
      }
    } else if IsKept(queue, kept, cutoff) {
      assert |kept| == |queue|;
    }
  }

  /** The whole of one check: a new client finds the map swept if it is full and is turned away
      if it still is; otherwise what is kept of the client's queue decides, and the time of a
      write that may go on is added to it. No other queue changes but by the sweep. */
  lemma {:induction false} CheckExact(l: Limits, m: Windows, key: string, now: real, kept: Times)
    requires IsKept(Bucket(m, key), kept, now - l.window)
    ensures var (m', ok) := CheckRate(l, m, key, now);
            var room := if key in m || |m| < l.maxKeys then m else Swept(m, now - l.window);
            if key !in m && |room| >= l.maxKeys then !ok && m' == room
            else (ok <==> |kept| < l.rateMax) && m' == room[key := if ok then kept + [now] else kept]
  {
    DropOldExact(Bucket(m, key), kept, now - l.window);
  }

  /** The clients with an accepted write since then. */
  function ActiveSince(ws: seq<Write>, from: real): set<string> {
    set w | w in ws && w.ok && w.now >= from :: w.key
  }

  lemma {:induction false} AcceptedAre(ws: seq<Write>, key: string, t: real)
    ensures t in Accepted(ws, key) <==> exists w :: w in ws && w.ok && w.key == key && w.now == t
  {
    if ws != [] {
      var init, last := ws[..|ws| - 1], ws[|ws| - 1];
      AcceptedAre(init, key, t);
      assert forall w :: w in ws <==> w in init || w == last;
    }
  }

  /** A client is active exactly when one of its accepted writes is recent enough. */
  lemma {:induction false} ActiveIffAccepted(ws: seq<Write>, key: string, from: real)
    ensures key in ActiveSince(ws, from) <==> exists t :: t in Accepted(ws, key) && t >= from
  {
    if key in ActiveSince(ws, from) {
      var w :| w in ws && w.ok && w.now >= from && w.key == key;
      AcceptedAre(ws, key, w.now);
    }
    if t :| t in Accepted(ws, key) && t >= from {
      AcceptedAre(ws, key, t);
    }
  }

  /** What is kept of a client's queue is empty exactly when the client is not active. */
  lemma {:induction false} KeptIsActive(l: Limits, maps: seq<Windows>, ws: seq<Write>, i: nat, key: string)
    requires IsRun(l, maps, ws) && i < |ws|
    ensures var from := ws[i].now - l.window;
            DropOld(Bucket(maps[i], key), from) != [] <==> key in ActiveSince(ws[..i], from)
  {
    var from, a := ws[i].now - l.window, Accepted(ws[..i], key);
    ActiveIffAccepted(ws[..i], key, from);
    if i > 0 {
      RunKeepsClient(l, maps, ws, i, key);
      DropOldKeeps(a, Bucket(maps[i], key), l.window, ws[i - 1].now, ws[i].now);
      KeptEmptyIff(a, DropOld(Bucket(maps[i], key), from), l.window, ws[i].now);
    }
  }

  lemma {:induction false} KeptEmptyIff(a: Times, kept: Times, window: real, now: real)
    requires Remembers(a, kept, window, now) && AllFrom(kept, now - window)
    ensures kept != [] <==> exists t :: t in a && t >= now - window
  {
    if kept != [] {
      assert kept[0] == a[|a| - |kept|] && kept[0] in a;
    }
  }

  /** A sweep leaves exactly the clients that are active. */
  lemma {:induction false} SweepLeavesActive(l: Limits, maps: seq<Windows>, ws: seq<Write>, i: nat)
    requires IsRun(l, maps, ws) && i < |ws|
    ensures Swept(maps[i], ws[i].now - l.window).Keys == ActiveSince(ws[..i], ws[i].now - l.window)
  {
    var swept, active := Swept(maps[i], ws[i].now - l.window), ActiveSince(ws[..i], ws[i].now - l.window);
    forall key | key in swept.Keys
      ensures key in active
    {
      KeptIsActive(l, maps, ws, i, key);
    }
    forall key | key in active
      ensures key in swept.Keys
    {
      KeptIsActive(l, maps, ws, i, key);
    }
  }

  /** A client the map does not know has no accepted write left in the window, and is refused
      exactly when as many clients as the map may hold have one, or none is ever allowed. */
  lemma {:induction false} UnknownClientRefused(l: Limits, maps: seq<Windows>, ws: seq<Write>, i: nat)
    requires IsRun(l, maps, ws) && i < |ws| && ws[i].key !in maps[i]
    ensures var from := ws[i].now - l.window;
            && ws[i].key !in ActiveSince(ws[..i], from)
            && (!ws[i].ok <==> l.rateMax <= 0 || |ActiveSince(ws[..i], from)| >= l.maxKeys)
  {
    var from := ws[i].now - l.window;
    assert StepAt(l, maps, ws, i);
    KeptIsActive(l, maps, ws, i, ws[i].key);
    SweepLeavesActive(l, maps, ws, i);
    SweptIsSmaller(maps[i], from);
    assert |Swept(maps[i], from).Keys| == |Swept(maps[i], from)|;
  }

  lemma {:induction false} SweptIsSmaller(m: Windows, cutoff: real)
    ensures |Swept(m, cutoff)| <= |m|
  {
    SubsetSize(Swept(m, cutoff).Keys, m.Keys);
  }

  /** The map never holds more clients than its cap. */
  lemma {:induction false} KeysBounded(l: Limits, maps: seq<Windows>, ws: seq<Write>, i: nat)
    requires IsRun(l, maps, ws) && i < |maps|
    ensures |maps[i]| <= if l.maxKeys > 0 then l.maxKeys else 0
  {
    if i > 0 {
      KeysBounded(l, maps, ws, i - 1);
      assert StepAt(l, maps, ws, i - 1);
      var m, w := maps[i - 1], ws[i - 1];
      SweptIsSmaller(m, w.now - l.window);
      if w.key in m {
        assert maps[i].Keys == m.Keys;
      }
    }
  }
}
