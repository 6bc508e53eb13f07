/**
 * Per-client sliding-window admission control. The limiter keeps, for every
 * client id it has seen, the list of its admitted request times. Each call
 * first drops, for every client, the times that are a full window old or
 * older, then admits the caller only if its remaining list is shorter than
 * the limit, recording the current time when it does.
 */
module RateLimiting {

  /** A timestamp is still inside the window when it is less than `window` seconds old. */
  predicate InWindow(t: real, now: real, window: int)
  {
    now - t < window as real
  }

  /** The prune at the start of `is_allowed`: keep the times still inside the window, in order. */
  function Prune(ts: seq<real>, now: real, window: int): (r: seq<real>)
    ensures |r| <= |ts|
  {
    if ts == [] then []
    else (if InWindow(ts[0], now, window) then [ts[0]] else []) + Prune(ts[1..], now, window)
  }

  /** `a` is `b` with some elements left out, the rest kept in their relative order. */
  predicate IsSubsequence(a: seq<real>, b: seq<real>)
  {
    if a == [] then true
    else if b == [] then false
    else (a[0] == b[0] && IsSubsequence(a[1..], b[1..])) || IsSubsequence(a, b[1..])
  }

  /**
   * Pruning keeps exactly the times inside the window, never reorders them
   * and never makes a list longer.
   */
  lemma {:induction false} PruneKeepsExactlyTheRecent(ts: seq<real>, now: real, window: int)
    ensures forall t :: t in Prune(ts, now, window) <==> t in ts && InWindow(t, now, window)
    ensures IsSubsequence(Prune(ts, now, window), ts)
    ensures |Prune(ts, now, window)| <= |ts|
  {
    if ts != [] {
      PruneKeepsExactlyTheRecent(ts[1..], now, window);
      var rest := Prune(ts[1..], now, window);
      assert ts == [ts[0]] + ts[1..];
      if InWindow(ts[0], now, window) {
        assert Prune(ts, now, window) == [ts[0]] + rest;
        assert Prune(ts, now, window)[1..] == rest;
      } else {
        assert Prune(ts, now, window) == rest;
        SubsequenceOfTail(rest, ts);
      }
    }
  }

  lemma SubsequenceOfTail(a: seq<real>, b: seq<real>)
    requires b != [] && IsSubsequence(a, b[1..])
    ensures IsSubsequence(a, b)
  {
  }

  /** A list whose times are all inside the window is left as it is. */
  lemma {:induction false} PruneKeepsRecentList(ts: seq<real>, now: real, window: int)
    requires forall i :: 0 <= i < |ts| ==> InWindow(ts[i], now, window)
    ensures Prune(ts, now, window) == ts
  {
    if ts != [] {
      PruneKeepsRecentList(ts[1..], now, window);
      assert ts == [ts[0]] + ts[1..];
    }
  }

  /** A list whose times are all a full window old or older is emptied. */
  lemma {:induction false} PruneDropsStaleList(ts: seq<real>, now: real, window: int)
    requires forall i :: 0 <= i < |ts| ==> !InWindow(ts[i], now, window)
    ensures Prune(ts, now, window) == []
  {
    if ts != [] {
      PruneDropsStaleList(ts[1..], now, window);
    }
  }

  /** The dict update at the start of `is_allowed`: every client's list is pruned, no key is added or removed. */
  function PruneAll(counts: map<string, seq<real>>, now: real, window: int): (r: map<string, seq<real>>)
    ensures r.Keys == counts.Keys
  {
    map ip | ip in counts :: Prune(counts[ip], now, window)
  }

  /** The caller's list after the prune; an unseen client gets the empty list `is_allowed` creates for it. */
  function OwnList(counts: map<string, seq<real>>, clientIp: string, now: real, window: int): seq<real>
  {
    if clientIp in counts then Prune(counts[clientIp], now, window) else []
  }

  datatype Admission = Admission(allowed: bool, counts: map<string, seq<real>>)

  /** What one call of `is_allowed` at time `now` decides, and the table it leaves. */
  function Admit(counts: map<string, seq<real>>, clientIp: string, now: real,
                 limit: int, window: int): (a: Admission)
    ensures a.allowed <==> |OwnList(counts, clientIp, now, window)| < limit
    ensures clientIp in a.counts
  {
    var own := OwnList(counts, clientIp, now, window);
    var allowed := |own| < limit;
    Admission(allowed, PruneAll(counts, now, window)[clientIp := if allowed then own + [now] else own])
  }

  /**
   * The caller is refused exactly when its pruned list already holds `limit`
   * times; a refusal records nothing, an admission appends `now` at the end.
   * The caller always has an entry afterwards, and no key is ever removed.
   */
  lemma AdmitDecision(counts: map<string, seq<real>>, clientIp: string, now: real,
                      limit: int, window: int)
    ensures var a := Admit(counts, clientIp, now, limit, window);
            var own := OwnList(counts, clientIp, now, window);
            && (a.allowed <==> |own| < limit)
            && a.counts.Keys == counts.Keys + {clientIp}
            && a.counts[clientIp] == (if a.allowed then own + [now] else own)
  {
  }

  /**
   * The prune covers every client, not only the caller: each other client's
   * list is filtered, in order, and never appended to.
   */
  lemma OthersOnlyPruned(counts: map<string, seq<real>>, clientIp: string, now: real,
                         limit: int, window: int, other: string)
    requires other in counts && other != clientIp
    ensures var a := Admit(counts, clientIp, now, limit, window);
            && a.counts[other] == Prune(counts[other], now, window)
            && IsSubsequence(a.counts[other], counts[other])
            && forall t :: t in a.counts[other] ==> t in counts[other] && InWindow(t, now, window)
  {
    PruneKeepsExactlyTheRecent(counts[other], now, window);
  }

  /** Every time stored for every client lies inside the window ending at `now`. */
  predicate AllInWindow(counts: map<string, seq<real>>, now: real, window: int)
  {
    forall ip, t :: ip in counts && t in counts[ip] ==> InWindow(t, now, window)
  }

  /** After a call with a positive window, no stored time is a full window old. */
  lemma AdmitLeavesOnlyRecent(counts: map<string, seq<real>>, clientIp: string, now: real,
                              limit: int, window: int)
    requires window > 0
    ensures AllInWindow(Admit(counts, clientIp, now, limit, window).counts, now, window)
  {
    var a := Admit(counts, clientIp, now, limit, window);
    forall ip | ip in a.counts
      ensures forall t :: t in a.counts[ip] ==> InWindow(t, now, window)
    {
      if ip in counts {
        PruneKeepsExactlyTheRecent(counts[ip], now, window);
      }
    }
  }

  /** The most entries a list may hold: the limit, or none when the limit is not positive. */
  function Capacity(limit: int): nat
  {
    if limit < 0 then 0 else limit
  }

  predicate Bounded(counts: map<string, seq<real>>, limit: int)
  {
    forall ip :: ip in counts ==> |counts[ip]| <= Capacity(limit)
  }

  /** No call lets a client's list grow past the limit. */
  lemma AdmitKeepsBound(counts: map<string, seq<real>>, clientIp: string, now: real,
                        limit: int, window: int)
    requires Bounded(counts, limit)
    ensures Bounded(Admit(counts, clientIp, now, limit, window).counts, limit)
  {
    var a := Admit(counts, clientIp, now, limit, window);
    forall ip | ip in a.counts
      ensures |a.counts[ip]| <= Capacity(limit)
    {
      if ip in counts {
        PruneKeepsExactlyTheRecent(counts[ip], now, window);
      }
    }
  }

  /** `k` copies of the time `t`. */
  function Copies(t: real, k: nat): (r: seq<real>)
    ensures |r| == k && forall i :: 0 <= i < k ==> r[i] == t
  {
    if k == 0 then [] else Copies(t, k - 1) + [t]
  }

  /** The table after `n` calls by one client at the same instant. */
  function BurstTable(counts: map<string, seq<real>>, clientIp: string, now: real,
                      limit: int, window: int, n: nat): map<string, seq<real>>
  {
    if n == 0 then counts
    else Admit(BurstTable(counts, clientIp, now, limit, window, n - 1), clientIp, now, limit, window).counts
  }

  /** The answers to those `n` calls, in order. */
  function BurstDecisions(counts: map<string, seq<real>>, clientIp: string, now: real,
                          limit: int, window: int, n: nat): (decisions: seq<bool>)
    ensures |decisions| == n
  {
    if n == 0 then []
    else
      BurstDecisions(counts, clientIp, now, limit, window, n - 1)
      + [Admit(BurstTable(counts, clientIp, now, limit, window, n - 1), clientIp, now, limit, window).allowed]
  }

  /** One call at `now` by a client that holds `m` copies of `now`. */
  lemma AdmitOnCopies(table: map<string, seq<real>>, clientIp: string, now: real,
                      limit: int, window: int, m: nat)
    requires window > 0
    requires OwnList(table, clientIp, now, window) == Copies(now, m)
    ensures var a := Admit(table, clientIp, now, limit, window);
            && (a.allowed <==> m < limit)
            && clientIp in a.counts
            && a.counts[clientIp] == Copies(now, if a.allowed then m + 1 else m)
  {
    var a := Admit(table, clientIp, now, limit, window);
    assert |OwnList(table, clientIp, now, window)| == m;
    if a.allowed {
      assert Copies(now, m) + [now] == Copies(now, m + 1);
    }
  }

  /** After `n` calls at one instant the client holds `min(n, limit)` copies of that instant. */
  lemma {:induction false} BurstTableHoldsCopies(counts: map<string, seq<real>>, clientIp: string,
                                                 now: real, limit: int, window: int, n: nat)
    requires window > 0
    requires clientIp in counts ==> Prune(counts[clientIp], now, window) == []
    ensures var own := OwnList(BurstTable(counts, clientIp, now, limit, window, n), clientIp, now, window);
            own == Copies(now, if n < Capacity(limit) then n else Capacity(limit))
  {
    if n > 0 {
      BurstTableHoldsCopies(counts, clientIp, now, limit, window, n - 1);
      var previous := BurstTable(counts, clientIp, now, limit, window, n - 1);
      var m := if n - 1 < Capacity(limit) then n - 1 else Capacity(limit);
      AdmitOnCopies(previous, clientIp, now, limit, window, m);
      var table := BurstTable(counts, clientIp, now, limit, window, n);
      var held := if n < Capacity(limit) then n else Capacity(limit);
      assert table[clientIp] == Copies(now, held);
      PruneKeepsRecentList(table[clientIp], now, window);
    }
  }

  /** The `n`-th call of such a burst is admitted exactly when fewer than `limit` calls preceded it. */
  lemma LastOfBurst(counts: map<string, seq<real>>, clientIp: string,
                    now: real, limit: int, window: int, n: nat)
    requires window > 0 && n > 0
    requires clientIp in counts ==> Prune(counts[clientIp], now, window) == []
    ensures BurstDecisions(counts, clientIp, now, limit, window, n)[n - 1] <==> n - 1 < limit
  {
    BurstTableHoldsCopies(counts, clientIp, now, limit, window, n - 1);
    var table := BurstTable(counts, clientIp, now, limit, window, n - 1);
    var m := if n - 1 < Capacity(limit) then n - 1 else Capacity(limit);
    AdmitOnCopies(table, clientIp, now, limit, window, m);
  }

  /**
   * With a positive window and no recent calls by the client, a burst of
   * calls at one instant admits exactly the first `limit` of them and
   * refuses every later one.
   */
  lemma BurstAdmitsExactlyLimit(counts: map<string, seq<real>>, clientIp: string,
                                now: real, limit: int, window: int, n: nat)
    requires window > 0
    requires clientIp in counts ==> Prune(counts[clientIp], now, window) == []
    ensures forall k :: 0 <= k < n ==>
              (BurstDecisions(counts, clientIp, now, limit, window, n)[k] <==> k < limit)
  {
    forall k | 0 <= k < n
      ensures BurstDecisions(counts, clientIp, now, limit, window, n)[k] <==> k < limit
    {
      AnswerOfBurst(counts, clientIp, now, limit, window, n, k);
    }
  }

  /** The `k`-th call of a burst of `n` is admitted exactly when `k < limit`. */
  lemma AnswerOfBurst(counts: map<string, seq<real>>, clientIp: string,
                      now: real, limit: int, window: int, n: nat, k: nat)
    requires window > 0 && k < n
    requires clientIp in counts ==> Prune(counts[clientIp], now, window) == []
    ensures BurstDecisions(counts, clientIp, now, limit, window, n)[k] <==> k < limit
  {
    AnswerIsFixed(counts, clientIp, now, limit, window, n, k);
    LastOfBurst(counts, clientIp, now, limit, window, k + 1);
  }

  /** The answer to the `k`-th call does not depend on how many calls follow it. */
  lemma {:induction false} AnswerIsFixed(counts: map<string, seq<real>>, clientIp: string,
                                         now: real, limit: int, window: int, n: nat, k: nat)
    requires k < n
    ensures BurstDecisions(counts, clientIp, now, limit, window, n)[k]
            == BurstDecisions(counts, clientIp, now, limit, window, k + 1)[k]
  {
    if k < n - 1 {
      AnswerIsFixed(counts, clientIp, now, limit, window, n - 1, k);
      BurstDecisionsExtend(counts, clientIp, now, limit, window, n);
      assert BurstDecisions(counts, clientIp, now, limit, window, n)[k]
          == BurstDecisions(counts, clientIp, now, limit, window, n - 1)[k];
    }
  }

  /** A longer burst only adds an answer at the end. */
  lemma BurstDecisionsExtend(counts: map<string, seq<real>>, clientIp: string,
                             now: real, limit: int, window: int, n: nat)
    requires n > 0
    ensures forall k :: 0 <= k < n - 1 ==>
              BurstDecisions(counts, clientIp, now, limit, window, n)[k]
              == BurstDecisions(counts, clientIp, now, limit, window, n - 1)[k]
  {
  }

  /**
   * Once every call the client made is a full window old, its next call is
   * admitted again (for any positive limit).
   */
  lemma RecoversAfterWindow(counts: map<string, seq<real>>, clientIp: string, later: real,
                            limit: int, window: int)
    requires limit > 0
    requires clientIp in counts ==>
      forall i :: 0 <= i < |counts[clientIp]| ==> later - counts[clientIp][i] >= window as real
    ensures Admit(counts, clientIp, later, limit, window).allowed
  {
    if clientIp in counts {
      PruneDropsStaleList(counts[clientIp], later, window);
    }
  }

  /** No stored time of the client lies after `now`. */
  predicate NothingAfter(counts: map<string, seq<real>>, clientIp: string, now: real)
  {
    clientIp in counts ==> forall i :: 0 <= i < |counts[clientIp]| ==> counts[clientIp][i] <= now
  }

  /**
   * With a window of zero or less no time up to `now` is inside it, so the
   * caller's pruned list is empty.
   */
  lemma ClosedWindowEmptiesOwnList(counts: map<string, seq<real>>, clientIp: string, now: real, window: int)
    requires window <= 0 && NothingAfter(counts, clientIp, now)
    ensures OwnList(counts, clientIp, now, window) == []
  {
    if clientIp in counts {
      PruneDropsStaleList(counts[clientIp], now, window);
    }
  }

  /** One call under a closed window is admitted and still leaves no time after `now`. */
  lemma ClosedWindowStep(counts: map<string, seq<real>>, clientIp: string, now: real, limit: int, window: int)
    requires window <= 0 && limit > 0 && NothingAfter(counts, clientIp, now)
    ensures Admit(counts, clientIp, now, limit, window).allowed
    ensures NothingAfter(Admit(counts, clientIp, now, limit, window).counts, clientIp, now)
  {
    ClosedWindowEmptiesOwnList(counts, clientIp, now, window);
    assert Admit(counts, clientIp, now, limit, window).counts[clientIp] == [now];
  }

  /** Under a closed window a burst never stores a time after `now`. */
  lemma {:induction false} ClosedWindowTable(counts: map<string, seq<real>>, clientIp: string,
                                             now: real, limit: int, window: int, n: nat)
    requires window <= 0 && limit > 0 && NothingAfter(counts, clientIp, now)
    ensures NothingAfter(BurstTable(counts, clientIp, now, limit, window, n), clientIp, now)
  {
    if n > 0 {
      ClosedWindowTable(counts, clientIp, now, limit, window, n - 1);
      ClosedWindowNext(counts, clientIp, now, limit, window, n);
    }
  }

  /** One more call of a closed-window burst keeps every stored time at or before `now`. */
  lemma ClosedWindowNext(counts: map<string, seq<real>>, clientIp: string,
                         now: real, limit: int, window: int, n: nat)
    requires window <= 0 && limit > 0 && n > 0
    requires NothingAfter(BurstTable(counts, clientIp, now, limit, window, n - 1), clientIp, now)
    ensures NothingAfter(BurstTable(counts, clientIp, now, limit, window, n), clientIp, now)
  {
    ClosedWindowStep(BurstTable(counts, clientIp, now, limit, window, n - 1), clientIp, now, limit, window);
  }

  /**
   * With a window of zero or less and a positive limit, every call of a
   * same-instant burst is admitted: the time each call records has already
   * left the window when the next call prunes.
   */
  lemma ClosedWindowAdmitsEveryCall(counts: map<string, seq<real>>, clientIp: string,
                                    now: real, limit: int, window: int, n: nat)
    requires window <= 0 && limit > 0 && NothingAfter(counts, clientIp, now)
    ensures forall k :: 0 <= k < n ==> BurstDecisions(counts, clientIp, now, limit, window, n)[k]
  {
    forall k | 0 <= k < n
      ensures BurstDecisions(counts, clientIp, now, limit, window, n)[k]
    {
      AnswerIsFixed(counts, clientIp, now, limit, window, n, k);
      ClosedWindowTable(counts, clientIp, now, limit, window, k);
      ClosedWindowStep(BurstTable(counts, clientIp, now, limit, window, k), clientIp, now, limit, window);
    }
  }

  /**
   * `Admit` retold in the order `is_allowed` works: prune every list, give an
   * unseen caller an empty list, then refuse or append.
   */
  lemma AdmitInSteps(counts: map<string, seq<real>>, clientIp: string, now: real, limit: int, window: int,
                     pruned: map<string, seq<real>>, entered: map<string, seq<real>>)
    requires pruned == PruneAll(counts, now, window)
    requires entered == if clientIp in pruned then pruned else pruned[clientIp := []]
    ensures clientIp in entered
    ensures Admit(counts, clientIp, now, limit, window).allowed <==> |entered[clientIp]| < limit
    ensures |entered[clientIp]| >= limit ==> Admit(counts, clientIp, now, limit, window).counts == entered
    ensures |entered[clientIp]| < limit ==>
              Admit(counts, clientIp, now, limit, window).counts == entered[clientIp := entered[clientIp] + [now]]
  {
    var own := OwnList(counts, clientIp, now, window);
    assert entered == pruned[clientIp := own];
  }

  /** The `RateLimiter` object: its limits and the table `request_counts` it updates in place. */
  class RateLimiter {
    const requestsPerWindow: int
    const windowSeconds: int
    var requestCounts: map<string, seq<real>>

    /** No list ever holds more entries than the limit allows. */
    ghost predicate Valid()
      reads this
    {
      Bounded(requestCounts, requestsPerWindow)
    }

    constructor (requestsPerWindow: int := 100, windowSeconds: int := 3600)
      ensures Valid()
      ensures this.requestsPerWindow == requestsPerWindow
      ensures this.windowSeconds == windowSeconds
      ensures requestCounts == map[]
    {
      this.requestsPerWindow := requestsPerWindow;
      this.windowSeconds := windowSeconds;
      requestCounts := map[];
    }

    /** `is_allowed`, with the clock reading `time.time()` passed in as `now`. */
    method IsAllowed(clientIp: string, now: real) returns (allowed: bool)
      requires Valid()
      modifies this
      ensures Valid()
      ensures var a := Admit(old(requestCounts), clientIp, now, requestsPerWindow, windowSeconds);
              allowed == a.allowed && requestCounts == a.counts
      ensures windowSeconds > 0 ==> AllInWindow(requestCounts, now, windowSeconds)
    {
      ghost var counts := requestCounts;
      AdmitKeepsBound(requestCounts, clientIp, now, requestsPerWindow, windowSeconds);
      if windowSeconds > 0 {
        AdmitLeavesOnlyRecent(requestCounts, clientIp, now, requestsPerWindow, windowSeconds);
      }
      requestCounts := PruneAll(requestCounts, now, windowSeconds);
      ghost var pruned := requestCounts;
      if clientIp !in requestCounts {
        requestCounts := requestCounts[clientIp := []];
      }
      AdmitInSteps(counts, clientIp, now, requestsPerWindow, windowSeconds, pruned, requestCounts);
      if |requestCounts[clientIp]| >= requestsPerWindow {
        return false;
      }
      requestCounts := requestCounts[clientIp := requestCounts[clientIp] + [now]];
      return true;
    }
  }
}
