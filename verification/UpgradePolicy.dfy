/** Connection attempts per address: a table that sweeps idle entries on every 64th call answers
    exactly as a table that never forgets. */
module UpgradePolicy {
  import opened RateLimit

  const WINDOW_MINUTE_MS := 60_000
  const ATTEMPT_WINDOW_TTL_MS := 600_000
  const ATTEMPT_WINDOW_SWEEP_INTERVAL := 64

  datatype Attempts = Attempts(window: Window, lastSeenAt: int)

  datatype Policy = Policy(table: map<string, Attempts>, evaluations: nat)

  // `connected` are the addresses with an open connection when the request arrives.
  datatype Request = Request(ip: string, connected: set<string>, now: int)

  function Seen(table: map<string, Attempts>, ip: string, now: int): map<string, Attempts> {
    table[ip := if ip in table then table[ip].(lastSeenAt := now) else Attempts(Window(now, 0), now)]
  }

  function Swept(table: map<string, Attempts>, connected: set<string>, now: int): map<string, Attempts> {
    map ip | ip in table && !(now - table[ip].lastSeenAt >= ATTEMPT_WINDOW_TTL_MS && ip !in connected) :: table[ip]
  }

  /** The attempt limit of one upgrade request; `sweeps` is false for the table that never forgets. */
  function Evaluate(p: Policy, limit: nat, r: Request, sweeps: bool): Outcome<Policy> {
    var seen := Seen(p.table, r.ip, r.now);
    var evaluations := p.evaluations + 1;
    var kept := if sweeps && evaluations % ATTEMPT_WINDOW_SWEEP_INTERVAL == 0 then Swept(seen, r.connected, r.now) else seen;
    var counter := ConsumeWindow(seen[r.ip].window, limit, WINDOW_MINUTE_MS, r.now);
    var counted := if r.ip in kept then kept[r.ip := seen[r.ip].(window := counter.next)] else kept;
    Outcome(Policy(counted, evaluations), counter.admitted)
  }

  function RunPolicy(limit: nat, requests: seq<Request>, sweeps: bool): Policy
    decreases |requests|
  {
    if requests == [] then Policy(map[], 0)
    else Evaluate(RunPolicy(limit, requests[..|requests| - 1], sweeps), limit, requests[|requests| - 1], sweeps).next
  }

  function Decision(limit: nat, requests: seq<Request>, k: nat, sweeps: bool): bool
    requires k < |requests|
  {
    Evaluate(RunPolicy(limit, requests[..k], sweeps), limit, requests[k], sweeps).admitted
  }

  // A forgotten entry is one the unforgetting table last touched at least ten minutes before `now`.
  predicate Matches(swept: Policy, full: Policy, now: int) {
    && swept.evaluations == full.evaluations
    && (forall ip :: ip in swept.table ==> ip in full.table && swept.table[ip] == full.table[ip])
    && (forall ip :: ip in full.table ==>
          && full.table[ip].window.start <= full.table[ip].lastSeenAt <= now
          && (ip !in swept.table ==> now - full.table[ip].lastSeenAt >= ATTEMPT_WINDOW_TTL_MS))
  }

  lemma EvaluateKeepsMatch(swept: Policy, full: Policy, limit: nat, r: Request, before: int)
    requires Matches(swept, full, before) && before <= r.now
    ensures Evaluate(swept, limit, r, true).admitted == Evaluate(full, limit, r, false).admitted
    ensures Matches(Evaluate(swept, limit, r, true).next, Evaluate(full, limit, r, false).next, r.now)
  {
  }

  predicate InOrder(requests: seq<Request>) {
    forall i, j :: 0 <= i < j < |requests| ==> requests[i].now <= requests[j].now
  }

  lemma {:induction false} RunsMatch(limit: nat, requests: seq<Request>, now: int)
    requires InOrder(requests)
    requires requests != [] ==> requests[|requests| - 1].now <= now
    ensures Matches(RunPolicy(limit, requests, true), RunPolicy(limit, requests, false), now)
    decreases |requests|
  {
    hide Evaluate;
    if requests == [] {
    } else {
      var front, r := requests[..|requests| - 1], requests[|requests| - 1];
      RunsMatch(limit, front, r.now);
      EvaluateKeepsMatch(RunPolicy(limit, front, true), RunPolicy(limit, front, false), limit, r, r.now);
    }
  }

  /** For every time-ordered sequence of requests, whatever connections open and close meanwhile,
      sweeping changes no decision. */
  lemma SweepingIsInvisible(limit: nat, requests: seq<Request>, k: nat)
    requires InOrder(requests)
    requires k < |requests|
    ensures Decision(limit, requests, k, true) == Decision(limit, requests, k, false)
  {
    hide Evaluate;
    RunsMatch(limit, requests[..k], requests[k].now);
    EvaluateKeepsMatch(RunPolicy(limit, requests[..k], true), RunPolicy(limit, requests[..k], false), limit, requests[k], requests[k].now);
  }

  // ---- The limit is enforced, address by address ----

  /** When one address asked, among the first requests. */
  function OwnTimes(requests: seq<Request>, ip: string): (times: seq<int>)
    decreases |requests|
  {
    if requests == [] then []
    else
      var last := requests[|requests| - 1];
      OwnTimes(requests[..|requests| - 1], ip) + if last.ip == ip then [last.now] else []
  }

  // A fixed window that opened with the first of the requests.
  function OwnWindow(limit: nat, times: seq<int>): Window
    requires times != []
  {
    RunWindow(Window(times[0], 0), limit, 60_000, times)
  }

  lemma FirstOfWindow(limit: nat, t: int)
    ensures OwnWindow(limit, [t]) == ConsumeWindow(Window(t, 0), limit, 60_000, t).next
  {
    OneMoreRequest(Window(t, 0), limit, 60_000, [], t);
    assert [] + [t] == [t];
  }

  lemma {:induction false} TableHoldsOwnWindows(limit: nat, requests: seq<Request>, ip: string)
    ensures var table, own := RunPolicy(limit, requests, false).table, OwnTimes(requests, ip);
            && (ip in table <==> own != [])
            && (own != [] ==> table[ip].window == OwnWindow(limit, own) && table[ip].lastSeenAt == own[|own| - 1])
    decreases |requests|
  {
    hide ConsumeWindow;
    if requests == [] {
    } else {
      var front, r := requests[..|requests| - 1], requests[|requests| - 1];
      TableHoldsOwnWindows(limit, front, ip);
      var own := OwnTimes(front, ip);
      if r.ip == ip {
        if own == [] {
          FirstOfWindow(limit, r.now);
        } else {
          OneMoreRequest(Window(own[0], 0), limit, 60_000, own, r.now);
          assert (own + [r.now])[0] == own[0];
        }
      } else {
        assert own + [] == own;
      }
    }
  }

  /** Every decision is the one of a fixed window of one minute for that address alone, opened by its first
      request: other addresses, connections and sweeps do not matter. */
  lemma DecidedByOwnRequests(limit: nat, requests: seq<Request>, k: nat)
    requires InOrder(requests)
    requires k < |requests|
    ensures var own, r := OwnTimes(requests[..k], requests[k].ip), requests[k];
            Decision(limit, requests, k, true) ==
            if own == [] then limit > 0 else ConsumeWindow(OwnWindow(limit, own), limit, 60_000, r.now).admitted
  {
    SweepingIsInvisible(limit, requests, k);
    TableHoldsOwnWindows(limit, requests[..k], requests[k].ip);
  }

  /** How many requests of one address among those from `lo` on are admitted. */
  function Admissions(limit: nat, requests: seq<Request>, ip: string, lo: nat): nat
    requires lo <= |requests|
    decreases |requests|
  {
    if |requests| == lo then 0
    else
      var last := |requests| - 1;
      Admissions(limit, requests[..last], ip, lo)
      + if requests[last].ip == ip && Decision(limit, requests, last, true) then 1 else 0
  }

  lemma {:induction false} OwnTimesOrdered(requests: seq<Request>, ip: string)
    requires InOrder(requests)
    ensures NonDecreasing(OwnTimes(requests, ip))
    ensures forall t <- OwnTimes(requests, ip) :: exists r :: r in requests && r.now == t
    ensures forall t <- OwnTimes(requests, ip) :: t <= requests[|requests| - 1].now
    decreases |requests|
  {
    if requests == [] {
    } else {
      var front, r := requests[..|requests| - 1], requests[|requests| - 1];
      OwnTimesOrdered(front, ip);
      assert r in requests && forall q <- front :: q in requests;
      var own := OwnTimes(front, ip);
      forall i | 0 <= i < |own| ensures own[i] <= r.now {
        assert own[i] in own;
      }
      assert own + [] == own;
    }
  }

  lemma {:induction false} OwnTimesSplit(requests: seq<Request>, ip: string, lo: nat)
    requires lo <= |requests|
    ensures OwnTimes(requests, ip) == OwnTimes(requests[..lo], ip) + OwnTimes(requests[lo..], ip)
    decreases |requests|
  {
    if |requests| == lo {
      assert requests[..lo] == requests && requests[lo..] == [];
    } else {
      var front := requests[..|requests| - 1];
      OwnTimesSplit(front, ip, lo);
      assert front[..lo] == requests[..lo] && requests[lo..][..|requests| - lo - 1] == front[lo..];
    }
  }

  lemma FreshWindowAdmits(limit: nat, t: int)
    ensures ConsumeWindow(RunWindow(Window(t, 0), limit, 60_000, []), limit, 60_000, t).admitted <==> limit > 0
  {
  }

  // The window w is where the earlier requests left it, or opens with the first of these.
  predicate Continues(w: Window, limit: nat, before: seq<int>, times: seq<int>) {
    if before != [] then w == OwnWindow(limit, before) else times != [] ==> w == Window(times[0], 0)
  }

  lemma WindowGoesOn(w: Window, limit: nat, before: seq<int>, own: seq<int>, t: int)
    requires Continues(w, limit, before, own + [t])
    ensures Continues(w, limit, before, own)
    ensures ConsumeWindow(RunWindow(w, limit, 60_000, own), limit, 60_000, t).admitted ==
            if before + own == [] then limit > 0
            else ConsumeWindow(OwnWindow(limit, before + own), limit, 60_000, t).admitted
  {
    hide ConsumeWindow;
    assert own != [] ==> (own + [t])[0] == own[0];
    if before != [] {
      assert (before + own)[0] == before[0];
      RunWindowSplit(Window(before[0], 0), limit, 60_000, before, own);
    } else if own == [] {
      assert [] + [t] == [t] && before + own == [];
      FreshWindowAdmits(limit, t);
    } else {
      assert before + own == own;
    }
  }

  lemma LastRequest(limit: nat, requests: seq<Request>, ip: string, lo: nat)
    requires lo < |requests|
    ensures var front, r := requests[..|requests| - 1], requests[|requests| - 1];
            && front[..lo] == requests[..lo]
            && OwnTimes(requests[lo..], ip) == OwnTimes(front[lo..], ip) + (if r.ip == ip then [r.now] else [])
            && Admissions(limit, requests, ip, lo)
            == Admissions(limit, front, ip, lo) + if r.ip == ip && Decision(limit, requests, |front|, true) then 1 else 0
  {
    hide Decision;
    assert requests[lo..][..|requests| - lo - 1] == requests[..|requests| - 1][lo..];
  }

  lemma NobodyAdmitted(limit: nat, requests: seq<Request>, ip: string, w: Window)
    ensures Admissions(limit, requests, ip, |requests|) == 0
    ensures WindowAdmits(w, limit, 60_000, OwnTimes(requests[|requests|..], ip)) == 0
  {
  }

  // The last request counts in the policy as it counts in the address's own window.
  lemma LastAdmission(limit: nat, requests: seq<Request>, ip: string, lo: nat, w: Window)
    requires InOrder(requests) && lo < |requests|
    requires Continues(w, limit, OwnTimes(requests[..lo], ip), OwnTimes(requests[lo..], ip))
    ensures var front := requests[..|requests| - 1];
            && Continues(w, limit, OwnTimes(front[..lo], ip), OwnTimes(front[lo..], ip))
            && (Admissions(limit, front, ip, lo) == WindowAdmits(w, limit, 60_000, OwnTimes(front[lo..], ip)) ==>
                  Admissions(limit, requests, ip, lo) == WindowAdmits(w, limit, 60_000, OwnTimes(requests[lo..], ip)))
  {
    hide ConsumeWindow, Decision, Continues, OwnWindow, OwnTimes, Admissions, WindowAdmits, RunWindow, InOrder;
    var front, r := requests[..|requests| - 1], requests[|requests| - 1];
    var before, own := OwnTimes(requests[..lo], ip), OwnTimes(front[lo..], ip);
    LastRequest(limit, requests, ip, lo);
    if r.ip == ip {
      WindowGoesOn(w, limit, before, own, r.now);
      DecidedByOwnRequests(limit, requests, |front|);
      OwnTimesSplit(front, ip, lo);
      OneMoreRequest(w, limit, 60_000, own, r.now);
    } else {
      assert own + [] == own;
    }
  }

  lemma {:induction false} AdmissionsAreTheWindows(limit: nat, requests: seq<Request>, ip: string, lo: nat, w: Window)
    requires InOrder(requests)
    requires lo <= |requests|
    requires Continues(w, limit, OwnTimes(requests[..lo], ip), OwnTimes(requests[lo..], ip))
    ensures Admissions(limit, requests, ip, lo) == WindowAdmits(w, limit, 60_000, OwnTimes(requests[lo..], ip))
    decreases |requests|
  {
    hide Continues, OwnTimes, Admissions, WindowAdmits;
    if |requests| == lo {
      NobodyAdmitted(limit, requests, ip, w);
    } else {
      LastAdmission(limit, requests, ip, lo, w);
      AdmissionsAreTheWindows(limit, requests[..|requests| - 1], ip, lo, w);
    }
  }

  /** So in any minute one address gets at most twice the limit through, however often it asks and whatever
      has been swept. */
  lemma AtMostTwicePerMinute(limit: nat, requests: seq<Request>, ip: string, lo: nat, from: int)
    requires InOrder(requests)
    requires lo <= |requests| && forall i :: lo <= i < |requests| ==> from <= requests[i].now < from + 60_000
    ensures Admissions(limit, requests, ip, lo) <= 2 * limit
  {
    hide ConsumeWindow, Evaluate, Admissions;
    var before, times := OwnTimes(requests[..lo], ip), OwnTimes(requests[lo..], ip);
    OwnTimesOrdered(requests[..lo], ip);
    OwnTimesOrdered(requests[lo..], ip);
    forall t | t in times ensures from <= t < from + 60_000 {
      var r :| r in requests[lo..] && r.now == t;
      var i :| 0 <= i < |requests[lo..]| && requests[lo..][i] == r;
      assert requests[lo + i] == r;
    }
    var start := if before != [] then before[0] else if times != [] then times[0] else 0;
    var w := RunWindow(Window(start, 0), limit, 60_000, before);
    AdmissionsAreTheWindows(limit, requests, ip, lo, w);
    WindowAdmitsTwiceTheLimit(start, limit, 60_000, before, times, from);
  }

  /** What a sweep, on every 64th call, leaves: the addresses seen within the last ten minutes and those
      still connected, each with its window. */
  lemma SweepKeepsIff(p: Policy, limit: nat, r: Request, ip: string)
    requires ip != r.ip && ip in p.table
    ensures var after := Evaluate(p, limit, r, true).next;
            && (ip in after.table <==>
                  (p.evaluations + 1) % 64 != 0 || r.now - p.table[ip].lastSeenAt < 600_000 || ip in r.connected)
            && (ip in after.table ==> after.table[ip] == p.table[ip])
            && after.evaluations == p.evaluations + 1
  {
  }

  class SecurityPolicy {
    var ipAttemptWindows: map<string, Attempts>
    var ipConnectionCounts: map<string, nat>
    var evaluateCount: nat
    const connectionAttemptsPerMinute: nat

    ghost function View(): Policy
      reads this
    {
      Policy(ipAttemptWindows, evaluateCount)
    }

    // Open connections per address; an address without any has no entry.
    ghost predicate Valid()
      reads this
    {
      forall ip :: ip in ipConnectionCounts ==> ipConnectionCounts[ip] > 0
    }

    constructor (connectionAttemptsPerMinute: nat)
      ensures Valid() && View() == Policy(map[], 0) && ipConnectionCounts == map[]
      ensures this.connectionAttemptsPerMinute == connectionAttemptsPerMinute
    {
      ipAttemptWindows, ipConnectionCounts, evaluateCount := map[], map[], 0;
      this.connectionAttemptsPerMinute := connectionAttemptsPerMinute;
    }

    method IncrementConnectionCount(remoteAddress: string)
      requires Valid()
      modifies this`ipConnectionCounts
      ensures Valid()
      ensures remoteAddress == "" ==> ipConnectionCounts == old(ipConnectionCounts)
      ensures remoteAddress != "" ==>
                && remoteAddress in ipConnectionCounts
                && ipConnectionCounts[remoteAddress]
                   == (if remoteAddress in old(ipConnectionCounts) then old(ipConnectionCounts)[remoteAddress] else 0) + 1
                && ipConnectionCounts - {remoteAddress} == old(ipConnectionCounts) - {remoteAddress}
    {
      if remoteAddress == "" {
        return;
      }
      var count := if remoteAddress in ipConnectionCounts then ipConnectionCounts[remoteAddress] else 0;
      ipConnectionCounts := ipConnectionCounts[remoteAddress := count + 1];
    }

    // Undoes one increment; an address that was not counted stays uncounted.
    method DecrementConnectionCount(remoteAddress: string)
      requires Valid()
      modifies this`ipConnectionCounts
      ensures Valid()
      ensures remoteAddress == "" ==> ipConnectionCounts == old(ipConnectionCounts)
      ensures remoteAddress != "" ==>
                && (remoteAddress in ipConnectionCounts <==>
                    remoteAddress in old(ipConnectionCounts) && old(ipConnectionCounts)[remoteAddress] > 1)
                && (remoteAddress in ipConnectionCounts ==>
                      ipConnectionCounts[remoteAddress] == old(ipConnectionCounts)[remoteAddress] - 1)
                && ipConnectionCounts - {remoteAddress} == old(ipConnectionCounts) - {remoteAddress}
    {
      if remoteAddress == "" {
        return;
      }
      var next := (if remoteAddress in ipConnectionCounts then ipConnectionCounts[remoteAddress] else 1) - 1;
      if next <= 0 {
        ipConnectionCounts := ipConnectionCounts - {remoteAddress};
        return;
      }
      ipConnectionCounts := ipConnectionCounts[remoteAddress := next];
    }

    method SweepAttemptWindows(now: int)
      requires Valid()
      modifies this`ipAttemptWindows
      ensures ipAttemptWindows == Swept(old(ipAttemptWindows), ipConnectionCounts.Keys, now)
    {
      ghost var table := ipAttemptWindows;
      var rest := ipAttemptWindows.Keys;
      while rest != {}
        invariant rest <= table.Keys
        invariant ipAttemptWindows
               == map ip | ip in table
                           && (ip in rest
                               || !(now - table[ip].lastSeenAt >= ATTEMPT_WINDOW_TTL_MS && ip !in ipConnectionCounts))
                         :: table[ip]
        decreases rest
      {
        var ip :| ip in rest;
        rest := rest - {ip};
        var entry := ipAttemptWindows[ip];
        if now - entry.lastSeenAt >= ATTEMPT_WINDOW_TTL_MS
           && (if ip in ipConnectionCounts then ipConnectionCounts[ip] else 0) <= 0 {
          ipAttemptWindows := ipAttemptWindows - {ip};
        }
      }
    }

    method EvaluateAttempt(ip: string, now: int) returns (admitted: bool)
      requires Valid()
      modifies this`ipAttemptWindows, this`evaluateCount
      ensures Outcome(View(), admitted)
           == Evaluate(old(View()), connectionAttemptsPerMinute, Request(ip, ipConnectionCounts.Keys, now), true)
    {
      var entry := if ip in ipAttemptWindows then ipAttemptWindows[ip].(lastSeenAt := now) else Attempts(Window(now, 0), now);
      ipAttemptWindows := ipAttemptWindows[ip := entry];
      evaluateCount := evaluateCount + 1;
      if evaluateCount % ATTEMPT_WINDOW_SWEEP_INTERVAL == 0 {
        SweepAttemptWindows(now);
      }
      var window := entry.window;
      if now - window.start >= WINDOW_MINUTE_MS {
        window := Window(now, 0);
      }
      admitted := window.count < connectionAttemptsPerMinute;
      if admitted {
        window := window.(count := window.count + 1);
      }
      if ip in ipAttemptWindows {
        ipAttemptWindows := ipAttemptWindows[ip := entry.(window := window)];
      }
    }
  }
}
