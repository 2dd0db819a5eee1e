/**
 * The fixed-window rate limiter: a table from client identifier to the
 * number of requests seen in the current window and the time the window
 * ends. The table is one for the whole server, shared by every limiter;
 * the clock reading is a parameter.
 */
module RateLimiting {
  import opened Wrappers
  import opened Text
  import Entities

  /** A client's window: requests counted so far, and when the window ends (ms). */
  datatype Entry = Entry(count: int, resetTime: int)

  /** What `check` answers. */
  datatype Verdict = Verdict(success: bool, remaining: int)

  /** The window has ended strictly before `now`; a request at exactly
      `resetTime` is still inside it. */
  predicate Expired(e: Entry, now: int) {
    now > e.resetTime
  }

  /**
   * `check` for client `id`: a first request, or one after the window has
   * ended, opens a new window holding one request; a request inside the
   * window under the limit is counted; any other is refused and changes
   * nothing.
   */
  function Check(table: map<string, Entry>, id: string, limit: int, now: int, interval: int): (r: (Verdict, map<string, Entry>))
    ensures r.0.success || r.1 == table
    ensures forall k :: k != id ==> (k in r.1 <==> k in table)
    ensures forall k :: k in table && k != id ==> r.1[k] == table[k]
  {
    if id !in table || Expired(table[id], now) then
      (Verdict(true, limit - 1), table[id := Entry(1, now + interval)])
    else if table[id].count < limit then
      var count := table[id].count + 1;
      (Verdict(true, limit - count), table[id := table[id].(count := count)])
    else
      (Verdict(false, 0), table)
  }

  /** The entries `cleanup` keeps: those whose window has not ended. */
  function Unexpired(table: map<string, Entry>, now: int): (r: map<string, Entry>)
    ensures forall k :: k in r <==> k in table && !Expired(table[k], now)
    ensures forall k :: k in r ==> r[k] == table[k]
  {
    map k | k in table && !Expired(table[k], now) :: table[k]
  }

  /** `getIdentifier`: the first address of `x-forwarded-for` when that header
      is present and not empty, otherwise `x-real-ip`, otherwise "unknown". */
  function Identifier(forwarded: Option<string>, realIp: Option<string>): (r: string)
    ensures Entities.Truthy(forwarded) ==> ',' !in r
    ensures !Entities.Truthy(forwarded) && !Entities.Truthy(realIp) ==> r == "unknown"
  {
    if Entities.Truthy(forwarded) then Split(forwarded.value, ',')[0]
    else if Entities.Truthy(realIp) then realIp.value
    else "unknown"
  }

  /** The table shared by all limiters. */
  class Table {
    var entries: map<string, Entry>

    constructor()
      ensures entries == map[]
    {
      entries := map[];
    }
  }

  class RateLimiter {
    const interval: int
    const uniqueTokenPerInterval: int
    const table: Table

    constructor(interval: int, uniqueTokenPerInterval: int, table: Table)
      ensures this.interval == interval && this.uniqueTokenPerInterval == uniqueTokenPerInterval
      ensures this.table == table
    {
      this.interval := interval;
      this.uniqueTokenPerInterval := uniqueTokenPerInterval;
      this.table := table;
    }

    /** `check`, for the request whose headers are given, at time `now`. */
    method CheckRequest(forwarded: Option<string>, realIp: Option<string>, limit: int, now: int) returns (verdict: Verdict)
      modifies table
      ensures (verdict, table.entries) == Check(old(table.entries), Identifier(forwarded, realIp), limit, now, interval)
    {
      var id := Identifier(forwarded, realIp);
      if id !in table.entries || now > table.entries[id].resetTime {
        table.entries := table.entries[id := Entry(1, now + interval)];
        return Verdict(true, limit - 1);
      }
      var entry := table.entries[id];
      if entry.count < limit {
        table.entries := table.entries[id := entry.(count := entry.count + 1)];
        return Verdict(true, limit - (entry.count + 1));
      }
      verdict := Verdict(false, 0);
    }

    /** `cleanup` at time `now`: every entry whose window has ended is deleted. */
    method Cleanup(now: int)
      modifies table
      ensures table.entries == Unexpired(old(table.entries), now)
    {
      ghost var start := table.entries;
      var pending := table.entries.Keys;
      while pending != {}
        invariant pending <= start.Keys
        invariant forall k :: k in table.entries <==> k in start && (k in pending || !Expired(start[k], now))
        invariant forall k :: k in table.entries ==> table.entries[k] == start[k]
        decreases |pending|
      {
        var key :| key in pending;
        if now > table.entries[key].resetTime {
          table.entries := table.entries - {key};
        }
        pending := pending - {key};
      }
    }
  }

  /** The three limiters the server sets up: one minute windows. */
  const Minute := 60 * 1000

  method PreconfiguredLimiters(table: Table) returns (strict: RateLimiter, standard: RateLimiter, relaxed: RateLimiter)
    ensures strict.table == table && standard.table == table && relaxed.table == table
    ensures strict.interval == Minute && standard.interval == Minute && relaxed.interval == Minute
    ensures strict.uniqueTokenPerInterval == 10 && standard.uniqueTokenPerInterval == 30
    ensures relaxed.uniqueTokenPerInterval == 100
  {
    strict := new RateLimiter(Minute, 10, table);
    standard := new RateLimiter(Minute, 30, table);
    relaxed := new RateLimiter(Minute, 100, table);
  }

  // ---------------------------------------------------------------------
  // What the limiter promises

  /** A first request, or one after the window ended, opens a window of one
      request ending `interval` from now, and succeeds. */
  lemma NewWindow(table: map<string, Entry>, id: string, limit: int, now: int, interval: int)
    requires id !in table || now > table[id].resetTime
    ensures Check(table, id, limit, now, interval) == (Verdict(true, limit - 1), table[id := Entry(1, now + interval)])
  {
  }

  /** Inside the window, under the limit, the count goes up by one and the
      answer is the requests left; at or over the limit the request is
      refused and nothing changes. */
  lemma InsideWindow(table: map<string, Entry>, id: string, limit: int, now: int, interval: int)
    requires id in table && now <= table[id].resetTime
    ensures var (v, t) := Check(table, id, limit, now, interval);
      && (table[id].count < limit ==>
            v == Verdict(true, limit - t[id].count) && t == table[id := table[id].(count := table[id].count + 1)])
      && (table[id].count >= limit ==> v == Verdict(false, 0) && t == table)
  {
  }

  /** The comparison is strict: a request at exactly the end of the window
      is still counted against it. */
  lemma EndOfWindowIsInside(table: map<string, Entry>, id: string, limit: int, interval: int)
    requires id in table && table[id].count >= limit
    ensures Check(table, id, limit, table[id].resetTime, interval) == (Verdict(false, 0), table)
    ensures Check(table, id, limit, table[id].resetTime + 1, interval).0.success
  {
  }

  /** Counts never exceed the limit, for a fixed limit of at least one. */
  ghost predicate Bounded(table: map<string, Entry>, limit: int) {
    forall k :: k in table ==> 1 <= table[k].count <= limit
  }

  lemma CheckKeepsBounded(table: map<string, Entry>, id: string, limit: int, now: int, interval: int)
    requires limit >= 1 && Bounded(table, limit)
    ensures Bounded(Check(table, id, limit, now, interval).1, limit)
    ensures Check(table, id, limit, now, interval).0.remaining >= 0
  {
  }

  lemma CleanupKeepsBounded(table: map<string, Entry>, limit: int, now: int)
    requires Bounded(table, limit)
    ensures Bounded(Unexpired(table, now), limit)
  {
  }

  /** Cleaning up never changes what a later check answers. */
  lemma CleanupIsInvisible(table: map<string, Entry>, id: string, limit: int, now: int, later: int, interval: int)
    requires now <= later
    ensures Check(Unexpired(table, now), id, limit, later, interval).0 == Check(table, id, limit, later, interval).0
  {
  }

  /** Requests from one client at the given times, in order: how many
      succeed, and the table after them. */
  function Run(table: map<string, Entry>, id: string, limit: int, interval: int, times: seq<int>): (r: (nat, map<string, Entry>))
  {
    if times == [] then (0, table)
    else
      var n := |times| - 1;
      var (ok, t) := Run(table, id, limit, interval, times[..n]);
      var (v, t') := Check(t, id, limit, times[n], interval);
      (if v.success then ok + 1 else ok, t')
  }

  /**
   * Within one window a client gets at most `limit` successes: however many
   * requests arrive before the window ends, the successes add to the count
   * and the window's end does not move.
   */
  lemma {:induction false} WindowCapsSuccesses(table: map<string, Entry>, id: string, limit: int, interval: int, times: seq<int>)
    requires id in table && table[id].count <= limit
    requires forall i :: 0 <= i < |times| ==> times[i] <= table[id].resetTime
    ensures id in Run(table, id, limit, interval, times).1
    ensures Run(table, id, limit, interval, times).1[id] == table[id].(count := table[id].count + Run(table, id, limit, interval, times).0)
    ensures table[id].count + Run(table, id, limit, interval, times).0 <= limit
  {
    if times != [] {
      var n := |times| - 1;
      WindowCapsSuccesses(table, id, limit, interval, times[..n]);
    }
  }

  /** The identifier is the text before the first comma of `x-forwarded-for`. */
  lemma ForwardedFirstAddress(first: string, rest: string, realIp: Option<string>)
    requires first != [] && ',' !in first
    ensures Identifier(Some(first + "," + rest), realIp) == first
    ensures Identifier(Some(first), realIp) == first
  {
    SplitAfterPiece(first, rest, ',');
    SplitNoSeparator(first, ',');
  }

  /** Without a usable `x-forwarded-for`, `x-real-ip` is used when present. */
  lemma RealIpFallback(forwarded: Option<string>, realIp: string)
    requires !Entities.Truthy(forwarded) && realIp != ""
    ensures Identifier(forwarded, Some(realIp)) == realIp
  {
  }
}
