/** The sliding-window rate limiter: one list of accepted times per address, pruned in place on
    every request. Times come from one clock and never fall. */
module RateLimiter {
  // ---- The specification: lists of times ----

  /** The times after the cutoff, in their order. */
  function Kept(times: seq<int>, cutoff: int): seq<int> {
    if times == [] then []
    else
      var n := |times| - 1;
      Kept(times[..n], cutoff) + if times[n] > cutoff then [times[n]] else []
  }

  function Times(hits: map<string, seq<int>>, ip: string): seq<int> {
    if ip in hits then hits[ip] else []
  }

  /** One request: the lists afterwards, and whether it may pass. */
  function Request(hits: map<string, seq<int>>, ip: string, now: int, limit: int, window: int)
      : (map<string, seq<int>>, bool)
  {
    var kept := Kept(Times(hits, ip), now - window);
    if |kept| >= limit then (hits[ip := kept], false) else (hits[ip := kept + [now]], true)
  }

  datatype State = State(
    hits: map<string, seq<int>>,
    accepted: map<string, seq<int>>,   // everything ever let through
    seen: map<string, int>,            // when each address last asked
    now: int)

  datatype Event = Event(ip: string, elapsed: nat)

  function Init(start: int): State {
    State(map[], map[], map[], start)
  }

  function Step(s: State, e: Event, limit: int, window: int): State {
    var now := s.now + e.elapsed;
    var (hits, allowed) := Request(s.hits, e.ip, now, limit, window);
    State(hits, if allowed then s.accepted[e.ip := Times(s.accepted, e.ip) + [now]] else s.accepted,
          s.seen[e.ip := now], now)
  }

  function Run(es: seq<Event>, start: int, limit: int, window: int): State {
    if es == [] then Init(start) else Step(Run(es[..|es| - 1], start, limit, window), es[|es| - 1], limit, window)
  }

  // ---- Kept lists ----

  ghost predicate Ascending(times: seq<int>) {
    forall i, j | 0 <= i < j < |times| :: times[i] <= times[j]
  }

  /** Pruning twice is pruning once, with the later cutoff. */
  lemma {:induction false} KeptTwice(times: seq<int>, early: int, late: int)
    requires early <= late
    ensures Kept(Kept(times, early), late) == Kept(times, late)
  {
    if times != [] {
      var n := |times| - 1;
      KeptTwice(times[..n], early, late);
      var k := Kept(times[..n], early);
      assert (k + [times[n]])[..|k|] == k;
      assert k + [] == k;
    }
  }

  lemma KeptOneMore(times: seq<int>, t: int, cutoff: int)
    requires t > cutoff
    ensures Kept(times + [t], cutoff) == Kept(times, cutoff) + [t]
  {
    assert (times + [t])[..|times|] == times;
  }

  /** Of an ascending list the kept ones are the last. */
  lemma {:induction false} KeptAreLast(times: seq<int>, cutoff: int)
    requires Ascending(times)
    ensures |Kept(times, cutoff)| <= |times|
    ensures forall i | 0 <= i < |times| :: times[i] <= cutoff <==> i < |times| - |Kept(times, cutoff)|
  {
    if times != [] { KeptAreLast(times[..|times| - 1], cutoff); }
  }

  // ---- What every run keeps ----

  /** `limit` acceptances later, at least the window has gone by. */
  ghost predicate Spread(times: seq<int>, limit: nat, window: int) {
    forall i, j | 0 <= i < |times| && 0 <= j < |times| && j == i + limit :: times[j] - times[i] >= window
  }

  ghost predicate AddressInv(s: State, ip: string, limit: int, window: int) {
    var times := Times(s.accepted, ip);
    && Ascending(times)
    && (forall t | t in times :: t <= s.now)
    && (limit >= 0 ==> Spread(times, limit, window))
    && (if ip in s.seen then
          s.seen[ip] <= s.now && Times(s.hits, ip) == Kept(times, s.seen[ip] - window)
        else ip !in s.hits && times == [])
  }

  lemma OneMoreGranted(before: seq<int>, now: int, limit: nat, window: int)
    requires Ascending(before) && (forall t | t in before :: t <= now) && Spread(before, limit, window)
    requires |Kept(before, now - window)| < limit
    ensures Ascending(before + [now]) && Spread(before + [now], limit, window)
  {
    KeptAreLast(before, now - window);
    hide Kept;
    assert forall i | 0 <= i < |before| :: before[i] in before;
  }

  /** What the limiter has kept prunes to the same as the full history. */
  lemma KeptIsEnough(s: State, e: Event, limit: int, window: int)
    requires AddressInv(s, e.ip, limit, window)
    ensures Kept(Times(s.hits, e.ip), s.now + e.elapsed - window)
            == Kept(Times(s.accepted, e.ip), s.now + e.elapsed - window)
  {
    if e.ip in s.seen {
      KeptTwice(Times(s.accepted, e.ip), s.seen[e.ip] - window, s.now + e.elapsed - window);
    }
    hide Ascending, Spread;
  }

  lemma RequestedAddress(s: State, e: Event, limit: int, window: int)
    requires AddressInv(s, e.ip, limit, window) && window > 0
    ensures AddressInv(Step(s, e, limit, window), e.ip, limit, window)
    ensures var before, now := Times(s.accepted, e.ip), s.now + e.elapsed;
            && Request(s.hits, e.ip, now, limit, window).1 == (|Kept(before, now - window)| < limit)
            && Times(Step(s, e, limit, window).accepted, e.ip)
               == if |Kept(before, now - window)| < limit then before + [now] else before
  {
    hide Kept, Ascending, Spread;
    var now := s.now + e.elapsed;
    var before := Times(s.accepted, e.ip);
    KeptIsEnough(s, e, limit, window);
    KeptOneMore(before, now, now - window);
    if |Kept(before, now - window)| < limit { OneMoreGranted(before, now, limit, window); }
  }

  lemma OtherAddress(s: State, e: Event, ip: string, limit: int, window: int)
    requires AddressInv(s, ip, limit, window) && ip != e.ip
    ensures AddressInv(Step(s, e, limit, window), ip, limit, window)
  {
    hide Kept;
  }

  lemma {:induction false} RunKeepsAddress(es: seq<Event>, start: int, limit: int, window: int, ip: string)
    requires window > 0
    ensures AddressInv(Run(es, start, limit, window), ip, limit, window)
  {
    if es != [] {
      var s, e := Run(es[..|es| - 1], start, limit, window), es[|es| - 1];
      RunKeepsAddress(es[..|es| - 1], start, limit, window, ip);
      if ip == e.ip { RequestedAddress(s, e, limit, window); } else { OtherAddress(s, e, ip, limit, window); }
      hide AddressInv, Step;
    }
  }

  // ---- The promises ----

  /** After every run the list of an address is all it was ever granted, cut to the window that
      ended when it last asked. */
  lemma ListIsRecentHistory(es: seq<Event>, start: int, limit: int, window: int, ip: string)
    requires window > 0
    ensures var s := Run(es, start, limit, window);
            ip in s.seen ==> && Times(s.hits, ip) == Kept(Times(s.accepted, ip), s.seen[ip] - window)
                             && forall t | t in Times(s.accepted, ip) :: t <= s.now
  {
    RunKeepsAddress(es, start, limit, window, ip);
    hide Run, Kept;
  }

  ghost predicate OnlyTouches(s: State, t: State, ip: string) {
    forall o | o != ip :: Times(t.hits, o) == Times(s.hits, o) && Times(t.accepted, o) == Times(s.accepted, o)
  }

  /** A request is refused exactly when its address has been granted `limit` within the window that
      ends now, and nothing changes for any other address. */
  lemma RefusedExactlyWhenFull(es: seq<Event>, e: Event, start: int, limit: int, window: int)
    requires window > 0
    ensures var s := Run(es, start, limit, window);
            var t := Run(es + [e], start, limit, window);
            var now := s.now + e.elapsed;
            var before := Times(s.accepted, e.ip);
            && (Request(s.hits, e.ip, now, limit, window).1 <==> |Kept(before, now - window)| < limit)
            && Times(t.accepted, e.ip) == (if |Kept(before, now - window)| < limit then before + [now] else before)
            && OnlyTouches(s, t, e.ip)
  {
    hide Kept, AddressInv, OnlyTouches, Request, Run, Step;
    RunKeepsAddress(es, start, limit, window, e.ip);
    var s := Run(es, start, limit, window);
    RunOneMore(es, e, start, limit, window);
    RequestedAddress(s, e, limit, window);
    StepTouchesOne(s, e, limit, window);
  }

  lemma RunOneMore(es: seq<Event>, e: Event, start: int, limit: int, window: int)
    ensures Run(es + [e], start, limit, window) == Step(Run(es, start, limit, window), e, limit, window)
  {
    hide Step;
    assert (es + [e])[..|es|] == es;
  }

  lemma StepTouchesOne(s: State, e: Event, limit: int, window: int)
    ensures OnlyTouches(s, Step(s, e, limit, window), e.ip)
  {
    hide Kept;
  }

  /** The times in the half-open interval. */
  function Within(times: seq<int>, from: int, to: int): seq<int> {
    if times == [] then []
    else
      var n := |times| - 1;
      Within(times[..n], from, to) + if from <= times[n] < to then [times[n]] else []
  }

  lemma {:induction false} WithinFrom(times: seq<int>, from: int, to: int, k: nat)
    requires k <= |times| && forall i | 0 <= i < k :: times[i] < from
    ensures |Within(times, from, to)| <= |times| - k
  {
    if |times| > 0 {
      var n := |times| - 1;
      WithinFrom(times[..n], from, to, if k <= n then k else n);
    }
  }

  lemma {:induction false} WithinIsFew(times: seq<int>, from: int, to: int, limit: nat, window: int)
    requires Ascending(times) && Spread(times, limit, window) && to - from <= window
    ensures |Within(times, from, to)| <= limit
  {
    if times != [] {
      var n := |times| - 1;
      if from <= times[n] < to && n >= limit {
        assert times[n] - times[n - limit] >= window;
        WithinFrom(times, from, to, n - limit + 1);
      } else if from <= times[n] < to {
        WithinFrom(times, from, to, 0);
      } else {
        WithinIsFew(times[..n], from, to, limit, window);
      }
    }
  }

  /** No half-open interval as long as the window, open at either end, holds more than `limit`
      granted requests of one address. */
  lemma NeverMoreThanLimit(es: seq<Event>, start: int, limit: nat, window: int, ip: string, a: int)
    requires window > 0
    ensures var granted := Times(Run(es, start, limit, window).accepted, ip);
            |Within(granted, a, a + window)| <= limit && |Within(granted, a + 1, a + window + 1)| <= limit
  {
    RunKeepsAddress(es, start, limit, window, ip);
    hide Run, Kept;
    var granted := Times(Run(es, start, limit, window).accepted, ip);
    WithinIsFew(granted, a, a + window, limit, window);
    WithinIsFew(granted, a + 1, a + window + 1, limit, window);
  }

  // ---- The limiter itself ----

  /** A slice: the first `len` places of a buffer. */
  datatype Slice = Slice(buf: array<int>, len: nat)

  /** Keeps what is after the cutoff, writing over the places already read. */
  method Compact(buf: array<int>, len: nat, cutoff: int) returns (kept: nat)
    requires len <= buf.Length
    modifies buf
    ensures kept <= len
    ensures buf[..kept] == Kept(old(buf[..len]), cutoff)
    ensures buf[len..] == old(buf[len..])
  {
    kept := 0;
    ghost var was := buf[..];
    for i := 0 to len
      invariant kept <= i
      invariant buf[i..] == was[i..]
      invariant buf[..kept] == Kept(was[..i], cutoff)
    {
      assert was[..i + 1][..i] == was[..i];
      assert buf[i] == was[i] by { assert buf[i..][0] == was[i..][0]; }
      if buf[i] > cutoff {
        buf[kept] := buf[i];
        kept := kept + 1;
      }
      assert buf[i + 1..] == was[i + 1..] by { assert buf[i + 1..] == buf[i..][1..]; }
    }
    assert was[..len] == old(buf[..len]);
  }

  class IpRateLimiter {
    const limit: int
    const window: int
    var hits: map<string, Slice>
    ghost var contents: map<string, seq<int>>   // what the slices hold
    ghost var buffers: set<array<int>>

    ghost predicate Valid()
      reads this, buffers
    {
      && contents.Keys == hits.Keys
      && (forall ip | ip in hits :: hits[ip].buf in buffers)
      && (forall ip | ip in hits :: hits[ip].len <= hits[ip].buf.Length && hits[ip].buf[..hits[ip].len] == contents[ip])
      && (forall ip, other | ip in hits && other in hits && ip != other :: hits[ip].buf != hits[other].buf)
    }

    constructor (limit: int, window: int)
      ensures Valid() && contents == map[] && buffers == {} && this.limit == limit && this.window == window
    {
      this.limit, this.window, hits, contents, buffers := limit, window, map[], map[], {};
    }

    method Allow(ip: string, now: int) returns (allowed: bool)
      requires Valid()
      modifies this, buffers
      ensures Valid() && fresh(buffers - old(buffers))
      ensures contents == Request(old(contents), ip, now, limit, window).0
      ensures allowed == Request(old(contents), ip, now, limit, window).1
    {
      hide Kept;
      var cutoff := now - window;
      ghost var kept := Kept(Times(contents, ip), cutoff);
      assert Request(contents, ip, now, limit, window)
          == if |kept| >= limit then (contents[ip := kept], false) else (contents[ip := kept + [now]], true);
      hide Request;
      var prev: Slice;
      if ip in hits { prev := hits[ip]; } else { var none := new int[0]; prev := Slice(none, 0); }
      assert prev.buf[..prev.len] == Times(contents, ip);
      var n := Compact(prev.buf, prev.len, cutoff);
      assert AllButOne(ip, prev.buf);
      if n >= limit {
        Put(ip, Slice(prev.buf, n), kept);
        return false;
      }
      var next := Append(prev.buf, n, now);
      assert AllButOne(ip, next.buf);
      Put(ip, next, kept + [now]);
      return true;
    }

    /** Everything is in order but the slice of one address, which may have the buffer to itself. */
    ghost predicate AllButOne(ip: string, buf: array<int>)
      reads this, buffers
    {
      && contents.Keys == hits.Keys
      && (forall o | o in hits :: hits[o].buf in buffers)
      && (forall o | o in hits && o != ip ::
            hits[o].len <= hits[o].buf.Length && hits[o].buf[..hits[o].len] == contents[o] && hits[o].buf != buf)
      && (forall o, p | o in hits && p in hits && o != p :: hits[o].buf != hits[p].buf)
    }

    method Put(ip: string, slice: Slice, ghost list: seq<int>)
      requires AllButOne(ip, slice.buf)
      requires slice.len <= slice.buf.Length && slice.buf[..slice.len] == list
      modifies this
      ensures Valid() && hits == old(hits)[ip := slice] && contents == old(contents)[ip := list]
      ensures buffers == old(buffers) + {slice.buf}
    {
      buffers := buffers + {slice.buf};
      hits := hits[ip := slice];
      contents := contents[ip := list];
    }
  }

  /** Writes behind the slice, into a longer buffer if there is no place left. */
  method Append(buf: array<int>, len: nat, t: int) returns (next: Slice)
    requires len <= buf.Length
    modifies buf
    ensures next.len == len + 1 <= next.buf.Length
    ensures next.buf == buf || fresh(next.buf)
    ensures next.buf[..next.len] == old(buf[..len]) + [t]
  {
    if len < buf.Length {
      buf[len] := t;
      assert buf[..len + 1] == buf[..len] + [t];
      next := Slice(buf, len + 1);
    } else {
      var longer := new int[2 * len + 1];
      for i := 0 to len
        invariant buf[..] == old(buf[..]) && longer[..i] == buf[..i]
      {
        longer[i] := buf[i];
      }
      longer[len] := t;
      assert buf[..len] == old(buf[..len]) && longer[..len + 1] == longer[..len] + [t];
      next := Slice(longer, len + 1);
    }
  }
}
