/** The per-address token bucket, whose entries are collected when idle. */
module Ratelimiter {
  import opened Wrappers

  type Addr = nat

  const PACKET_COST := 50_000_000
  const MAX_TOKENS := 250_000_000
  const GARBAGE_COLLECT_TIME := 1_000_000_000
  /** Times are nanoseconds that 64-bit arithmetic can add without overflow. */
  const TIME_LIMIT := 0x4000_0000_0000_0000

  datatype Entry = Entry(lastTime: nat, tokens: int)

  type Table = map<Addr, Entry>

  predicate EntryOk(e: Entry) { 0 < e.tokens <= MAX_TOKENS }

  /** What an address gets at time `now`, given its entry if it has one. */
  function AllowOne(e: Option<Entry>, now: nat): (bool, Entry) {
    match e
    case None => (true, Entry(now, MAX_TOKENS - PACKET_COST))
    case Some(Entry(last, tokens)) =>
      var sum := tokens + (now - last);
      var filled := if sum > MAX_TOKENS then MAX_TOKENS else sum;
      if filled > PACKET_COST then (true, Entry(now, filled - PACKET_COST)) else (false, Entry(now, filled))
  }

  function EntryOf(t: Table, ip: Addr): Option<Entry> { if ip in t then Some(t[ip]) else None }

  /** The table of a limiter that never collects anything. */
  ghost predicate Shadows(table: Table, reference: Table, now: nat) {
    && (forall ip :: ip in table ==> ip in reference && reference[ip] == table[ip])
    && (forall ip :: ip in reference ==> EntryOk(reference[ip]) && reference[ip].lastTime <= now)
    && (forall ip :: ip in reference && ip !in table ==> now - reference[ip].lastTime > GARBAGE_COLLECT_TIME)
  }

  /** An entry that has been idle for more than a second is as good as none. */
  lemma IdleIsNew(e: Entry, now: nat)
    requires EntryOk(e) && now - e.lastTime > GARBAGE_COLLECT_TIME
    ensures AllowOne(Some(e), now) == AllowOne(None, now)
  {}

  class Ratelimiter {
    var table: Table
    /** The same table without collection, and the last time seen. */
    ghost var reference: Table
    ghost var clock: nat

    ghost predicate Valid()
      reads this
    {
      Shadows(table, reference, clock)
    }

    constructor ()
      ensures Valid() && table == map[] && reference == map[] && clock == 0
    {
      table, reference, clock := map[], map[], 0;
    }

    /** cleanup */
    method Cleanup(now: nat) returns (empty: bool)
      requires Valid() && clock <= now < TIME_LIMIT
      modifies this
      ensures Valid() && clock == now && reference == old(reference)
      ensures table ==
        map ip | ip in old(table) && now - old(table)[ip].lastTime <= GARBAGE_COLLECT_TIME :: old(table)[ip]
      ensures empty <==> table == map[]
    {
      clock := now;
      var todo := table.Keys;
      while todo != {}
        invariant todo <= old(table).Keys
        invariant forall ip ::
          ip in table <==> ip in old(table) && (ip in todo || now - old(table)[ip].lastTime <= GARBAGE_COLLECT_TIME)
        invariant forall ip :: ip in table ==> table[ip] == old(table)[ip]
        invariant reference == old(reference) && clock == now
        decreases |todo|
      {
        var key :| key in todo;
        if now - table[key].lastTime > GARBAGE_COLLECT_TIME {
          table := table - {key};
        }
        todo := todo - {key};
      }
      empty := |table| == 0;
    }

    /** Allow answers as if nothing were ever collected. */
    method Allow(ip: Addr, now: nat) returns (ok: bool)
      requires Valid() && clock <= now < TIME_LIMIT
      modifies this
      ensures Valid() && clock == now
      ensures ip in reference && reference == old(reference)[ip := reference[ip]]
      ensures (ok, reference[ip]) == AllowOne(EntryOf(old(reference), ip), now)
    {
      clock := now;
      if ip !in table {
        if ip in reference { IdleIsNew(reference[ip], now); }
        var entry := Entry(now, MAX_TOKENS - PACKET_COST);
        table := table[ip := entry];
        reference := reference[ip := entry];
        return true;
      }
      var entry := table[ip];
      entry := entry.(tokens := entry.tokens + (now - entry.lastTime));
      entry := entry.(lastTime := now);
      if entry.tokens > MAX_TOKENS {
        entry := entry.(tokens := MAX_TOKENS);
      }
      ok := entry.tokens > PACKET_COST;
      if ok {
        entry := entry.(tokens := entry.tokens - PACKET_COST);
      }
      table := table[ip := entry];
      reference := reference[ip := entry];
    }

    /** A whole history of queries and collections. */
    method Run(h: seq<Event>) returns (answers: seq<bool>)
      requires Valid() && Timed(h, clock)
      modifies this
      ensures Valid() && answers == Answers(old(reference), h)
    {
      hide Shadows, AllowOne, EntryOf, Answers, Timed;
      answers := [];
      NoEvents(h, clock);
      for i := 0 to |h|
        invariant Valid() && |answers| == i && Timed(h[i..], clock)
        invariant answers + Answers(reference, h[i..]) == Answers(old(reference), h)
      {
        NextEvent(reference, h, i, clock);
        match h[i] {
          case Collect(at) =>
            var _ := Cleanup(at);
            answers := answers + [false];
          case Query(ip, at) =>
            var ok := Allow(ip, at);
            answers := answers + [ok];
        }
      }
      LastEvent(reference);
    }
  }

  datatype Event = Query(ip: Addr, at: nat) | Collect(at: nat)

  /** Times do not run backwards. */
  ghost predicate Timed(h: seq<Event>, from: nat) {
    h == [] || (from <= h[0].at < TIME_LIMIT && Timed(h[1..], h[0].at))
  }

  /** The answers of a limiter that never collects; a collection counts as no. */
  function Answers(reference: Table, h: seq<Event>): (r: seq<bool>)
    ensures |r| == |h|
    decreases |h|
  {
    if h == [] then []
    else match h[0]
      case Collect(_) => [false] + Answers(reference, h[1..])
      case Query(ip, at) =>
        var (ok, e) := AllowOne(EntryOf(reference, ip), at);
        [ok] + Answers(reference[ip := e], h[1..])
  }

  lemma NoEvents(h: seq<Event>, clock: nat)
    requires Timed(h, clock)
    ensures h[0..] == h && h[|h|..] == []
  {}

  lemma LastEvent(reference: Table)
    ensures Answers(reference, []) == []
  {}

  lemma NextEvent(reference: Table, h: seq<Event>, i: nat, clock: nat)
    requires i < |h| && Timed(h[i..], clock)
    ensures clock <= h[i].at < TIME_LIMIT && Timed(h[i + 1..], h[i].at)
    ensures h[i].Collect? ==> Answers(reference, h[i..]) == [false] + Answers(reference, h[i + 1..])
    ensures h[i].Query? ==>
      var reply := AllowOne(EntryOf(reference, h[i].ip), h[i].at);
      Answers(reference, h[i..]) == [reply.0] + Answers(reference[h[i].ip := reply.1], h[i + 1..])
  {
    assert h[i..][0] == h[i] && h[i..][1..] == h[i + 1..];
  }

  // ----- how much one address can get

  /** How many of an address's queries in a history are allowed. */
  function Allowed(reference: Table, h: seq<Event>, ip: Addr): nat
    decreases |h|
  {
    if h == [] then 0
    else match h[0]
      case Collect(_) => Allowed(reference, h[1..], ip)
      case Query(q, at) =>
        var (ok, e) := AllowOne(EntryOf(reference, q), at);
        (if ok && q == ip then 1 else 0) + Allowed(reference[q := e], h[1..], ip)
  }

  ghost predicate TableOk(reference: Table, now: nat) {
    forall ip :: ip in reference ==> EntryOk(reference[ip]) && reference[ip].lastTime <= now
  }

  /** What the address can still spend by the given time. */
  function Funds(reference: Table, ip: Addr, until: nat): int {
    match EntryOf(reference, ip)
    case None => MAX_TOKENS
    case Some(e) => if e.tokens + (until - e.lastTime) > MAX_TOKENS then MAX_TOKENS else e.tokens + (until - e.lastTime)
  }

  lemma {:induction false} SpendsItsFunds(reference: Table, h: seq<Event>, ip: Addr, from: nat, to: nat)
    requires TableOk(reference, from) && Timed(h, from) && forall k :: 0 <= k < |h| ==> h[k].at <= to
    requires from <= to
    ensures Allowed(reference, h, ip) * PACKET_COST < Funds(reference, ip, from) + (to - from)
    decreases |h|
  {
    if h == [] {
      FundsPositive(reference, ip, from);
    } else {
      assert h[0].at <= to;
      forall k | 0 <= k < |h[1..]| ensures h[1..][k].at <= to { assert h[1..][k] == h[k + 1]; }
      match h[0]
      case Collect(at) =>
        SpendsItsFunds(reference, h[1..], ip, at, to);
        FundsGrow(reference, ip, from, at);
      case Query(q, at) =>
        var (ok, e) := AllowOne(EntryOf(reference, q), at);
        SpendsItsFunds(reference[q := e], h[1..], ip, at, to);
        OneQuery(reference, q, ip, from, at);
    }
  }

  lemma FundsPositive(reference: Table, ip: Addr, from: nat)
    requires TableOk(reference, from)
    ensures 0 < Funds(reference, ip, from) <= MAX_TOKENS
  {}

  lemma FundsGrow(reference: Table, ip: Addr, from: nat, at: nat)
    requires TableOk(reference, from) && from <= at
    ensures Funds(reference, ip, at) <= Funds(reference, ip, from) + (at - from)
  {}

  lemma OneQuery(reference: Table, q: Addr, ip: Addr, from: nat, at: nat)
    requires TableOk(reference, from) && from <= at
    ensures var (ok, e) := AllowOne(EntryOf(reference, q), at);
            && TableOk(reference[q := e], at)
            && (if ok && q == ip then PACKET_COST else 0) + Funds(reference[q := e], ip, at)
               <= Funds(reference, ip, from) + (at - from)
  {}

  /** In any window of t nanoseconds, packets allowed for one address cost less than five packets and t together. */
  lemma WindowBound(reference: Table, h: seq<Event>, ip: Addr, from: nat, t: nat)
    requires TableOk(reference, from) && Timed(h, from) && forall k :: 0 <= k < |h| ==> h[k].at <= from + t
    ensures Allowed(reference, h, ip) * PACKET_COST < MAX_TOKENS + t
    ensures Allowed(reference, h, ip) <= 5 + t / PACKET_COST
  {
    SpendsItsFunds(reference, h, ip, from, from + t);
    FundsPositive(reference, ip, from);
  }

  /** The count is that of the yes answers to the address. */
  function CountYes(h: seq<Event>, answers: seq<bool>, ip: Addr): nat
    requires |h| == |answers|
  {
    if h == [] then 0
    else (if h[0].Query? && h[0].ip == ip && answers[0] then 1 else 0) + CountYes(h[1..], answers[1..], ip)
  }

  lemma {:induction false} AllowedIsCounted(reference: Table, h: seq<Event>, ip: Addr)
    ensures Allowed(reference, h, ip) == CountYes(h, Answers(reference, h), ip)
    decreases |h|
  {
    if h != [] {
      match h[0]
      case Collect(_) => AllowedIsCounted(reference, h[1..], ip);
      case Query(q, at) => AllowedIsCounted(reference[q := AllowOne(EntryOf(reference, q), at).1], h[1..], ip);
    }
  }

  // ----- when a new address gets everything through

  /** The times of one address's queries, and the answers to them. */
  function TimesOf(h: seq<Event>, ip: Addr): seq<nat> {
    if h == [] then []
    else if h[0].Query? && h[0].ip == ip then [h[0].at] + TimesOf(h[1..], ip)
    else TimesOf(h[1..], ip)
  }

  function AnswersTo(h: seq<Event>, answers: seq<bool>, ip: Addr): seq<bool>
    requires |h| == |answers|
  {
    if h == [] then []
    else if h[0].Query? && h[0].ip == ip then [answers[0]] + AnswersTo(h[1..], answers[1..], ip)
    else AnswersTo(h[1..], answers[1..], ip)
  }

  /** The answers that queries at these times get from the entry alone. */
  function Replies(e: Option<Entry>, times: seq<nat>): (r: seq<bool>)
    ensures |r| == |times|
    decreases |times|
  {
    if times == [] then []
    else var (ok, after) := AllowOne(e, times[0]); [ok] + Replies(Some(after), times[1..])
  }

  /** Addresses do not disturb one another. */
  lemma {:induction false} OthersDoNotMatter(reference: Table, h: seq<Event>, ip: Addr)
    ensures AnswersTo(h, Answers(reference, h), ip) == Replies(EntryOf(reference, ip), TimesOf(h, ip))
    decreases |h|
  {
    if h != [] {
      match h[0]
      case Collect(_) =>
        OthersDoNotMatter(reference, h[1..], ip);
      case Query(q, at) =>
        var (ok, e) := AllowOne(EntryOf(reference, q), at);
        OthersDoNotMatter(reference[q := e], h[1..], ip);
        if q == ip {
          var times := TimesOf(h, ip);
          assert times[0] == at && times[1..] == TimesOf(h[1..], ip);
        }
    }
  }

  predicate AllYes(answers: seq<bool>) {
    forall i :: 0 <= i < |answers| ==> answers[i]
  }

  /** The packets from any j-th to any i-th cost less than five packets and the time between the two. */
  predicate Conforms(times: seq<nat>) {
    forall j, i {:trigger times[j], times[i]} :: 0 <= j <= i < |times| ==>
      (i - j + 1) * PACKET_COST + times[j] < MAX_TOKENS + times[i]
  }

  /** The packets from the first to any i-th cost less than the entry's tokens and the time since. */
  predicate Funded(e: Entry, times: seq<nat>) {
    forall i :: 0 <= i < |times| ==> (i + 1) * PACKET_COST + e.lastTime < e.tokens + times[i]
  }

  lemma FundedStep(e: Entry, times: seq<nat>)
    requires times != []
    ensures var (ok, after) := AllowOne(Some(e), times[0]);
            ok && Funded(after, times[1..]) && Conforms(times[1..]) <==> Funded(e, times) && Conforms(times)
  {
    var (ok, after) := AllowOne(Some(e), times[0]);
    assert forall i :: 0 <= i < |times[1..]| ==> times[1..][i] == times[i + 1];
    if ok && Funded(after, times[1..]) && Conforms(times[1..]) {
      forall i | 0 <= i < |times|
        ensures (i + 1) * PACKET_COST + e.lastTime < e.tokens + times[i]
        ensures (i + 1) * PACKET_COST + times[0] < MAX_TOKENS + times[i]
      {
        assert i > 0 ==> times[1..][i - 1] == times[i];
      }
      forall j, i | 0 <= j <= i < |times|
        ensures (i - j + 1) * PACKET_COST + times[j] < MAX_TOKENS + times[i]
      {
        if j > 0 { assert times[1..][j - 1] == times[j] && times[1..][i - 1] == times[i]; }
      }
    }
    if Funded(e, times) && Conforms(times) {
      forall i | 0 <= i < |times[1..]|
        ensures (i + 1) * PACKET_COST + after.lastTime < after.tokens + times[1..][i]
      {
        assert (i + 2) * PACKET_COST + e.lastTime < e.tokens + times[i + 1];
        assert (i + 2) * PACKET_COST + times[0] < MAX_TOKENS + times[i + 1];
      }
      assert Conforms(times[1..]);
    }
  }

  lemma {:induction false} PassesIff(e: Entry, times: seq<nat>)
    ensures AllYes(Replies(Some(e), times)) <==> Funded(e, times) && Conforms(times)
    decreases |times|
  {
    if times != [] {
      var (ok, after) := AllowOne(Some(e), times[0]);
      PassesIff(after, times[1..]);
      FundedStep(e, times);
      AllYesStep(ok, Replies(Some(after), times[1..]));
    }
  }

  lemma AllYesStep(first: bool, rest: seq<bool>)
    ensures AllYes([first] + rest) <==> first && AllYes(rest)
  {
    if AllYes([first] + rest) {
      assert ([first] + rest)[0];
      forall i | 0 <= i < |rest| ensures rest[i] { assert ([first] + rest)[i + 1]; }
    }
  }

  lemma NewEntryPassesIff(times: seq<nat>)
    ensures AllYes(Replies(None, times)) <==> Conforms(times)
  {
    if times != [] {
      var full := Entry(times[0], MAX_TOKENS);
      assert AllowOne(Some(full), times[0]) == AllowOne(None, times[0]);
      assert Replies(None, times) == Replies(Some(full), times);
      PassesIff(full, times);
      assert Conforms(times) ==> Funded(full, times);
    }
  }

  /**
    All queries of a new address pass if and only if its times conform,
    whatever else the limiter is asked or collects.
   */
  lemma AllPassIff(reference: Table, h: seq<Event>, ip: Addr)
    requires ip !in reference
    ensures AllYes(AnswersTo(h, Answers(reference, h), ip)) <==> Conforms(TimesOf(h, ip))
  {
    OthersDoNotMatter(reference, h, ip);
    NewEntryPassesIff(TimesOf(h, ip));
  }

  // ----- what decides each answer

  /** The times of the queries that were allowed. */
  function YesTimes(times: seq<nat>, answers: seq<bool>): (r: seq<nat>)
    requires |times| == |answers|
  {
    if times == [] then []
    else (if answers[0] then [times[0]] else []) + YesTimes(times[1..], answers[1..])
  }

  /** Later queries are funded after a refused one exactly when they are without it. */
  lemma RefusalChangesNothing(e: Entry, now: nat, yes: seq<nat>)
    ensures var (ok, after) := AllowOne(Some(e), now); !ok ==> (Funded(after, yes) <==> Funded(e, yes))
  {}

  lemma {:induction false} ReplyIff(e: Entry, times: seq<nat>, i: nat)
    requires i < |times|
    ensures var replies := Replies(Some(e), times);
            var yes := YesTimes(times[..i], replies[..i]) + [times[i]];
            replies[i] <==> Funded(e, yes) && Conforms(yes)
    decreases |times|
  {
    var replies := Replies(Some(e), times);
    var (ok, after) := AllowOne(Some(e), times[0]);
    if i == 0 {
      OneReply(e, times[0]);
      assert YesTimes(times[..0], replies[..0]) + [times[0]] == [times[0]];
    } else {
      ReplyIff(after, times[1..], i - 1);
      var rest := YesTimes(times[1..][..i - 1], replies[1..][..i - 1]) + [times[i]];
      assert times[..i][1..] == times[1..][..i - 1] && replies[..i][1..] == replies[1..][..i - 1];
      if ok {
        assert YesTimes(times[..i], replies[..i]) + [times[i]] == [times[0]] + rest;
        FundedStep(e, [times[0]] + rest);
        assert ([times[0]] + rest)[1..] == rest;
      } else {
        assert YesTimes(times[..i], replies[..i]) + [times[i]] == rest;
        RefusalChangesNothing(e, times[0], rest);
      }
    }
  }

  lemma OneReply(e: Entry, now: nat)
    ensures AllowOne(Some(e), now).0 <==> Funded(e, [now]) && Conforms([now])
  {
    assert Conforms([now]);
    if Funded(e, [now]) { assert [now][0] == now; }
  }

  lemma NewReplyIff(times: seq<nat>, i: nat)
    requires i < |times|
    ensures var replies := Replies(None, times);
            replies[i] <==> Conforms(YesTimes(times[..i], replies[..i]) + [times[i]])
  {
    var full := Entry(times[0], MAX_TOKENS);
    assert AllowOne(Some(full), times[0]) == AllowOne(None, times[0]);
    var replies := Replies(None, times);
    assert replies == Replies(Some(full), times) && replies[0];
    ReplyIff(full, times, i);
    var yes := YesTimes(times[..i], replies[..i]) + [times[i]];
    assert yes[0] == times[0];
    if Conforms(yes) {
      forall l | 0 <= l < |yes| ensures (l + 1) * PACKET_COST + times[0] < MAX_TOKENS + yes[l] {
        assert (l - 0 + 1) * PACKET_COST + yes[0] < MAX_TOKENS + yes[l];
      }
    }
  }

  /**
    Every answer to a new address, whatever else the limiter is asked or collects: a query is allowed if and only if
    its time conforms together with those of the queries allowed before. Refused queries leave no trace.
   */
  lemma AnswerIff(reference: Table, h: seq<Event>, ip: Addr, i: nat)
    requires ip !in reference && i < |TimesOf(h, ip)|
    ensures var times, answers := TimesOf(h, ip), AnswersTo(h, Answers(reference, h), ip);
            && |answers| == |times|
            && (answers[i] <==> Conforms(YesTimes(times[..i], answers[..i]) + [times[i]]))
  {
    OthersDoNotMatter(reference, h, ip);
    NewReplyIff(TimesOf(h, ip), i);
  }

  lemma {:induction false} TimesDoNotRunBack(h: seq<Event>, ip: Addr, from: nat)
    requires Timed(h, from)
    ensures forall i :: 0 <= i < |TimesOf(h, ip)| ==> from <= TimesOf(h, ip)[i]
    ensures forall j, i :: 0 <= j <= i < |TimesOf(h, ip)| ==> TimesOf(h, ip)[j] <= TimesOf(h, ip)[i]
    decreases |h|
  {
    if h != [] {
      TimesDoNotRunBack(h[1..], ip, h[0].at);
    }
  }

  /** The first four queries of a new address pass; the fifth passes if and only if it comes later than the first. */
  lemma BurstIff(reference: Table, h: seq<Event>, ip: Addr, from: nat)
    requires ip !in reference && Timed(h, from) && |TimesOf(h, ip)| == 5
    ensures var times := TimesOf(h, ip);
            AnswersTo(h, Answers(reference, h), ip) == [true, true, true, true, times[4] > times[0]]
  {
    OthersDoNotMatter(reference, h, ip);
    TimesDoNotRunBack(h, ip, from);
    FiveReplies(TimesOf(h, ip));
  }

  lemma FiveReplies(times: seq<nat>)
    requires |times| == 5 && times[0] <= times[1] <= times[2] <= times[3] <= times[4]
    ensures Replies(None, times) == [true, true, true, true, times[4] > times[0]]
  {
    var e1 := AllowOne(None, times[0]).1;
    var e2 := AllowOne(Some(e1), times[1]).1;
    var e3 := AllowOne(Some(e2), times[2]).1;
    var e4 := AllowOne(Some(e3), times[3]).1;
    var o5 := AllowOne(Some(e4), times[4]).0;
    assert Replies(Some(e4), times[4..]) == [o5];
    assert Replies(Some(e3), times[3..]) == [true] + Replies(Some(e4), times[3..][1..]);
    assert Replies(Some(e2), times[2..]) == [true] + Replies(Some(e3), times[2..][1..]);
    assert Replies(Some(e1), times[1..]) == [true] + Replies(Some(e2), times[1..][1..]);
    assert times[1..][1..] == times[2..] && times[2..][1..] == times[3..] && times[3..][1..] == times[4..];
    assert o5 <==> times[4] > times[0];
  }

  /** The instance at one instant: the comparison with the cost is strict, so the fifth packet is dropped. */
  lemma BurstOfFour(ip: Addr, now: nat)
    ensures var q := Query(ip, now);
            Answers(map[], [q, q, q, q, q]) == [true, true, true, true, false]
  {
    var q := Query(ip, now);
    var c := PACKET_COST;
    var t1: Table := map[][ip := Entry(now, 4 * c)];
    var t2, t3, t4 := t1[ip := Entry(now, 3 * c)], t1[ip := Entry(now, 2 * c)], t1[ip := Entry(now, c)];
    assert Answers(t4, [q]) == [false];
    assert [q, q][1..] == [q] && t3[ip := Entry(now, c)] == t4;
    assert Answers(t3, [q, q]) == [true] + Answers(t4, [q]);
    assert [q, q, q][1..] == [q, q] && t2[ip := Entry(now, 2 * c)] == t3;
    assert Answers(t2, [q, q, q]) == [true] + Answers(t3, [q, q]);
    assert [q, q, q, q][1..] == [q, q, q] && t1[ip := Entry(now, 3 * c)] == t2;
    assert Answers(t1, [q, q, q, q]) == [true] + Answers(t2, [q, q, q]);
    assert [q, q, q, q, q][1..] == [q, q, q, q];
    assert Answers(map[], [q, q, q, q, q]) == [true] + Answers(t1, [q, q, q, q]);
  }
}
