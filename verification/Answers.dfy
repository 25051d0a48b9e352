/** Cached answers: messages, lifetimes and the TTLs served from the cache. */
module Answers {
  import opened Wrappers

  const U32_MAX: nat := 0xFFFF_FFFF
  const U64_MAX: nat := 0xFFFF_FFFF_FFFF_FFFF
  const STALE_ANSWER_TTL: nat := 30
  const BYTES_SLOP_FACTOR: nat := 2
  const ENTRY_OVERHEAD_BYTES: nat := 512
  const FALLBACK_WIRE_BYTES: nat := 4096
  const NANOS: nat := 1_000_000_000

  type Ttl = t: nat | t <= U32_MAX

  datatype ResponseCode = NoError | NXDomain | ServFail | OtherCode

  /** A resource record; `soaMinimum` is present on SOA records only. */
  datatype Record = Record(data: string, ttl: Ttl, soaMinimum: Option<Ttl>)

  /** A response; `wire` is its encoded size when it can be encoded. */
  datatype Message = Message(rcode: ResponseCode, answers: seq<Record>, authorities: seq<Record>, wire: Option<nat>)

  datatype Entry = Entry(answers: seq<Record>, authorities: seq<Record>, rcode: ResponseCode,
                         lifetime: Ttl, insertedAt: nat)

  datatype Lookup = Fresh(msg: Message) | Stale(msg: Message) | Miss

  /** What a record contributes to the lifetime of its message. */
  function Contribution(r: Record): Ttl {
    if r.soaMinimum.Some? && r.soaMinimum.value < r.ttl then r.soaMinimum.value else r.ttl
  }

  function Smallest(records: seq<Record>): (m: Option<Ttl>)
    ensures m.None? <==> records == []
  {
    if records == [] then None
    else
      var rest := Smallest(records[..|records| - 1]);
      var last := Contribution(records[|records| - 1]);
      if rest.Some? && rest.value < last then rest else Some(last)
  }

  /** Only answers with a lifetime and rcode NOERROR or NXDOMAIN are cached. */
  function EntryOf(msg: Message, now: nat): Option<Entry> {
    if msg.rcode != NoError && msg.rcode != NXDomain then None
    else
      var lifetime := Smallest(msg.answers + msg.authorities);
      if lifetime.None? then None
      else Some(Entry(msg.answers, msg.authorities, msg.rcode, lifetime.value, now))
  }

  function SizeOf(msg: Message): nat {
    (if msg.wire.Some? then msg.wire.value else FALLBACK_WIRE_BYTES) * BYTES_SLOP_FACTOR + ENTRY_OVERHEAD_BYTES
  }

  /** Whole seconds since the entry was inserted; none if the clock reads earlier. */
  function Elapsed(e: Entry, now: nat): nat {
    if now <= e.insertedAt then 0 else (now - e.insertedAt) / NANOS
  }

  function SaturatingAdd(a: nat, b: nat): nat {
    if a + b <= U64_MAX then a + b else U64_MAX
  }

  predicate Expired(e: Entry, now: nat, serveStale: nat) {
    Elapsed(e, now) >= SaturatingAdd(e.lifetime, serveStale)
  }

  /** The TTL of a fresh record: saturating subtraction, and at least 1. */
  function FreshTtl(ttl: Ttl, elapsed: nat): Ttl {
    var elapsed32 := if elapsed <= U32_MAX then elapsed else U32_MAX;
    var left := if ttl >= elapsed32 then ttl - elapsed32 else 0;
    if left >= 1 then left else 1
  }

  function ServedTtl(ttl: Ttl, elapsed: nat, current: bool): Ttl {
    if current then FreshTtl(ttl, elapsed) else STALE_ANSWER_TTL
  }

  function WithTtls(records: seq<Record>, elapsed: nat, current: bool): (r: seq<Record>)
    ensures |r| == |records|
  {
    seq(|records|, i requires 0 <= i < |records| => records[i].(ttl := ServedTtl(records[i].ttl, elapsed, current)))
  }

  /** The response built from an entry; its encoded size is not known here. */
  function BuildResponse(e: Entry, elapsed: nat, current: bool): Message {
    Message(e.rcode, WithTtls(e.answers, elapsed, current), WithTtls(e.authorities, elapsed, current), None)
  }

  /** What a live entry answers at `now`. */
  function Answer(e: Entry, now: nat): Lookup {
    var elapsed := Elapsed(e, now);
    if elapsed < e.lifetime then Fresh(BuildResponse(e, elapsed, true))
    else Stale(BuildResponse(e, elapsed, false))
  }

  // ---- Lifetimes ----

  lemma {:induction false} SmallestIsMinimum(records: seq<Record>)
    requires records != []
    ensures forall i :: 0 <= i < |records| ==> Smallest(records).value <= Contribution(records[i])
    ensures exists i :: 0 <= i < |records| && Smallest(records).value == Contribution(records[i])
  {
    var n := |records| - 1;
    var front := records[..n];
    if front != [] {
      SmallestIsMinimum(front);
      if Smallest(front).value < Contribution(records[n]) {
        var i :| 0 <= i < |front| && Smallest(front).value == Contribution(front[i]);
        assert records[i] == front[i];
      }
      forall i | 0 <= i <= n ensures Smallest(records).value <= Contribution(records[i]) {
        if i < n { assert front[i] == records[i]; }
      }
    }
  }

  /**
   The lifetime of a cached answer is the smallest TTL of its records, an SOA counted
   as the smaller of its TTL and its MINIMUM (section 5 of RFC 2308).
   */
  lemma LifetimeExact(msg: Message, now: nat)
    requires EntryOf(msg, now).Some?
    ensures var e := EntryOf(msg, now).value; var all := msg.answers + msg.authorities;
            && (forall i :: 0 <= i < |all| ==>
                  && e.lifetime <= all[i].ttl
                  && (all[i].soaMinimum.Some? ==> e.lifetime <= all[i].soaMinimum.value))
            && (exists i :: 0 <= i < |all| && (e.lifetime == all[i].ttl || Some(e.lifetime) == all[i].soaMinimum))
  {
    var all := msg.answers + msg.authorities;
    SmallestIsMinimum(all);
    forall i | 0 <= i < |all| ensures Contribution(all[i]) <= all[i].ttl {
    }
  }

  /** Each served record is the published one; its TTL and the time elapsed add up to the published TTL. */
  ghost predicate Counted(served: seq<Record>, published: seq<Record>, elapsed: nat) {
    && |served| == |published|
    && forall i :: 0 <= i < |served| ==>
         served[i] == published[i].(ttl := served[i].ttl) && served[i].ttl + elapsed == published[i].ttl
  }

  /** Within the lifetime neither the saturating subtraction nor the floor of 1 takes effect. */
  lemma FreshTtlsExact(msg: Message, inserted: nat, now: nat)
    requires EntryOf(msg, inserted).Some?
    requires Elapsed(EntryOf(msg, inserted).value, now) < EntryOf(msg, inserted).value.lifetime
    ensures var e := EntryOf(msg, inserted).value; var r := Answer(e, now);
            && r.Fresh? && r.msg.rcode == msg.rcode
            && Counted(r.msg.answers, msg.answers, Elapsed(e, now))
            && Counted(r.msg.authorities, msg.authorities, Elapsed(e, now))
  {
    LifetimeExact(msg, inserted);
    var all := msg.answers + msg.authorities;
    assert forall i :: 0 <= i < |msg.answers| ==> all[i] == msg.answers[i];
    assert forall i :: 0 <= i < |msg.authorities| ==> all[|msg.answers| + i] == msg.authorities[i];
  }

  ghost predicate AllTtls(records: seq<Record>, ttl: nat) {
    forall i :: 0 <= i < |records| ==> records[i].ttl == ttl
  }
}
