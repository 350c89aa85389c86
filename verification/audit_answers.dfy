/** What a query asks for, in its own fields and in an event's own fields and time. */
module AuditAnswers {
  import opened Options
  import opened Lex
  import opened Ulid
  import opened AuditEvents
  import opened AuditOrder

  /** The event's id was minted at this millisecond. */
  predicate MintedAt(e: Event, ms: nat, random: nat) {
    Mintable(ms, random) && e.id == Mint(ms, random)
  }

  /**
    The tenant's own event, not before `since` and before `until`, by the actor, of the action and on the
    target when the query names one.
  */
  predicate Asks(tenant: string, q: Query, e: Event, ms: nat) {
    && e.tenant == tenant
    && (q.since.Some? ==> q.since.value <= ms)
    && (q.until.Some? ==> ms < q.until.value)
    && (q.actor != "" ==> e.actor == q.actor)
    && (q.action != "" ==> e.action == q.action)
    && (q.target.Some? && q.target.value.kind != "" && q.target.value.id != "" ==>
          e.target.kind == q.target.value.kind && e.target.id == q.target.value.id)
  }

  /** A moment an id can name: not before the epoch, and within 48 bits of milliseconds. */
  predicate Nameable(moment: Option<int>) {
    moment.Some? ==> 0 <= moment.value < 0x1_0000_0000_0000
  }

  lemma AtMostTransitive(a: string, b: string, c: string)
    requires AtMost(a, b) && AtMost(b, c)
    ensures AtMost(a, c)
  {
    if a != b && b != c { Transitive(a, b, c); }
  }

  /** The id bounds of a query are its time range: no bounds when it is empty, and no others. */
  lemma BoundsMeanTimes(q: Query, id: string, ms: nat, random: nat)
    requires Nameable(q.since) && Nameable(q.until) && Mintable(ms, random) && id == Mint(ms, random)
    ensures var inTime := (q.since.Some? ==> q.since.value <= ms) && (q.until.Some? ==> ms < q.until.value);
      match BoundsOf(q)
      case OutOfEpoch => false
      case NoIds => !inTime
      case Range(low, high) => Within(id, low, high) <==> inTime
  {
    if q.since.Some? { FloorSplits(q.since.value, ms, random); }
    if q.until.Some? { FloorSplits(q.until.value, ms, random); }
    if BoundsOf(q).NoIds? && AtMost(TimeFloor(q.since.value), id) {
      var low, high := TimeFloor(q.since.value), TimeFloor(q.until.value);
      AtMostTransitive(high, low, id);
      if Less(id, high) { if high == id { Irreflexive(id); } else { Asymmetric(id, high); } }
    }
  }

  /** The in-memory predicate is what the query asks for. */
  lemma WantedMeans(tenant: string, q: Query, e: Event, ms: nat, random: nat)
    requires Nameable(q.since) && Nameable(q.until) && MintedAt(e, ms, random)
    ensures match BoundsOf(q)
      case OutOfEpoch => false
      case NoIds => !Asks(tenant, q, e, ms)
      case Range(low, high) => Wanted(tenant, q, low, high, e) <==> Asks(tenant, q, e, ms)
  {
    BoundsMeanTimes(q, e.id, ms, random);
  }

  /** A listing holds exactly the stored events the query asks for. */
  lemma ListingAnswers(rows: seq<Event>, tenant: string, q: Query, e: Event, ms: nat, random: nat)
    requires Rows(rows) && Nameable(q.since) && Nameable(q.until) && MintedAt(e, ms, random)
    ensures e in Listing(rows, tenant, q, None) <==> e in rows && Asks(tenant, q, e, ms)
  {
    WantedMeans(tenant, q, e, ms, random);
    ListingIs(rows, tenant, q, None);
  }

  /**
    `events` answers a query from `mark` down to `low`: nothing that is not stored and asked for, and
    everything asked for that is settled.
  */
  ghost predicate Answers(settled: seq<Event>, rows: seq<Event>, tenant: string, q: Query, mark: Option<string>,
                          events: seq<Event>, low: Option<string>) {
    forall e: Event, ms: nat, random: nat :: MintedAt(e, ms, random) ==>
      && (e in events ==> e in rows && Asks(tenant, q, e, ms) && Before(e.id, mark) && Reached(e.id, low))
      && (e in settled && Asks(tenant, q, e, ms) && Before(e.id, mark) && Reached(e.id, low) ==> e in events)
  }

  /** An empty range is answered with nothing, rightly. */
  lemma NothingAnswers(settled: seq<Event>, rows: seq<Event>, tenant: string, q: Query, mark: Option<string>)
    requires BoundsOf(q).NoIds?
    ensures Answers(settled, rows, tenant, q, mark, [], None)
  {
    forall e: Event, ms: nat, random: nat | MintedAt(e, ms, random) ensures !Asks(tenant, q, e, ms) {
      WantedMeans(tenant, q, e, ms, random);
    }
  }

  /** What holds the wanted events of a range answers the query. */
  lemma WantedAnswers(settled: seq<Event>, rows: seq<Event>, tenant: string, q: Query, mark: Option<string>,
                      events: seq<Event>, low: Option<string>)
    requires BoundsOf(q).Range?
    requires forall e :: e in events ==>
      e in rows && Wanted(tenant, q, BoundsOf(q).low, BoundsOf(q).high, e) && Before(e.id, mark) && Reached(e.id, low)
    requires forall e :: e in settled && Wanted(tenant, q, BoundsOf(q).low, BoundsOf(q).high, e) && Before(e.id, mark) && Reached(e.id, low) ==>
      e in events
    ensures Answers(settled, rows, tenant, q, mark, events, low)
  {
    forall e: Event, ms: nat, random: nat | MintedAt(e, ms, random)
      ensures Asks(tenant, q, e, ms) <==> Wanted(tenant, q, BoundsOf(q).low, BoundsOf(q).high, e)
    {
      WantedMeans(tenant, q, e, ms, random);
    }
  }
}
