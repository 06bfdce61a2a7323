/** The bounded spool between the connection and its event dispatcher: admission
    states, depth accounting, and the sections run under the admission lock. */
module EventSpool {
  import opened Wrappers

  const EVENT_SPOOL_EMERGENCY_CAPACITY: nat := 2
  const SUBMIT_DROPPED_BATCH_SIZE: nat := 128

  datatype Admission = Open | Draining | Overflowed | Sealed | Terminal

  function Rank(a: Admission): nat {
    match a
    case Open => 0
    case Draining => 1
    case Overflowed => 2
    case Sealed => 3
    case Terminal => 4
  }

  predicate Admits(a: Admission) {
    a.Open? || a.Draining?
  }

  /** What the application receives. */
  datatype Event = Ordinary(id: nat) | Disconnected(reason: nat)

  datatype Item =
    | Direct(id: nat)
    | Batch(ids: seq<nat>)
    | Deferred(ticket: nat)
    | Final(reason: Option<nat>)

  /** A deferred event: waiting for its response to be written, published, or given
      up by its holder. */
  datatype Ticket = Reserved(id: nat) | Published(id: nat) | Abandoned

  /** Depth an item accounts for while it is in the spool or at the dispatcher. */
  function Weight(i: Item): nat {
    if i.Batch? then |i.ids| else 1
  }

  function WeightOf(spool: seq<Item>): nat {
    if spool == [] then 0 else WeightOf(spool[..|spool| - 1]) + Weight(spool[|spool| - 1])
  }

  lemma {:induction false} WeightSplit(a: seq<Item>, b: seq<Item>)
    ensures WeightOf(a + b) == WeightOf(a) + WeightOf(b)
  {
    if b == [] {
      assert a + b == a;
    } else {
      var last := |b| - 1;
      WeightSplit(a, b[..last]);
      assert (a + b)[..|a + b| - 1] == a + b[..last];
    }
  }

  lemma {:induction false} WeightBoundsLength(spool: seq<Item>)
    requires forall i | i in spool :: Weight(i) >= 1
    ensures |spool| <= WeightOf(spool)
  {
    if spool != [] {
      assert spool[|spool| - 1] in spool;
      WeightBoundsLength(spool[..|spool| - 1]);
    }
  }

  datatype Core = Core(admission: Admission, spool: seq<Item>, depth: nat, tickets: map<nat, Ticket>)

  /** Ordinary capacity: at least what is configured, and enough spool slots for
      the teardown of a full window. */
  function SpoolCapacity(configured: nat, windowSize: nat): (capacity: nat)
    ensures capacity >= configured && 128 * capacity >= windowSize
    ensures capacity > configured ==> 128 * (capacity - 1) < windowSize
  {
    var batches := (windowSize + SUBMIT_DROPPED_BATCH_SIZE - 1) / SUBMIT_DROPPED_BATCH_SIZE;
    if configured >= batches then configured else batches
  }

  predicate HasSlot(c: Core, capacity: nat) {
    |c.spool| < capacity + EVENT_SPOOL_EMERGENCY_CAPACITY
  }

  /** The end of an emission under the admission lock. `room` says that the depth
      was below the ordinary capacity; without room the event is still tried once. */
  function Offer(c: Core, item: Item, room: bool, capacity: nat): (Core, bool) {
    var sent := HasSlot(c, capacity);
    var admission := if room && sent then c.admission else Overflowed;
    (if sent then c.(admission := admission, spool := c.spool + [item], depth := c.depth + Weight(item))
     else c.(admission := admission), sent)
  }

  ghost predicate Idle(c: Core) {
    forall t | t in c.tickets :: !c.tickets[t].Reserved?
  }

  /** Tickets whose event is still behind its gate. */
  ghost function Gated(tickets: map<nat, Ticket>): set<nat> {
    set t | t in tickets && tickets[t].Reserved?
  }

  lemma GatedUpdate(tickets: map<nat, Ticket>, t: nat, ticket: Ticket)
    ensures Gated(tickets[t := ticket]) == if ticket.Reserved? then Gated(tickets) + {t} else Gated(tickets) - {t}
  {
  }

  lemma IdleIsUngated(c: Core)
    ensures Idle(c) <==> Gated(c.tickets) == {}
  {
    forall t | t in c.tickets
      ensures c.tickets[t].Reserved? <==> t in Gated(c.tickets)
    {
    }
  }

  /** A window's worth of dropped submits needs no more slots than the ordinary
      capacity. */
  lemma TeardownFits(configured: nat, windowSize: nat, dropped: nat)
    requires dropped <= windowSize
    ensures (dropped + SUBMIT_DROPPED_BATCH_SIZE - 1) / SUBMIT_DROPPED_BATCH_SIZE <=
            SpoolCapacity(configured, windowSize)
  {
  }
}
