/** The event record shared by every component (src/event.go). */
module Events {

  // Go's uint64. Lamport clocks, times and gas amounts have this width.
  const TWO_64: nat := 0x1_0000_0000_0000_0000
  type uint64 = x: int | 0 <= x < 0x1_0000_0000_0000_0000

  datatype Option<+T> = None | Some(value: T)

  // An event id stands for a 32-byte hash; NO_EVENT is the all-zero id that marks "not set".
  type EventID = nat
  const NO_EVENT: EventID := 0

  // A 20-byte account address.
  type Address = nat

  // A transaction as the ledger sees it; the sender is None if it cannot be recovered from the signature.
  datatype Transaction = Transaction(
    sender: Option<Address>,
    recipient: Option<Address>,
    value: int,
    gasPrice: int,
    gas: nat)

  /** The consensus fields of an event at one moment, as a value. */
  datatype EventData = EventData(
    creator: string,
    parents: seq<EventID>,
    lamport: uint64,
    height: nat,
    round: nat,
    isRoot: bool,
    isFamous: Option<bool>,
    isClotho: bool,
    atropos: EventID,
    roundReceived: nat,
    medianTime: uint64)

  /** What NewEvent builds: only the content is set, every consensus field is at its zero value. */
  function NewEventData(creator: string, parents: seq<EventID>, lamport: uint64, height: nat): EventData {
    EventData(creator, parents, lamport, height, 0, false, None, false, NO_EVENT, 0, 0)
  }

  /** Nobody has assigned a round to this event yet. */
  predicate Unassigned(e: EventData) {
    e.round == 0 && !e.isRoot
  }

  /** The content of an event, which no consensus step changes. */
  predicate SameContent(e: EventData, f: EventData) {
    e.creator == f.creator && e.parents == f.parents && e.lamport == f.lamport && e.height == f.height
  }

  class Event {
    const id: EventID  // Hash(), computed once and cached
    const creator: string
    const parents: seq<EventID>
    const lamport: uint64
    const height: nat
    const transactions: seq<Transaction>
    var round: nat
    var isRoot: bool
    var isFamous: Option<bool>
    var isClotho: bool
    var atropos: EventID
    var roundReceived: nat
    var medianTime: uint64
    var atroposTime: uint64

    constructor (id: EventID, creator: string, parents: seq<EventID>, lamport: uint64, height: nat, transactions: seq<Transaction>)
      ensures this.id == id && this.transactions == transactions
      ensures Data() == NewEventData(creator, parents, lamport, height)
      ensures atroposTime == 0
    {
      this.id, this.creator, this.parents, this.lamport, this.height := id, creator, parents, lamport, height;
      this.transactions := transactions;
      round, isRoot, isFamous, isClotho := 0, false, None, false;
      atropos, roundReceived, medianTime, atroposTime := NO_EVENT, 0, 0, 0;
    }

    ghost function Data(): EventData
      reads this
    {
      EventData(creator, parents, lamport, height, round, isRoot, isFamous, isClotho, atropos, roundReceived, medianTime)
    }
  }
}
