/**
  The history's append and close protocol: one producer per terminal, closers, readers and the
  owner thread, interleaved at every lock and channel operation. No I/O fails.
*/
module HistoryOwner {
  import opened Wrappers
  import opened HistoryCodec

  type Id = string

  const INGEST_MAX_MESSAGES: nat := 1024
  const INGEST_MAX_BYTES: nat := 32 * 1024 * 1024
  const FINALIZE_MAX_MESSAGES: nat := 1024

  datatype Append = Append(id: Id, record: Record)
  datatype Close = Close(id: Id, through: nat)

  /** A terminal's directory: every record written to it and not dropped, and whether its manifest is closed. */
  datatype Stored = Stored(records: seq<Record>, closed: bool)

  /**
    `reserving` and `sending` are the producers between acceptance and reservation, and between
    reservation and the channel. `closing` are closers that have marked their terminal: a through
    sequence once read. `loaded` is the owner's open archives, with the closed flag each copied from
    its manifest. `finalizing` is a close whose archive the owner has unloaded and not yet marked.
    `log` is every record ever accepted.
  */
  datatype System = System(
    accepted: map<Id, nat>, pendingCloses: set<Id>, used: nat,
    reserving: seq<Append>, sending: seq<Append>, ingest: seq<Append>,
    closing: map<Id, Option<nat>>, finalize: seq<Close>, closes: seq<Close>,
    disk: map<Id, Stored>, loaded: map<Id, bool>, finalizing: Option<Id>, releasing: nat,
    log: map<Id, seq<Record>>)

  datatype Event =
    | Accept(id: Id, record: Record)
    | Reserve(i: nat)
    | Send(i: nat)
    | CloseMark(id: Id)
    | CloseRead(id: Id)
    | CloseSend(id: Id)
    | OwnerReceive
    | OwnerUnload(i: nat)
    | OwnerMarkClosed
    | OwnerAppend
    | OwnerRelease
    | Read(id: Id)

  function Records(s: System, id: Id): seq<Record> {
    if id in s.disk then s.disk[id].records else []
  }

  predicate Closed(s: System, id: Id) {
    id in s.disk && s.disk[id].closed
  }

  function Log(s: System, id: Id): seq<Record> {
    if id in s.log then s.log[id] else []
  }

  function Accepted(s: System, id: Id): nat {
    if id in s.accepted then s.accepted[id] else 0
  }

  function Queued(queue: seq<Append>, id: Id): seq<Record> {
    if queue == [] then []
    else (if queue[0].id == id then [queue[0].record] else []) + Queued(queue[1..], id)
  }

  /** The terminal's records that are accepted and not yet at the owner, oldest first. */
  function OnTheWay(s: System, id: Id): seq<Record> {
    Queued(s.ingest, id) + Queued(s.sending, id) + Queued(s.reserving, id)
  }

  function QueueBytes(queue: seq<Append>): nat {
    if queue == [] then 0 else |queue[0].record.data| + QueueBytes(queue[1..])
  }

  function Without<T>(s: seq<T>, i: nat): seq<T>
    requires i < |s|
  {
    s[..i] + s[i + 1..]
  }

  // ----- the steps -----

  /** The producer's acceptance, under the accepted-sequence lock; a producer has one append in hand. */
  function Accepting(s: System, id: Id, record: Record): System {
    if Queued(s.sending, id) + Queued(s.reserving, id) != [] then s
    else if record.sequence == 0 || record.data == [] || |record.data| > MAX_RECORD_BYTES then s
    else if id in s.pendingCloses || record.sequence <= Accepted(s, id) then s
    else s.(accepted := s.accepted[id := record.sequence],
            reserving := s.reserving + [Append(id, record)],
            log := s.log[id := Log(s, id) + [record]])
  }

  /** `state_for`: a cold load copies the manifest's flag, creates a missing archive, and raises the accepted sequence. */
  function Loading(s: System, id: Id): System {
    if id in s.loaded then s
    else
      var stored := if id in s.disk then s.disk[id] else Stored([], false);
      var last := LastOf(stored.records);
      s.(disk := s.disk[id := stored], loaded := s.loaded[id := stored.closed],
         accepted := if last > 0 then s.accepted[id := if last > Accepted(s, id) then last else Accepted(s, id)]
                     else s.accepted)
  }

  /** The owner writes one record, unless the archive is closed or already past it. */
  function Writing(s: System, id: Id, record: Record): System {
    var s := Loading(s, id);
    if s.loaded[id] || id !in s.disk || record.sequence <= LastOf(s.disk[id].records) then s
    else s.(disk := s.disk[id := s.disk[id].(records := s.disk[id].records + [record])])
  }

  function Written(s: System, id: Id): nat {
    if id in s.loaded then LastOf(Records(s, id)) else 0
  }

  function Step(s: System, e: Event): System {
    match e
    case Accept(id, record) => Accepting(s, id, record)
    case Reserve(i) =>
      if i < |s.reserving| && s.used + |s.reserving[i].record.data| <= INGEST_MAX_BYTES
      then s.(used := s.used + |s.reserving[i].record.data|,
              sending := s.sending + [s.reserving[i]], reserving := Without(s.reserving, i))
      else s
    case Send(i) =>
      if i < |s.sending| && |s.ingest| < INGEST_MAX_MESSAGES
      then s.(ingest := s.ingest + [s.sending[i]], sending := Without(s.sending, i))
      else s
    case CloseMark(id) =>
      if id in s.pendingCloses then s
      else s.(pendingCloses := s.pendingCloses + {id}, closing := s.closing[id := None])
    case CloseRead(id) =>
      if id in s.closing && s.closing[id].None? then s.(closing := s.closing[id := Some(Accepted(s, id))]) else s
    case CloseSend(id) =>
      if id !in s.closing || s.closing[id].None? then s
      else if |s.finalize| < FINALIZE_MAX_MESSAGES
      then s.(finalize := s.finalize + [Close(id, s.closing[id].value)], closing := s.closing - {id})
      else s.(pendingCloses := s.pendingCloses - {id}, closing := s.closing - {id})
    case OwnerReceive =>
      if s.finalize == [] then s else s.(closes := s.closes + [s.finalize[0]], finalize := s.finalize[1..])
    case OwnerUnload(i) =>
      if i < |s.closes| && s.finalizing.None? && Written(s, s.closes[i].id) >= s.closes[i].through
      then s.(closes := Without(s.closes, i), finalizing := Some(s.closes[i].id), loaded := s.loaded - {s.closes[i].id})
      else s
    case OwnerMarkClosed =>
      if s.finalizing.None? then s
      else
        var id := s.finalizing.value;
        s.(finalizing := None, pendingCloses := s.pendingCloses - {id},
           disk := if id in s.disk then s.disk[id := s.disk[id].(closed := true)] else s.disk)
    case OwnerAppend =>
      if s.ingest == [] || s.finalizing.Some? || s.releasing != 0 then s
      else
        var command := s.ingest[0];
        Writing(s.(ingest := s.ingest[1..], releasing := |command.record.data|), command.id, command.record)
    case OwnerRelease => s.(used := if s.releasing <= s.used then s.used - s.releasing else 0, releasing := 0)
    case Read(id) => if id in s.disk then Loading(s, id) else s
  }

  /** A process starts with nothing accepted, and has closed every archive it found. */
  predicate Init(s: System) {
    && s.accepted == map[] && s.pendingCloses == {} && s.used == 0
    && s.reserving == [] && s.sending == [] && s.ingest == []
    && s.closing == map[] && s.finalize == [] && s.closes == []
    && s.loaded == map[] && s.finalizing == None && s.releasing == 0 && s.log == map[]
    && (forall id :: id in s.disk ==> s.disk[id].closed)
  }

  function Run(s: System, events: seq<Event>): System {
    if events == [] then s else Step(Run(s, events[..|events| - 1]), events[|events| - 1])
  }

  /** A reader loads an archive between the owner's unloading it and marking it closed, and keeps the flag it found. */
  predicate LateRead(s: System, e: Event, id: Id) {
    e == Read(id) && s.finalizing == Some(id) && id in s.disk && !s.disk[id].closed && id !in s.loaded
  }

  /** The owner's loaded copy of a closed archive says it is closed. */
  predicate Sealed(s: System, id: Id) {
    Closed(s, id) && (id in s.loaded ==> s.loaded[id])
  }

  /** The owner's turn at a record newer than a closed archive whose loaded copy still says open. */
  predicate LateWrite(s: System, e: Event, id: Id) {
    && e.OwnerAppend? && s.finalizing.None? && s.releasing == 0
    && s.ingest != [] && s.ingest[0].id == id && s.ingest[0].record.sequence > LastOf(Records(s, id))
    && Closed(s, id) && id in s.loaded && !s.loaded[id]
  }

  /** No reader ever loads this terminal's archive late. */
  predicate NoLateRead(s: System, events: seq<Event>, id: Id) {
    events == [] ||
    (NoLateRead(s, events[..|events| - 1], id) && !LateRead(Run(s, events[..|events| - 1]), events[|events| - 1], id))
  }
}
