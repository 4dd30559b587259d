// Durable delivery checkpoints: what persist writes and load gives back.
module DeliveryStore {
  import opened Common

  datatype Status = Pasted | Accepted

  /** An injective content hash. */
  datatype Digest = Digest(text: string)

  datatype Receipt = Receipt(deliveryId: string, session: string, state: string, enterAttempts: nat)

  /** Where the rollout file stood when a paste began; every part is optional. */
  datatype Probe = Probe(device: Option<int>, inode: Option<int>, offset: Option<int>)

  datatype Delivery = Delivery(session: string, digest: Digest, status: Status, receipt: Option<Receipt>,
                               pasteReady: bool, queuedBaseline: int, probe: Probe,
                               updatedAt: real, updatedEpoch: real)

  datatype DiskRecord = DiskRecord(version: nat, deliveryId: string, session: string, digest: Digest, status: Status,
                                   updatedEpoch: real, receipt: Option<Receipt>, pasteReady: bool,
                                   queuedBaseline: int, probe: Probe)

  const NO_PROBE := Probe(None, None, None)

  function NonNegative(value: Option<int>): Option<int> {
    if value.Some? && value.value >= 0 then value else None
  }

  function CleanProbe(p: Probe): Probe {
    Probe(NonNegative(p.device), NonNegative(p.inode), NonNegative(p.offset))
  }

  /** The record persist writes; None when it declines to write. */
  function Encode(deliveryId: string, state: Delivery): Option<DiskRecord> {
    if state.status == Accepted && state.receipt.None? then None
    else if state.status == Accepted then
      Some(DiskRecord(2, deliveryId, state.session, state.digest, Accepted, state.updatedEpoch, state.receipt, false, 0, NO_PROBE))
    else
      Some(DiskRecord(2, deliveryId, state.session, state.digest, Pasted, state.updatedEpoch, None, state.pasteReady,
                      if state.queuedBaseline >= 0 then state.queuedBaseline else 0, CleanProbe(state.probe)))
  }

  predicate Expired(record: DiskRecord, epoch: real, ttl: real) {
    epoch - record.updatedEpoch > ttl
  }

  /** The state load rebuilds from a record found under a delivery id. */
  function Decode(deliveryId: string, record: DiskRecord, size: nat, maxBytes: nat, mono: real, epoch: real,
                  ttl: real): Option<Delivery> {
    if size > maxBytes || Expired(record, epoch, ttl) then None
    else if record.version !in {1, 2} || record.deliveryId != deliveryId then None
    else if record.status == Accepted && (record.receipt.None? || record.receipt.value.deliveryId != deliveryId) then None
    else if record.status == Pasted && record.version != 2 then None
    else if record.status == Accepted then
      Some(Delivery(record.session, record.digest, Accepted, record.receipt, false, 0, NO_PROBE, mono, record.updatedEpoch))
    else
      Some(Delivery(record.session, record.digest, Pasted, None, record.pasteReady,
                    if record.queuedBaseline >= 0 then record.queuedBaseline else 0, CleanProbe(record.probe), mono, record.updatedEpoch))
  }

  /** A state send can produce: an accepted one has its own receipt. */
  predicate WellFormed(deliveryId: string, state: Delivery) {
    state.status == Accepted ==> state.receipt.Some? && state.receipt.value.deliveryId == deliveryId
  }

  /**
   * Loading what persist wrote restores every field the delivery decisions read,
   * for as long as the record is small enough and within its time to live.
   */
  lemma LoadAfterPersist(deliveryId: string, state: Delivery, size: nat, maxBytes: nat, mono: real, epoch: real,
                         ttl: real)
    requires WellFormed(deliveryId, state)
    ensures Encode(deliveryId, state).Some?
    ensures var loaded := Decode(deliveryId, Encode(deliveryId, state).value, size, maxBytes, mono, epoch, ttl);
      && (loaded.Some? <==> size <= maxBytes && epoch - state.updatedEpoch <= ttl)
      && (loaded.Some? ==>
            && loaded.value.session == state.session && loaded.value.digest == state.digest
            && loaded.value.status == state.status && loaded.value.updatedEpoch == state.updatedEpoch
            && (state.status == Accepted ==> loaded.value.receipt == state.receipt)
            && (state.status == Pasted && state.queuedBaseline >= 0 && CleanProbe(state.probe) == state.probe ==>
                  && loaded.value.pasteReady == state.pasteReady
                  && loaded.value.queuedBaseline == state.queuedBaseline && loaded.value.probe == state.probe))
  {
  }
}
