/**
 * The main-thread side of the shared decoder worker: a singleton holding the
 * worker and a single `host` slot. Every reply of the worker is handed to
 * whatever object the slot holds at that moment, and dropped when it is
 * empty. The host type is a parameter (the terrain model fills the slot with
 * its progressive textures); `onWorkerMessage` belongs to the host and is
 * recorded here as a delivery.
 */
module JpegWorkers {
  import opened Wrappers

  class StaticJPEGWorker<H(==), M> {
    /** The object that receives the worker's replies, or none. */
    var host: Option<H>
    /** Every `host.onWorkerMessage(event)` call made so far, in order. */
    ghost var deliveries: seq<(H, M)>

    constructor ()
      ensures host == None
      ensures deliveries == []
    {
      host := None;
      deliveries := [];
    }

    /**
     * `worker.onmessage`: a reply reaches the current host exactly once and
     * no other object; with no host it is dropped and nothing changes.
     */
    method OnMessage(event: M) returns (recipient: Option<H>)
      modifies this
      ensures host == old(host)
      ensures recipient == old(host)
      ensures old(host).None? ==> deliveries == old(deliveries)
      ensures old(host).Some? ==> deliveries == old(deliveries) + [(old(host).value, event)]
    {
      recipient := host;
      if host.Some? {
        deliveries := deliveries + [(host.value, event)];
      }
    }
  }
}
