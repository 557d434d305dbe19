/** The publisher's methods over its module-level deque. */
module AlertPublisher {
  import opened RetryQueue

  /** `g` continued after part of a batch was published, dropped or re-queued. */
  function Continue(published: seq<Entry>, dropped: seq<Entry>, failed: seq<Entry>, g: Fate): Fate {
    Fate(published + g.published, dropped + g.dropped, failed + g.failed, g.untouched, g.raised)
  }

  /** What one turn of the retry loop does to the batch's fate. */
  lemma FateStep(published: seq<Entry>, dropped: seq<Entry>, failed: seq<Entry>,
                 batch: seq<Entry>, broker: Broker, i: nat)
    requires batch != []
    ensures var fate := Continue(published, dropped, failed, Process(batch, broker, i));
            var e, rest := batch[0], batch[1..];
            if Hopeless(e) then
              fate == Continue(published, dropped + [e], failed, Process(rest, broker, i))
            else match broker(i)
                 case Accepted => fate == Continue(published + [e], dropped, failed, Process(rest, broker, i + 1))
                 case BadCode => fate == Continue(published, dropped, failed + [Again(e)], Process(rest, broker, i + 1))
                 case Raises => fate == Continue(published, dropped, failed + [Again(e)], Fate([], [], [], rest, true))
  {
  }

  lemma NothingLeft(broker: Broker)
    ensures forall i: nat :: Process([], broker, i) == Fate([], [], [], [], false)
  {
  }

  class Publisher {
    var failedQueue: Queue

    constructor ()
      ensures failedQueue == []
    {
      failedQueue := [];
    }

    /** `_queue_failed_message` */
    method QueueFailedMessage(p: Payload)
      modifies this
      ensures failedQueue == Enqueued(old(failedQueue), p)
      ensures failedQueue == (if |old(failedQueue)| == 100 then old(failedQueue)[1..] else old(failedQueue))
                             + [Entry(p, 0)]
    {
      if |failedQueue| >= MAX_FAILED_QUEUE_SIZE {
        failedQueue := failedQueue[1..];
      }
      failedQueue := Append(failedQueue, Entry(p, 0));
    }

    /** Pops up to ten entries from the left. */
    method PopBatch() returns (batch: seq<Entry>)
      modifies this
      ensures batch == old(failedQueue)[..BatchSize(old(failedQueue))]
      ensures failedQueue == old(failedQueue)[BatchSize(old(failedQueue))..]
      ensures batch + failedQueue == old(failedQueue) && |batch| <= 10 && (|batch| < 10 ==> failedQueue == [])
    {
      batch := [];
      while failedQueue != [] && |batch| < RETRY_BATCH_SIZE
        invariant batch + failedQueue == old(failedQueue) && |batch| <= RETRY_BATCH_SIZE
        decreases |failedQueue|
      {
        batch := batch + [failedQueue[0]];
        failedQueue := failedQueue[1..];
      }
    }

    /**
     `_retry_failed_messages`. The new queue is the untouched rest of the batch in its old order,
     then the rest of the queue, then the failed entries in order with one more attempt; the
     bounded deque discards nothing on the way.
     */
    method RetryFailedMessages(client: bool, broker: Broker) returns (published: seq<Entry>, raised: bool)
      modifies this
      ensures failedQueue == if client then Retried(old(failedQueue), broker) else old(failedQueue)
      ensures client ==> published == FateOf(old(failedQueue), broker).published
      ensures client ==> raised == FateOf(old(failedQueue), broker).raised
      ensures !client ==> published == [] && !raised
    {
      published, raised := [], false;
      if failedQueue == [] {
        return;
      }
      if !client {
        return;
      }
      var batch := PopBatch();
      ProcessSizes(batch, broker, 0);
      hide Process;
      published, batch, raised := PublishBatch(batch, broker);
      failedQueue := ExtendLeft(failedQueue, batch);
    }

    /** The loop over a popped batch: re-queues what failed, and stops where a publish raises. */
    method PublishBatch(whole: seq<Entry>, broker: Broker)
      returns (published: seq<Entry>, batch: seq<Entry>, raised: bool)
      requires |whole| + |failedQueue| <= MAX_FAILED_QUEUE_SIZE
      modifies this
      ensures var fate := Process(whole, broker, 0);
              && failedQueue == old(failedQueue) + fate.failed
              && published == fate.published && batch == fate.untouched && raised == fate.raised
    {
      published, batch, raised := [], whole, false;
      ghost var dropped, failed: seq<Entry>, fate := [], [], Process(whole, broker, 0);
      var calls := 0;
      NothingLeft(broker);
      hide Process;
      while batch != [] && !raised
        invariant failedQueue == old(failedQueue) + failed
        invariant |failed| + |batch| <= |whole|
        invariant !raised ==> fate == Continue(published, dropped, failed, Process(batch, broker, calls))
        invariant raised ==> fate == Continue(published, dropped, failed, Fate([], [], [], batch, true))
        decreases |batch|, !raised
      {
        FateStep(published, dropped, failed, batch, broker, calls);
        var entry := batch[0];
        assert (old(failedQueue) + failed) + [Again(entry)] == old(failedQueue) + (failed + [Again(entry)]);
        batch := batch[1..];
        if entry.attempt >= MAX_RETRY_ATTEMPTS {
          dropped := dropped + [entry];
          continue;
        }
        if !entry.payload.serialisable {
          dropped := dropped + [entry];
          continue;
        }
        var answer := broker(calls);
        calls := calls + 1;
        match answer {
          case Accepted =>
            published := published + [entry];
          case BadCode =>
            failedQueue := Append(failedQueue, Entry(entry.payload, entry.attempt + 1));
            failed := failed + [Again(entry)];
          case Raises =>
            failedQueue := Append(failedQueue, Entry(entry.payload, entry.attempt + 1));
            failed := failed + [Again(entry)];
            raised := true;
        }
      }
    }

    /**
     `publish_alert`. A direct publish that gets through is followed by a retry of the queue; an
     alert that cannot be published joins it, unless it cannot be encoded or its publish raises.
     Only a raising direct publish escapes to the caller; a raising retry does not.
     */
    method PublishAlert(c: Call) returns (escaped: bool)
      modifies this
      ensures forall l: Ledger, p: Payload :: l.queue == old(failedQueue) ==> Publish(l, c, p).queue == failedQueue
      ensures c.client && c.connected && c.payload.serialisable && c.direct == Accepted ==>
                failedQueue == Retried(old(failedQueue), c.broker)
      ensures !c.client || !c.connected || (c.payload.serialisable && c.direct == BadCode) ==>
                failedQueue == (if |old(failedQueue)| == 100 then old(failedQueue)[1..] else old(failedQueue))
                               + [Entry(c.payload, 0)]
      ensures c.client && c.connected && (!c.payload.serialisable || c.direct == Raises) ==>
                failedQueue == old(failedQueue)
      ensures escaped <==> c.client && c.connected && c.payload.serialisable && c.direct == Raises
    {
      escaped := false;
      if !c.client {
        QueueFailedMessage(c.payload);
        return;
      }
      if !c.connected {
        QueueFailedMessage(c.payload);
        return;
      }
      var published := false;
      if c.payload.serialisable {
        match c.direct {
          case Raises =>
            escaped := true;
            return;
          case BadCode =>
            QueueFailedMessage(c.payload);
            return;
          case Accepted =>
            published := true;
        }
      }
      if published {
        var _, _ := RetryFailedMessages(true, c.broker);
      }
    }
  }
}
