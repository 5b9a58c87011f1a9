/** Raw lines of a trial's ledger in the evidence store, and what they hold for a
    hash. */
module StoreLedger {
  import opened Options

  /** What a label event carries in its hash-covered detail. */
  datatype Detail = Detail(isLabel: bool, byHuman: bool, channel: Option<string>)

  /** A ledger line: hash and detail may each be absent or of the wrong type. */
  datatype Event = Event(hash: Option<string>, detail: Option<Detail>)

  ghost predicate InLedger(events: seq<Event>, hash: string) {
    exists k | 0 <= k < |events| :: events[k].hash == Some(hash)
  }

  /** The channel the store holds for a hash: that of the last event with the
      hash and a readable detail, null when there is none. */
  function StoredChannel(events: seq<Event>, hash: string): Option<string> {
    if events == [] then None
    else
      var last := events[|events| - 1];
      if last.hash == Some(hash) && last.detail.Some? then last.detail.value.channel
      else StoredChannel(events[..|events| - 1], hash)
  }

  /** Some event has the hash and carries the channel in its detail. */
  ghost predicate CarriesChannel(events: seq<Event>, hash: string, channel: Option<string>) {
    exists k | 0 <= k < |events| ::
      events[k].hash == Some(hash) && events[k].detail.Some? && events[k].detail.value.channel == channel
  }

  lemma {:induction false} StoredChannelIsThere(events: seq<Event>, hash: string)
    ensures StoredChannel(events, hash).Some? ==> CarriesChannel(events, hash, StoredChannel(events, hash))
  {
    if events != [] {
      var n := |events| - 1;
      StoredChannelIsThere(events[..n], hash);
      if events[n].hash == Some(hash) && events[n].detail.Some? {
        assert events[n].detail.value.channel == StoredChannel(events, hash);
      } else if CarriesChannel(events[..n], hash, StoredChannel(events[..n], hash)) {
        var k :| 0 <= k < n && events[..n][k].hash == Some(hash) && events[..n][k].detail.Some?
                 && events[..n][k].detail.value.channel == StoredChannel(events[..n], hash);
        assert events[k].detail.value.channel == StoredChannel(events, hash);
      }
    }
  }

  /** The event at `k` is the last one with the hash and a readable detail. */
  ghost predicate LastReadable(events: seq<Event>, hash: string, k: nat) {
    && k < |events| && events[k].hash == Some(hash) && events[k].detail.Some?
    && forall j | k < j < |events| :: events[j].hash != Some(hash) || events[j].detail.None?
  }

  /** The stored channel is that of the last such event, and null exactly without one
      or when that one carries none. */
  lemma {:induction false} StoredChannelExactly(events: seq<Event>, hash: string)
    ensures forall k: nat | LastReadable(events, hash, k) :: StoredChannel(events, hash) == events[k].detail.value.channel
    ensures (forall k: nat :: !LastReadable(events, hash, k)) ==> StoredChannel(events, hash) == None
    decreases |events|
  {
    if events != [] {
      var n := |events| - 1;
      var past := events[..n];
      StoredChannelExactly(past, hash);
      assert forall j | 0 <= j < n :: past[j] == events[j];
      if events[n].hash == Some(hash) && events[n].detail.Some? {
        assert LastReadable(events, hash, n);
      } else {
        assert forall k: nat | LastReadable(past, hash, k) :: LastReadable(events, hash, k);
        assert forall k: nat | LastReadable(events, hash, k) :: LastReadable(past, hash, k);
      }
    }
  }
}
