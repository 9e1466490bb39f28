/**
 * The simulated packet sniffer (pkg/sniffing/sniffer.go).
 *
 * PacketSniffer has a running flag and a stop channel that is made once, in the
 * constructor, and closed by Stop. Start launches a background loop that, until the
 * caller's context is done or the stop channel is closed, generates one packet per
 * tick and hands it to the store. The loop is not modelled as a thread: its three
 * select cases are the environment events LoopExit (context done / stop signal) and
 * GenerateAndStorePacket (a tick). Every rand draw is an input (a Draws record).
 */
module Sniffing {
  import opened Models
  import Storage

  /** The pools NewPacketSniffer installs. */
  const CommonIPs: seq<string> := [
    "192.168.1.1", "192.168.1.100", "192.168.1.101", "192.168.1.102",
    "10.0.0.1", "10.0.0.2", "10.0.0.3", "10.0.0.4",
    "172.16.0.1", "172.16.0.2", "172.16.0.3",
    "8.8.8.8", "1.1.1.1", "208.67.222.222",
    "142.250.190.78", "151.101.1.69", "104.16.124.96"
  ]
  const CommonPorts: seq<int> := [
    80, 443, 22, 21, 25, 53, 110, 143, 993, 995,
    8080, 8443, 3000, 5000, 8000, 9000
  ]
  const Protocols: seq<string> := ["TCP", "UDP", "HTTP", "HTTPS"]

  /** The flag values a packet may be given (a literal inside generateRandomPacket). */
  const FlagChoices: seq<string> := ["SYN", "ACK", "FIN", "RST", "PSH", "URG"]

  /** The request lines an HTTP or HTTPS packet carries (a literal inside generateRandomPacket). */
  const Payloads: seq<string> := [
    "GET / HTTP/1.1",
    "POST /api/data HTTP/1.1",
    "PUT /resource HTTP/1.1",
    "DELETE /item/123 HTTP/1.1"
  ]

  /** No request line is empty, so an empty Payload tells that none was attached. */
  lemma PayloadsNonEmpty()
    ensures "" !in Payloads
  {
  }

  // ---------------------------------------------------------------------------
  // Lifecycle (the specification of Start, Stop and the loop's exit).

  /** Why the background loop returns: its context is done, or it received from stopChan. */
  datatype ExitCause = ContextDone | StopSignal

  /** How a call to Stop ends: it returns an error value, or it panics. */
  datatype StopOutcome = Returned(err: Option<string>) | Panicked(message: string)

  /**
   * The sniffer's lifecycle: isRunning, whether stopChan has been closed, and how many
   * background loops are still alive.
   */
  datatype Lifecycle = Lifecycle(running: bool, stopClosed: bool, loops: nat)

  const Fresh: Lifecycle := Lifecycle(false, false, 0)

  /** Start: a no-op when running; otherwise running, with one more background loop. */
  function StartStep(s: Lifecycle): (t: Lifecycle)
    ensures t.running && t.stopClosed == s.stopClosed
    ensures s.running ==> t == s
    ensures !s.running ==> t.loops == s.loops + 1
  {
    if s.running then s else s.(running := true, loops := s.loops + 1)
  }

  /**
   * Stop: a no-op when idle; otherwise closes stopChan and clears the flag. The channel
   * is never recreated, so closing it a second time panics before the flag is cleared.
   */
  function StopStep(s: Lifecycle): (r: (StopOutcome, Lifecycle))
    ensures r.0 == Returned(None) <==> !(s.running && s.stopClosed)
    ensures r.0 == Returned(None) ==> !r.1.running
    ensures r.0 != Returned(None) ==> r.1 == s
    ensures !s.running ==> r.1 == s
    ensures r.1.stopClosed == (s.stopClosed || s.running) && r.1.loops == s.loops
  {
    if !s.running then (Returned(None), s)
    else if s.stopClosed then (Panicked("close of closed channel"), s)
    else (Returned(None), s.(running := false, stopClosed := true))
  }

  /** A receive from stopChan can only complete once the channel is closed. */
  predicate ExitEnabled(s: Lifecycle, cause: ExitCause) {
    s.loops > 0 && (cause == StopSignal ==> s.stopClosed)
  }

  /** A loop that returns clears the flag, whichever run it belonged to. */
  function ExitStep(s: Lifecycle, cause: ExitCause): (t: Lifecycle)
    requires ExitEnabled(s, cause)
    ensures !t.running && t.stopClosed == s.stopClosed && t.loops + 1 == s.loops
  {
    s.(running := false, loops := s.loops - 1)
  }

  /** Starting twice is starting once: one flag set, one background loop. */
  lemma StartIsIdempotent(s: Lifecycle)
    ensures StartStep(StartStep(s)) == StartStep(s)
    ensures !s.running ==> StartStep(StartStep(s)).loops == s.loops + 1
  {
  }

  /** A successful Stop leaves the sniffer idle, and a second Stop changes nothing. */
  lemma SecondStopIsNoOp(s: Lifecycle)
    requires StopStep(s).0 == Returned(None)
    ensures var t := StopStep(s).1; !t.running && StopStep(t) == (Returned(None), t)
  {
  }

  /** Once closed, stopChan stays closed through every transition. */
  lemma StopChannelStaysClosed(s: Lifecycle, cause: ExitCause)
    requires s.stopClosed
    ensures StartStep(s).stopClosed && StopStep(s).1.stopClosed
    ensures ExitEnabled(s, cause) ==> ExitStep(s, cause).stopClosed
  {
  }

  /**
   * Start, Stop, Start, Stop from a fresh sniffer: the second Stop closes a closed
   * channel and panics, leaving the sniffer marked running. Before that, the restarted
   * loop can already receive the stop signal.
   */
  lemma RestartThenStopPanics()
    ensures var s1 := StartStep(Fresh);
      var s2 := StopStep(s1).1;
      var s3 := StartStep(s2);
      && StopStep(s1).0 == Returned(None)
      && s3.running && ExitEnabled(s3, StopSignal)
      && StopStep(s3).0.Panicked? && StopStep(s3).1.running
  {
  }

  // ---------------------------------------------------------------------------
  // Synthesis.

  /**
   * The outcome of every rand call generateRandomPacket makes, in order: indices for
   * rand.Intn, and booleans for the rand.Float32() < p tests. `dests` holds the first
   * destination draw and every re-draw.
   */
  datatype Draws = Draws(
    source: nat,
    dests: seq<nat>,
    port: nat,
    protocol: nat,
    size: nat,
    ttlVaries: bool,
    ttl: nat,
    flagsVary: bool,
    flag: nat,
    payload: nat)

  class PacketSniffer {
    const storage: Storage.InMemoryStorage
    const interval: int
    var isRunning: bool
    var stopClosed: bool
    ghost var loops: nat

    const commonIPs: seq<string>
    const commonPorts: seq<int>
    const protocols: seq<string>

    /** The pools are the ones the constructor installs; nothing reassigns them. */
    predicate StandardPools() {
      commonIPs == CommonIPs && commonPorts == CommonPorts && protocols == Protocols
    }

    ghost function State(): Lifecycle
      reads this
    {
      Lifecycle(isRunning, stopClosed, loops)
    }

    /** NewPacketSniffer: idle, with an open stop channel and no background loop. */
    constructor (storage: Storage.InMemoryStorage, interval: int)
      ensures State() == Fresh && StandardPools()
      ensures this.storage == storage && this.interval == interval
    {
      this.storage := storage;
      this.interval := interval;
      commonIPs := CommonIPs;
      commonPorts := CommonPorts;
      protocols := Protocols;
      isRunning := false;
      stopClosed := false;
      loops := 0;
    }

    method Start() returns (err: Option<string>)
      modifies this
      ensures err == None
      ensures State() == StartStep(old(State()))
    {
      if isRunning {
        return None;
      }
      isRunning := true;
      loops := loops + 1;
      err := None;
    }

    method Stop() returns (outcome: StopOutcome)
      modifies this
      ensures (outcome, State()) == StopStep(old(State()))
    {
      if !isRunning {
        return Returned(None);
      }
      if stopClosed {
        return Panicked("close of closed channel");
      }
      stopClosed := true;
      isRunning := false;
      outcome := Returned(None);
    }

    /** The background loop's first two select cases: it clears the flag and returns. */
    method LoopExit(cause: ExitCause)
      requires ExitEnabled(State(), cause)
      modifies this
      ensures State() == ExitStep(old(State()), cause)
    {
      isRunning := false;
      loops := loops - 1;
    }

    method IsRunning() returns (r: bool)
      ensures r == isRunning
    {
      r := isRunning;
    }

    /** Every rand.Intn draw is below its bound, and some destination draw differs from the source. */
    predicate DrawsInRange(d: Draws) {
      && d.source < |commonIPs|
      && (forall i :: 0 <= i < |d.dests| ==> d.dests[i] < |commonIPs|)
      && (exists i :: 0 <= i < |d.dests| && commonIPs[d.dests[i]] != commonIPs[d.source])
      && d.port < |commonPorts| && d.protocol < |protocols| && d.size < 1436
      && d.ttl < 64 && d.flag < |FlagChoices| && d.payload < |Payloads|
    }

    /** What every synthesized packet satisfies. */
    predicate Synthesized(p: Packet) {
      && p.id != ""
      && p.sourceIP in commonIPs && p.destinationIP in commonIPs && p.sourceIP != p.destinationIP
      && p.port in commonPorts
      && p.protocol in protocols
      && 64 <= p.size <= 1499
      && (p.ttl == DefaultTTL || 32 <= p.ttl <= 95)
      && (p.flags == DefaultFlags || p.flags in FlagChoices)
      && (p.payload in Payloads <==> p.protocol == "HTTP" || p.protocol == "HTTPS")
      && (p.payload !in Payloads ==> p.payload == "")
    }

    /**
     * generateRandomPacket: the destination is the first draw that differs from the
     * source; TTL and Flags keep NewPacket's defaults unless their coin comes up; HTTP
     * and HTTPS packets carry a request line.
     */
    method GenerateRandomPacket(d: Draws, clock: ClockReadings) returns (p: Packet)
      requires DrawsInRange(d)
      ensures Synthesized(p)
      ensures exists j ::
        (0 <= j < |d.dests| && p.destinationIP == commonIPs[d.dests[j]] &&
         forall i :: 0 <= i < j ==> commonIPs[d.dests[i]] == p.sourceIP)
      ensures p.id == GeneratePacketID(clock.idDateTime, clock.idUnixNano) && p.timestamp == clock.timestamp
      ensures d.ttlVaries ==> 32 <= p.ttl <= 95
      ensures !d.ttlVaries ==> p.ttl == DefaultTTL
      ensures d.flagsVary ==> p.flags in FlagChoices
      ensures !d.flagsVary ==> p.flags == DefaultFlags
    {
      var sourceIP := commonIPs[d.source];
      var destIP := PickDestination(d, sourceIP);
      var port := commonPorts[d.port];
      var protocol := protocols[d.protocol];
      var size := d.size + 64;
      p := NewPacket(sourceIP, destIP, protocol, port, size, clock);
      PayloadsNonEmpty();
      if d.ttlVaries {
        p := p.(ttl := d.ttl + 32);
      }
      if d.flagsVary {
        p := p.(flags := FlagChoices[d.flag]);
      }
      if protocol == "HTTP" || protocol == "HTTPS" {
        p := p.(payload := Payloads[d.payload]);
      }
    }

    /**
     * The destination draw and its re-draw loop: the first draw whose address differs
     * from the source.
     */
    method PickDestination(d: Draws, sourceIP: string) returns (destIP: string)
      requires forall i :: 0 <= i < |d.dests| ==> d.dests[i] < |commonIPs|
      requires exists i :: 0 <= i < |d.dests| && commonIPs[d.dests[i]] != sourceIP
      ensures destIP in commonIPs && destIP != sourceIP
      ensures exists j ::
        (0 <= j < |d.dests| && destIP == commonIPs[d.dests[j]] &&
         forall i :: 0 <= i < j ==> commonIPs[d.dests[i]] == sourceIP)
    {
      ghost var w :| 0 <= w < |d.dests| && commonIPs[d.dests[w]] != sourceIP;
      destIP := commonIPs[d.dests[0]];
      var next := 1;
      while destIP == sourceIP
        invariant 1 <= next <= |d.dests| && next - 1 <= w
        invariant destIP == commonIPs[d.dests[next - 1]]
        invariant forall i :: 0 <= i < next - 1 ==> commonIPs[d.dests[i]] == sourceIP
        decreases |d.dests| - next
      {
        destIP := commonIPs[d.dests[next]];
        next := next + 1;
      }
      ghost var j := next - 1;
      assert 0 <= j < |d.dests| && destIP == commonIPs[d.dests[j]] &&
        forall i :: 0 <= i < j ==> commonIPs[d.dests[i]] == sourceIP;
    }

    /**
     * One tick: generate a packet and store it. A store error is dropped, and the
     * sniffer's own fields are untouched.
     */
    method GenerateAndStorePacket(d: Draws, clock: ClockReadings) returns (ghost packet: Packet)
      requires DrawsInRange(d) && storage.Valid()
      modifies storage
      ensures storage.Valid() && Synthesized(packet)
      ensures Storage.StoreStep(old(storage.packets), storage.maxSize, packet, storage.packets)
      ensures isRunning == old(isRunning) && stopClosed == old(stopClosed)
    {
      var generated := GenerateRandomPacket(d, clock);
      // a store error would be ignored so that the loop keeps its cadence
      var _ := storage.Store(generated);
      packet := generated;
    }

    /** A synthesized packet passes the validation rules declared on the Packet record. */
    lemma SynthesizedIsValidRecord(p: Packet)
      requires StandardPools() && Synthesized(p)
      ensures ValidRecord(p)
    {
    }
  }
}
