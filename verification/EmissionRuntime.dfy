// The transmitter: a bounded queue of messages and the modulation in progress.

module EmissionRuntimes {
  import opened Basics
  import opened Slots
  import opened Synthesis
  import opened Waveform
  import opened Program
  import opened Modulations
  import opened Emission

  /** A queued message knows the modulation that will send it; several may share one. */
  datatype QueuedMessage = QueuedMessage(bits: seq<bool>, repeatCount: nat, modulation: Modulation)

  function SentOf(m: QueuedMessage): Sent {
    Sent(m.bits, m.repeatCount, m.modulation.scheme)
  }

  function SentAll(msgs: seq<QueuedMessage>): (sent: seq<Sent>)
    ensures |sent| == |msgs|
    ensures forall i :: 0 <= i < |msgs| ==> sent[i] == SentOf(msgs[i])
  {
    seq(|msgs|, i requires 0 <= i < |msgs| => SentOf(msgs[i]))
  }

  class MessageHeap {
    const sizeLimit: nat
    var msgs: seq<QueuedMessage>

    constructor (sizeLimit: nat)
      ensures this.sizeLimit == sizeLimit && msgs == []
    {
      this.sizeLimit := sizeLimit;
      msgs := [];
    }

    /** One slot is always left free. */
    method AddMessage(m: QueuedMessage) returns (ok: bool)
      modifies this
      ensures ok <==> |old(msgs)| + 1 < sizeLimit
      ensures msgs == old(msgs) + if ok then [m] else []
    {
      ok := |msgs| + 1 < sizeLimit;
      if ok {
        msgs := msgs + [m];
      }
    }

    method Extract(i: nat) returns (m: QueuedMessage)
      requires i < |msgs|
      modifies this
      ensures m == old(msgs)[i] && msgs == old(msgs)[..i] + old(msgs)[i + 1..]
    {
      m := msgs[i];
      msgs := msgs[..i] + msgs[i + 1..];
    }
  }

  /** What the machine will deliver, block by block. A program that was given up half
      compiled runs off its end and delivers nothing. */
  ghost predicate Plays(env: Env, m: Machine, rest: seq<Iq>) {
    || Emits(env, m, rest)
    || (rest == [] && Sane(m) && forall n: nat :: n > 0 ==> Gen(env, m, n).ranOff)
  }

  lemma GivenUpPlaysNothing(env: Env, header: seq<Command>, a: Analog)
    requires SaneHeader(header) && 0.0 <= a.rate
    ensures Plays(env, At(header, a, 0, 0), [])
  {
    hide Gen, SetAll;
    forall n: nat | n > 0
      ensures Gen(env, At(header, a, 0, 0), n).ranOff
    {
      assert header[0..0 + |header|] == header;
      RunHeader(env, header, a, 0, 0, header, n);
      GenDone(env, At(header, SetAll(a, header), |header|, 0), n);
    }
  }

  /** One buffer from a machine that plays `rest`. */
  lemma PlaysNext(env: Env, m: Machine, rest: seq<Iq>, len: nat)
    requires Plays(env, m, rest)
    ensures var r := Gen(env, m, len);
            && (if r.ranOff then [] else r.samples) == rest[..Min(len, |rest|)]
            && (r.ranOff ==> r.samples == [])
            && (len <= |rest| ==> Plays(env, r.machine, rest[len..]))
  {
    hide Gen, WellFormed;
    if Emits(env, m, rest) {
      WellFormedStays(env, m, len);
      EmitsRest(env, m, rest, len);
    } else {
      GenDone(env, m, len);
      RanOffHeader(env, m, len);
    }
  }

  lemma WellFormedStays(env: Env, m: Machine, n: nat)
    requires Sane(m) && WellFormed(m)
    ensures !Gen(env, m, n).ranOff
  {
  }

  /** A machine that cannot deliver one sample before it runs off delivers none. */
  lemma RanOffHeader(env: Env, m: Machine, n: nat)
    requires Sane(m) && forall k: nat :: k > 0 ==> Gen(env, m, k).ranOff
    ensures Gen(env, m, n).samples == []
  {
    if n > 0 {
      ChunkIndependence(env, m, 1, n - 1);
    }
  }

  class EmissionRuntime {
    const env: Env
    const amp: real
    const heap: MessageHeap
    var curMod: Modulation?

    /** What is left of the message in progress. */
    ghost var rest: seq<Iq>

    ghost predicate Valid()
      reads this, heap, curMod
    {
      && (forall i :: 0 <= i < |heap.msgs| ==>
            ValidScheme(heap.msgs[i].modulation.scheme) && heap.msgs[i].modulation.env == env)
      && (curMod != null ==> curMod.env == env && Plays(env, curMod.State(), rest))
    }

    ghost function Abstract(): Pending
      reads this, heap, curMod
    {
      Pending(if curMod == null then None else Some(rest), SentAll(heap.msgs))
    }

    constructor (env: Env, messageCountMax: nat, amp: real)
      ensures Valid() && this.env == env && this.amp == amp
      ensures fresh(heap) && heap.sizeLimit == messageCountMax && Abstract() == Pending(None, [])
    {
      this.env, this.amp := env, amp;
      heap := new MessageHeap(messageCountMax);
      curMod, rest := null, [];
    }

    method AddMessage(m: QueuedMessage) returns (ok: bool)
      requires Valid() && ValidScheme(m.modulation.scheme) && m.modulation.env == env
      modifies heap
      ensures Valid() && curMod == old(curMod)
      ensures ok <==> |old(heap.msgs)| + 1 < heap.sizeLimit
      ensures Abstract() ==
              if ok then old(Abstract()).(queue := old(Abstract().queue) + [SentOf(m)]) else old(Abstract())
    {
      ok := heap.AddMessage(m);
      assert SentAll(heap.msgs) == SentAll(old(heap.msgs)) + if ok then [SentOf(m)] else [];
    }

    /** One call: the caller's buffer is filled with the next block of the schedule, or
        the caller is asked to retune. */
    method NextBlock(samples: array<Iq>, phy: Phy) returns (command: Event, newPhy: Phy)
      requires Valid()
      modifies this, heap, samples, curMod, set i | 0 <= i < |heap.msgs| :: heap.msgs[i].modulation
      ensures Valid() && ValidQueue(old(Abstract()).queue)
      ensures var o := Step(env, amp, old(Abstract()), phy, samples.Length);
              && Abstract() == o.pending && newPhy == o.phy && command == o.event
              && samples[..] == if command.Block? then command.samples else Silence(samples.Length)
      ensures command.Retune? <==>
                old(curMod) == null && old(heap.msgs) != [] &&
                !CoversChannel(phy, old(heap.msgs)[0].modulation.scheme.centralFreq)
      ensures newPhy == if command.Block? then phy else TunedTo(phy, old(heap.msgs)[0].modulation.scheme.centralFreq)
      ensures command.Retune? ==> command.phy == newPhy
    {
      newPhy := phy;
      forall i | 0 <= i < samples.Length {
        samples[i] := Iq(0, 0);
      }
      if curMod == null && |heap.msgs| > 0 {
        var mod := heap.msgs[0].modulation;
        AcceptedIffCovered(mod.scheme, phy);
        if CheckPhyParameters(mod.scheme, phy) {
          StartMessage(phy);
        } else {
          newPhy := phy.(centralFreq := CentralFrequency(mod.scheme));
          if phy.sampleRate < CHANNEL_WIDTH {
            newPhy := newPhy.(sampleRate := CHANNEL_WIDTH * 1.5);
          }
          command := Retune(newPhy);
          return;
        }
      }
      if curMod != null {
        PlayOn(samples);
      }
      command := Block(samples[..]);
    }

    /** Takes the first message off the queue and compiles it. */
    method StartMessage(phy: Phy)
      requires Valid() && curMod == null && heap.msgs != []
      requires CheckPhyParameters(heap.msgs[0].modulation.scheme, phy)
      modifies this`curMod, this`rest, heap, heap.msgs[0].modulation
      ensures Valid() && curMod == old(heap.msgs[0].modulation)
      ensures Abstract() == Pending(Some(SoundOf(env, amp, SentOf(old(heap.msgs[0])), phy)), old(Abstract()).queue[1..])
    {
      hide Gen, MessageSound, CheckPhyParameters, Emits, SetAll;
      AcceptedRateIsPositive(heap.msgs[0].modulation.scheme, phy);
      ghost var msgs := heap.msgs;
      var m := heap.Extract(0);
      assert heap.msgs == msgs[1..];
      assert SentAll(heap.msgs) == SentAll(msgs)[1..];
      var mod := m.modulation;
      var ok := mod.PrepareMessage(m.bits, m.repeatCount, phy, amp);
      if !ok {
        GivenUpPlaysNothing(env, FskHeader(phy, amp), mod.Registers());
      }
      curMod := mod;
      rest := SoundOf(env, amp, SentOf(m), phy);
    }

    /** Fills the silent buffer from the message in progress. */
    method PlayOn(samples: array<Iq>)
      requires Valid() && curMod != null && samples[..] == Silence(samples.Length)
      modifies this`curMod, this`rest, curMod, samples
      ensures Valid()
      ensures samples[..] == Padded(old(rest), samples.Length)
      ensures Abstract() == old(Abstract()).(current :=
                if |old(rest)| < samples.Length then None else Some(old(rest)[samples.Length..]))
    {
      PlaysNext(env, curMod.State(), rest, samples.Length);
      var msgLen := curMod.GetNextSamples(samples, samples.Length);
      if msgLen < samples.Length {
        curMod := null;
      } else {
        rest := rest[samples.Length..];
      }
    }
  }
}
