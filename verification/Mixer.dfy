/**
 * The output of the client: an endless stream of mixed frames that is cut into buffers of whatever
 * size the sound card asks for.
 */
module Mixer {
  import opened Prelude

  const FRAME_SIZE := 960

  /** A playing sound effect; kind zero means that the slot is free. */
  datatype SfxSlot = SfxSlot(kind: nat, pos: nat)

  /**
   * What comes from outside at every mixed frame: the attenuated voices of all clients, and the
   * requests for sounds that were queued since the last frame. Sounds are looked up by their kind.
   */
  datatype Env = Env(voice: nat -> seq<real>, requests: nat -> seq<nat>, sounds: nat -> seq<real>)

  ghost predicate Lawful(env: Env) {
    (forall n {:trigger env.voice(n)} :: |env.voice(n)| == FRAME_SIZE)
    && forall n, i {:trigger env.requests(n)[i]} :: 0 <= i < |env.requests(n)| ==> env.requests(n)[i] != 0
  }

  function Clamp(x: real): real {
    if x < -1.0 then -1.0 else if x > 1.0 then 1.0 else x
  }

  // Sound effects.

  type Slots = s: seq<SfxSlot> | |s| == 2 witness [SfxSlot(0, 0), SfxSlot(0, 0)]

  function Put(slots: Slots, kind: nat): Slots {
    if slots[0].kind == 0 then [SfxSlot(kind, 0), slots[1]]
    else if slots[1].kind == 0 then [slots[0], SfxSlot(kind, 0)]
    else slots
  }

  /** Every request takes the first free slot, and is dropped if there is none. */
  function Start(slots: Slots, requests: seq<nat>): Slots
    decreases |requests|
  {
    if requests == [] then slots else Start(Put(slots, requests[0]), requests[1..])
  }

  /** What a slot adds to a sample of the frame. */
  function Gain(sounds: nat -> seq<real>, slot: SfxSlot, i: nat): real {
    if slot.kind != 0 && slot.pos + i < |sounds(slot.kind)| then sounds(slot.kind)[slot.pos + i] * 0.5 else 0.0
  }

  function Advance(sounds: nat -> seq<real>, slot: SfxSlot): SfxSlot {
    var len := |sounds(slot.kind)|;
    if slot.kind == 0 then slot
    else if slot.pos >= len then SfxSlot(0, slot.pos)
    else if slot.pos + FRAME_SIZE >= len then SfxSlot(0, len)
    else SfxSlot(slot.kind, slot.pos + FRAME_SIZE)
  }

  // The stream.

  /** The slots before frame n. */
  function SlotsBefore(env: Env, n: nat): Slots
    decreases n, 0
  {
    if n == 0 then [SfxSlot(0, 0), SfxSlot(0, 0)]
    else
      var slots := Playing(env, n - 1);
      [Advance(env.sounds, slots[0]), Advance(env.sounds, slots[1])]
  }

  /** The slots that sound in frame n. */
  function Playing(env: Env, n: nat): Slots
    decreases n, 1
  {
    Start(SlotsBefore(env, n), env.requests(n))
  }

  function Frame(env: Env, n: nat): (r: seq<real>)
    requires |env.voice(n)| == FRAME_SIZE
    ensures |r| == FRAME_SIZE
  {
    var slots := Playing(env, n);
    seq(FRAME_SIZE, i requires 0 <= i < FRAME_SIZE =>
      Clamp(env.voice(n)[i] + Gain(env.sounds, slots[0], i) + Gain(env.sounds, slots[1], i)))
  }

  /** The k-th sample that is played. */
  function Sample(env: Env, k: nat): real
    requires |env.voice(k / FRAME_SIZE)| == FRAME_SIZE
  {
    Frame(env, k / FRAME_SIZE)[k % FRAME_SIZE]
  }

  // A sound is played once, from start to end.

  lemma {:induction false} StartExactly(slots: Slots, requests: seq<nat>)
    requires forall i {:trigger requests[i]} :: 0 <= i < |requests| ==> requests[i] != 0
    ensures var second := if slots[0].kind == 0 then 1 else 0;
      && Start(slots, requests)[0]
         == (if slots[0].kind == 0 && |requests| > 0 then SfxSlot(requests[0], 0) else slots[0])
      && Start(slots, requests)[1]
         == (if slots[1].kind == 0 && |requests| > second then SfxSlot(requests[second], 0) else slots[1])
    decreases |requests|
  {
    if requests != [] {
      StartExactly(Put(slots, requests[0]), requests[1..]);
    }
  }

  /** A new sound in one of the slots. */
  predicate Starts(env: Env, n: nat, s: nat) {
    s < 2 && SlotsBefore(env, n)[s].kind == 0 && Playing(env, n)[s].kind != 0
  }

  /**
   * From the frame in which a sound starts, its samples come one after the other without a gap. Behind
   * the last of them the slot is free again.
   */
  lemma {:induction false} SoundPlaysThrough(env: Env, n: nat, s: nat, j: nat)
    requires Lawful(env) && Starts(env, n, s)
    requires j * FRAME_SIZE < |env.sounds(Playing(env, n)[s].kind)|
    ensures Playing(env, n)[s].kind in env.requests(n)
    ensures Playing(env, n + j)[s] == SfxSlot(Playing(env, n)[s].kind, j * FRAME_SIZE)
    ensures (j + 1) * FRAME_SIZE >= |env.sounds(Playing(env, n)[s].kind)| ==> SlotsBefore(env, n + j + 1)[s].kind == 0
  {
    if j == 0 {
      StartExactly(SlotsBefore(env, n), env.requests(n));
    } else {
      SoundPlaysThrough(env, n, s, j - 1);
      StartExactly(SlotsBefore(env, n + j), env.requests(n + j));
    }
  }

  /** So sample x of a sound is heard at half volume, x samples after its first frame began. */
  lemma SoundIsHeard(env: Env, n: nat, s: nat, x: nat)
    requires Lawful(env) && Starts(env, n, s)
    ensures var sound := env.sounds(Playing(env, n)[s].kind);
      x < |sound| ==>
        Gain(env.sounds, Playing(env, n + x / FRAME_SIZE)[s], x % FRAME_SIZE) == sound[x] * 0.5
  {
    if x < |env.sounds(Playing(env, n)[s].kind)| {
      SoundPlaysThrough(env, n, s, x / FRAME_SIZE);
    }
  }

  // What is heard, sample by sample.

  /** The sound that started in slot s with frame n has a sample left for sample k of the output. */
  ghost predicate Plays(env: Env, s: nat, n: nat, k: nat) {
    Starts(env, n, s) && n * FRAME_SIZE <= k < n * FRAME_SIZE + |env.sounds(Playing(env, n)[s].kind)|
  }

  /** What the sounds in slot s add to sample k: a sound plays from its first frame on, at half volume. */
  ghost function SoundAt(env: Env, s: nat, k: nat): real {
    if n: nat :| Plays(env, s, n, k) then env.sounds(Playing(env, n)[s].kind)[k - n * FRAME_SIZE] / 2.0 else 0.0
  }

  /** The voices and both sounds, added up; what is too loud is cut off. */
  ghost predicate IsMix(env: Env, k: nat, r: real)
    requires |env.voice(k / FRAME_SIZE)| == FRAME_SIZE
  {
    var sum := env.voice(k / FRAME_SIZE)[k % FRAME_SIZE] + SoundAt(env, 0, k) + SoundAt(env, 1, k);
    && -1.0 <= r <= 1.0 && (-1.0 <= sum <= 1.0 ==> r == sum) && (sum > 1.0 ==> r == 1.0) && (sum < -1.0 ==> r == -1.0)
  }

  /** A slot is busy exactly with a sound that started there and has not come to its end. */
  lemma {:induction false} BusySince(env: Env, m: nat, s: nat) returns (n: nat)
    requires Lawful(env) && s < 2 && Playing(env, m)[s].kind != 0
    ensures n <= m && Starts(env, n, s)
    ensures Playing(env, m)[s] == SfxSlot(Playing(env, n)[s].kind, (m - n) * FRAME_SIZE)
    decreases m
  {
    if SlotsBefore(env, m)[s].kind == 0 {
      n := m;
      StartExactly(SlotsBefore(env, m), env.requests(m));
    } else {
      SlotsAfter(env, m - 1);
      n := BusySince(env, m - 1, s);
      StartExactly(SlotsBefore(env, m), env.requests(m));
    }
  }

  lemma SampleOfSound(n: nat, k: nat)
    requires n * FRAME_SIZE <= k
    ensures (k - n * FRAME_SIZE) / FRAME_SIZE == k / FRAME_SIZE - n
    ensures (k - n * FRAME_SIZE) % FRAME_SIZE == k % FRAME_SIZE
    ensures k / FRAME_SIZE >= n
  {
  }

  lemma {:induction false} GainIsSoundAt(env: Env, s: nat, k: nat)
    requires Lawful(env) && s < 2
    ensures Gain(env.sounds, Playing(env, k / FRAME_SIZE)[s], k % FRAME_SIZE) == SoundAt(env, s, k)
  {
    hide Playing, SlotsBefore, Starts, Lawful;
    var m, i := k / FRAME_SIZE, k % FRAME_SIZE;
    forall n: nat | Plays(env, s, n, k)
      ensures Gain(env.sounds, Playing(env, m)[s], i) == env.sounds(Playing(env, n)[s].kind)[k - n * FRAME_SIZE] / 2.0
    {
      SampleOfSound(n, k);
      SoundIsHeard(env, n, s, k - n * FRAME_SIZE);
    }
    if Gain(env.sounds, Playing(env, m)[s], i) != 0.0 {
      var n := BusySince(env, m, s);
      assert m * FRAME_SIZE + i == k && (m - n) * FRAME_SIZE == m * FRAME_SIZE - n * FRAME_SIZE;
      assert Plays(env, s, n, k);
    }
  }

  /** Every sample of the output is the mix of the voices and of the sounds that play then. */
  lemma {:induction false} SampleIsMix(env: Env, k: nat)
    requires Lawful(env)
    ensures |env.voice(k / FRAME_SIZE)| == FRAME_SIZE && IsMix(env, k, Sample(env, k))
  {
    hide Gain, Playing, SlotsBefore, SoundAt;
    GainIsSoundAt(env, 0, k);
    GainIsSoundAt(env, 1, k);
  }

  /** Without a sound the voices are played as they are. */
  lemma VoiceIsPlayed(env: Env, k: nat)
    requires Lawful(env) && (forall s, n {:trigger Plays(env, s, n, k)} :: s < 2 ==> !Plays(env, s, n, k))
    requires var v := env.voice(k / FRAME_SIZE); |v| == FRAME_SIZE && -1.0 <= v[k % FRAME_SIZE] <= 1.0
    ensures Sample(env, k) == env.voice(k / FRAME_SIZE)[k % FRAME_SIZE]
  {
    SampleIsMix(env, k);
  }

  /** As long as no sound was requested, none plays. */
  lemma {:induction false} NothingRequested(env: Env, m: nat, s: nat, n: nat, k: nat)
    requires Lawful(env) && s < 2 && k / FRAME_SIZE <= m
    requires forall j {:trigger env.requests(j)} :: 0 <= j <= m ==> env.requests(j) == []
    ensures !Plays(env, s, n, k)
  {
    if n <= m {
      StartExactly(SlotsBefore(env, n), env.requests(n));
    }
  }

  /** One more sound in a slot changes the sample by half its own, unless something is cut off. */
  lemma {:induction false} SoundIsAdded(env: Env, n: nat, s: nat, x: nat)
    requires Lawful(env) && Starts(env, n, s) && x < |env.sounds(Playing(env, n)[s].kind)|
    ensures var k := n * FRAME_SIZE + x;
      var rest := env.voice(k / FRAME_SIZE)[k % FRAME_SIZE] + SoundAt(env, 1 - s, k);
      var sum := rest + env.sounds(Playing(env, n)[s].kind)[x] / 2.0;
      -1.0 <= sum <= 1.0 ==> Sample(env, k) == sum
  {
    hide Gain, Playing, SlotsBefore;
    var k := n * FRAME_SIZE + x;
    SampleIsMix(env, k);
    GainIsSoundAt(env, s, k);
    SampleOfSound(n, k);
    SoundIsHeard(env, n, s, x);
  }

  // The callback.

  class OutputStream {
    const env: Env
    var currentMixSlot: Option<nat>
    var currentMixBuf: seq<real>
    var sfxSlots: Slots
    var playedSamples: nat
    /** The frames that were mixed, in this order. */
    ghost var mixed: seq<nat>

    /** All frames up to the last one that was begun are mixed, and the last one is kept. */
    ghost predicate Valid()
      reads this
    {
      Lawful(env)
      && MixedUpTo((playedSamples + FRAME_SIZE - 1) / FRAME_SIZE)
    }

    ghost predicate MixedUpTo(n: nat)
      reads this`mixed, this`sfxSlots, this`currentMixSlot, this`currentMixBuf
      requires Lawful(env)
    {
      && mixed == seq(n, i => i)
      && sfxSlots == SlotsBefore(env, n)
      && currentMixSlot == (if n == 0 then None else Some(n - 1))
      && (n > 0 ==> currentMixBuf == Frame(env, n - 1))
    }

    constructor (env: Env)
      requires Lawful(env)
      ensures Valid() && this.env == env && playedSamples == 0 && mixed == []
    {
      this.env, currentMixSlot, currentMixBuf, playedSamples := env, None, [], 0;
      sfxSlots, mixed := [SfxSlot(0, 0), SfxSlot(0, 0)], [];
    }

    /** Mixes one sound into the frame, as far as it goes. */
    static method MixSound(sounds: nat -> seq<real>, slot: SfxSlot, buf: array<real>) returns (next: SfxSlot)
      requires buf.Length == FRAME_SIZE
      modifies buf
      ensures next == Advance(sounds, slot)
      ensures forall i {:trigger buf[i]} :: 0 <= i < FRAME_SIZE ==> buf[i] == old(buf[i]) + Gain(sounds, slot, i)
    {
      if slot.kind == 0 {
        return slot;
      }
      var src := sounds(slot.kind);
      if slot.pos >= |src| {
        return SfxSlot(0, slot.pos);
      }
      var i := 0;
      while i < FRAME_SIZE && slot.pos + i < |src|
        invariant 0 <= i <= FRAME_SIZE && slot.pos + i <= |src|
        invariant forall k {:trigger buf[k]} :: 0 <= k < i ==> buf[k] == old(buf[k]) + Gain(sounds, slot, k)
        invariant forall k {:trigger buf[k]} :: i <= k < FRAME_SIZE ==> buf[k] == old(buf[k])
      {
        buf[i] := buf[i] + src[slot.pos + i] * 0.5;
        i := i + 1;
      }
      next := SfxSlot(if slot.pos + i >= |src| then 0 else slot.kind, slot.pos + i);
    }

    /** Empties the queue of requests. */
    static method StartSounds(slots: Slots, requests: seq<nat>) returns (started: Slots)
      ensures started == Start(slots, requests)
    {
      started := slots;
      var i := 0;
      assert requests[i..] == requests;
      while i < |requests|
        invariant 0 <= i <= |requests| && Start(started, requests[i..]) == Start(slots, requests)
      {
        assert requests[i..][1..] == requests[i + 1..];
        started, i := Put(started, requests[i]), i + 1;
      }
      assert requests[i..] == [];
    }

    static method ClampAll(buf: array<real>)
      modifies buf
      ensures forall k {:trigger buf[k]} :: 0 <= k < buf.Length ==> buf[k] == Clamp(old(buf[k]))
    {
      var i := 0;
      while i < buf.Length
        invariant 0 <= i <= buf.Length
        invariant forall k {:trigger buf[k]} :: 0 <= k < buf.Length ==>
                    buf[k] == if k < i then Clamp(old(buf[k])) else old(buf[k])
      {
        buf[i] := Clamp(buf[i]);
        i := i + 1;
      }
    }

    method MixFrame(n: nat) returns (mix: seq<real>)
      requires Lawful(env) && sfxSlots == SlotsBefore(env, n)
      modifies this`sfxSlots
      ensures mix == Frame(env, n) && sfxSlots == SlotsBefore(env, n + 1)
    {
      hide Gain, Advance, Clamp, SlotsBefore;
      var voice := env.voice(n);
      var buf := new real[FRAME_SIZE](i requires 0 <= i < FRAME_SIZE => voice[i]);
      var slots := StartSounds(sfxSlots, env.requests(n));
      var first := MixSound(env.sounds, slots[0], buf);
      var second := MixSound(env.sounds, slots[1], buf);
      ClampAll(buf);
      SlotsAfter(env, n);
      sfxSlots := [first, second];
      mix := buf[..];
    }

    /** Mixes a frame when it is entered, and only then. */
    method EnterFrame(slot: nat)
      requires Lawful(env) && (MixedUpTo(slot) || MixedUpTo(slot + 1))
      modifies this`currentMixSlot, this`currentMixBuf, this`sfxSlots, this`mixed
      ensures MixedUpTo(slot + 1) && currentMixBuf == Frame(env, slot)
    {
      hide Frame, SlotsBefore, Lawful;
      if currentMixSlot != Some(slot) {
        currentMixBuf := MixFrame(slot);
        currentMixSlot := Some(slot);
        mixed := mixed + [slot];
      }
    }

    /** `copy_from_slice` into a part of the output. */
    static method Copy(data: array<real>, at: nat, part: seq<real>)
      requires at + |part| <= data.Length
      modifies data
      ensures forall k {:trigger data[k]} :: 0 <= k < data.Length ==>
                data[k] == if at <= k < at + |part| then part[k - at] else old(data[k])
    {
      var i := 0;
      while i < |part|
        invariant 0 <= i <= |part|
        invariant forall k {:trigger data[k]} :: 0 <= k < data.Length ==>
                    data[k] == if at <= k < at + i then part[k - at] else old(data[k])
      {
        data[at + i] := part[i];
        i := i + 1;
      }
    }

    /** Whatever sizes the buffers have, they get the samples of the stream one after the other. */
    method Callback(data: array<real>)
      requires Valid()
      modifies this`currentMixSlot, this`currentMixBuf, this`sfxSlots, this`playedSamples, this`mixed, data
      ensures Valid() && playedSamples == old(playedSamples) + data.Length
      ensures forall k {:trigger data[k]} :: 0 <= k < data.Length ==> data[k] == Sample(env, old(playedSamples) + k)
      ensures forall k {:trigger data[k]} :: 0 <= k < data.Length ==> IsMix(env, old(playedSamples) + k, data[k])
    {
      hide Frame, Sample, SlotsBefore, Lawful, OutputStream.MixedUpTo, IsMix;
      SampleExists(env);
      var slot, offset, dataOffset := playedSamples / FRAME_SIZE, playedSamples % FRAME_SIZE, 0;
      FramesBegun(slot, offset);
      while dataOffset < data.Length
        invariant 0 <= dataOffset <= data.Length && 0 <= offset < FRAME_SIZE
        invariant slot * FRAME_SIZE + offset == playedSamples + dataOffset
        invariant playedSamples == old(playedSamples)
        invariant MixedUpTo(if offset == 0 then slot else slot + 1)
        invariant forall k {:trigger data[k]} :: 0 <= k < dataOffset ==> data[k] == Sample(env, playedSamples + k)
      {
        EnterFrame(slot);
        var copy := Min(data.Length - dataOffset, FRAME_SIZE - offset);
        SamplesOfFrame(env, slot, offset, copy);
        Copy(data, dataOffset, currentMixBuf[offset..offset + copy]);
        dataOffset, offset := dataOffset + copy, offset + copy;
        if offset >= FRAME_SIZE {
          offset, slot := 0, slot + 1;
        }
      }
      forall k | 0 <= k < data.Length
        ensures IsMix(env, playedSamples + k, data[k])
      {
        SampleIsMix(env, playedSamples + k);
      }
      playedSamples := playedSamples + data.Length;
      FramesBegun(slot, offset);
    }
  }

  lemma SlotsAfter(env: Env, n: nat)
    ensures SlotsBefore(env, n + 1) ==
            [Advance(env.sounds, Playing(env, n)[0]), Advance(env.sounds, Playing(env, n)[1])]
  {
  }

  lemma SampleExists(env: Env)
    requires Lawful(env)
    ensures forall n {:trigger env.voice(n)} :: |env.voice(n)| == FRAME_SIZE
  {
  }

  lemma FramesBegun(slot: nat, offset: nat)
    requires offset < FRAME_SIZE
    ensures (slot * FRAME_SIZE + offset + FRAME_SIZE - 1) / FRAME_SIZE == if offset == 0 then slot else slot + 1
  {
  }

  lemma SamplesOfFrame(env: Env, slot: nat, offset: nat, count: nat)
    requires Lawful(env) && offset + count <= FRAME_SIZE
    ensures var first := slot * FRAME_SIZE + offset;
      forall k {:trigger Sample(env, k)} :: first <= k < first + count ==>
        Sample(env, k) == Frame(env, slot)[offset..offset + count][k - first]
  {
    hide Frame;
    forall k | slot * FRAME_SIZE + offset <= k < slot * FRAME_SIZE + offset + count
      ensures k / FRAME_SIZE == slot && k % FRAME_SIZE == k - slot * FRAME_SIZE
    {
    }
  }

  // Chunking.

  function Sum(sizes: seq<nat>): nat {
    if sizes == [] then 0 else Sum(sizes[..|sizes| - 1]) + sizes[|sizes| - 1]
  }

  /** Any cutting of the output into buffers yields the same stream. */
  method PlayAll(env: Env, sizes: seq<nat>) returns (out: seq<real>)
    requires Lawful(env)
    ensures |out| == Sum(sizes)
    ensures forall k {:trigger out[k]} :: 0 <= k < |out| ==>
              |env.voice(k / FRAME_SIZE)| == FRAME_SIZE && out[k] == Sample(env, k) && IsMix(env, k, out[k])
  {
    hide Sample, IsMix;
    var stream := new OutputStream(env);
    out := [];
    var i := 0;
    while i < |sizes|
      invariant 0 <= i <= |sizes| && fresh(stream) && stream.Valid() && stream.env == env
      invariant stream.playedSamples == |out| == Sum(sizes[..i])
      invariant forall k {:trigger out[k]} :: 0 <= k < |out| ==>
                  |env.voice(k / FRAME_SIZE)| == FRAME_SIZE && out[k] == Sample(env, k)
    {
      var data := new real[sizes[i]];
      stream.Callback(data);
      assert sizes[..i + 1][..i] == sizes[..i];
      out, i := out + data[..], i + 1;
    }
    assert sizes[..i] == sizes;
    forall k | 0 <= k < |out|
      ensures |env.voice(k / FRAME_SIZE)| == FRAME_SIZE && IsMix(env, k, out[k])
    {
      SampleIsMix(env, k);
    }
  }
}
