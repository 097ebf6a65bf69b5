/** The table of sounds, kept packed, and the voices that point into it, against a map of the
    sounds by handle and the voices by what they play (src/host/mixer.h:87-215), with a device
    that takes the mix in parts (src/host/audio_sdl3.cpp:24-35, 63). */
module MixerTable {
  import opened Mixer
  import opened Options

  const HANDLES: nat := 0x1_0000_0000
  const CHUNK: nat := 1024

  /** What a voice is, apart from where in the table its sound is. */
  datatype Heard =
    | Silent
    | Playing(handle: nat, position: int, left: real, right: real, paused: bool, started: nat)

  function HeardOf(sounds: seq<Sound>, v: Voice): Heard
    requires VoiceOk(sounds, v)
  {
    match v.sfx
    case None => Silent
    case Some(i) => Playing(sounds[i].handle, v.position, v.left, v.right, v.paused, v.started)
  }

  ghost predicate VoicesOk(sounds: seq<Sound>, voices: seq<Voice>) {
    forall k | 0 <= k < |voices| :: VoiceOk(sounds, voices[k])
  }

  ghost function HeardAll(sounds: seq<Sound>, voices: seq<Voice>): (r: seq<Heard>)
    requires VoicesOk(sounds, voices)
    ensures |r| == |voices|
  {
    seq(|voices|, k requires 0 <= k < |voices| => HeardOf(sounds, voices[k]))
  }

  /** No two sounds have the one handle. */
  ghost predicate Distinct(sounds: seq<Sound>) {
    forall i, j | 0 <= i < j < |sounds| :: sounds[i].handle != sounds[j].handle
  }

  ghost function LibOf(sounds: seq<Sound>): map<nat, Sound>
    decreases |sounds|
  {
    if sounds == [] then map[] else
      var last := sounds[|sounds| - 1];
      LibOf(sounds[..|sounds| - 1])[last.handle := last]
  }

  lemma {:induction false} LibKeys(sounds: seq<Sound>, h: nat)
    ensures h in LibOf(sounds) <==> exists i :: 0 <= i < |sounds| && sounds[i].handle == h
    decreases |sounds|
  {
    if sounds == [] {
    } else {
      var init, n := sounds[..|sounds| - 1], |sounds| - 1;
      LibKeys(init, h);
      if h in LibOf(init) {
        var i :| 0 <= i < |init| && init[i].handle == h;
        assert sounds[i].handle == h;
      }
      if i :| 0 <= i < |sounds| && sounds[i].handle == h {
        if i < n { assert init[i].handle == h; }
      }
    }
  }

  lemma {:induction false} LibHolds(sounds: seq<Sound>, i: nat)
    requires Distinct(sounds) && i < |sounds|
    ensures sounds[i].handle in LibOf(sounds) && LibOf(sounds)[sounds[i].handle] == sounds[i]
    decreases |sounds|
  {
    var init := sounds[..|sounds| - 1];
    if i < |sounds| - 1 {
      assert init[i] == sounds[i];
      LibHolds(init, i);
    }
  }

  /** Two tables with the same sounds in them, in whatever order, are one map. */
  lemma SameLib(a: seq<Sound>, lib: map<nat, Sound>)
    requires Distinct(a)
    requires forall i | 0 <= i < |a| :: a[i].handle in lib && lib[a[i].handle] == a[i]
    requires forall h | h in lib :: exists i :: 0 <= i < |a| && a[i].handle == h
    ensures LibOf(a) == lib
  {
    forall h ensures h in LibOf(a) <==> h in lib { LibKeys(a, h); }
    forall h | h in lib ensures LibOf(a)[h] == lib[h] {
      var i :| 0 <= i < |a| && a[i].handle == h;
      LibHolds(a, i);
    }
  }

  /** Where `mixer_find` finds a handle: the first place that has it. */
  ghost predicate FoundAt(sounds: seq<Sound>, handle: nat, at: Option<nat>) {
    match at
    case None => forall k | 0 <= k < |sounds| :: sounds[k].handle != handle
    case Some(i) => i < |sounds| && sounds[i].handle == handle && forall k | 0 <= k < i :: sounds[k].handle != handle
  }

  /** When handles have gone round, one that is still held may be given again. */
  lemma HandleCollides(samples: seq<real>, more: seq<real>)
    ensures var held, next := [Sound(0x1000, samples, 0)], (0x1000 + HANDLES) % HANDLES;
            Distinct(held) && next in LibOf(held) && !Distinct(held + [Sound(next, more, 0)])
  {
    var held := [Sound(0x1000, samples, 0)];
    AddedLib(held, Sound(0x1000, more, 0));
    LibKeys(held, 0x1000);
    assert held[0].handle == 0x1000;
  }

  function Swapped(sounds: seq<Sound>, i: nat): (r: seq<Sound>)
    requires i < |sounds|
    ensures |r| == |sounds| - 1
  {
    sounds[i := sounds[|sounds| - 1]][..|sounds| - 1]
  }

  /** The last put over one sound takes just that one away. */
  lemma SwappedLib(sounds: seq<Sound>, i: nat)
    requires Distinct(sounds) && i < |sounds|
    ensures Distinct(Swapped(sounds, i))
    ensures LibOf(Swapped(sounds, i)) == LibOf(sounds) - {sounds[i].handle}
  {
    var now, lib := Swapped(sounds, i), LibOf(sounds) - {sounds[i].handle};
    forall k | 0 <= k < |now| ensures now[k].handle in lib && lib[now[k].handle] == now[k] {
      LibHolds(sounds, if k == i then |sounds| - 1 else k);
    }
    forall h | h in lib ensures exists k :: 0 <= k < |now| && now[k].handle == h {
      LibKeys(sounds, h);
      var k :| 0 <= k < |sounds| && sounds[k].handle == h;
      assert now[if k == |sounds| - 1 then i else k].handle == h;
    }
    SameLib(now, lib);
  }

  /** A table stays one of distinct handles just when the handle added is not held. */
  lemma AddedLib(sounds: seq<Sound>, sound: Sound)
    ensures LibOf(sounds + [sound]) == LibOf(sounds)[sound.handle := sound]
    ensures Distinct(sounds + [sound]) <==> Distinct(sounds) && sound.handle !in LibOf(sounds)
  {
    var now := sounds + [sound];
    assert now[..|sounds|] == sounds;
    LibKeys(sounds, sound.handle);
    if Distinct(now) {
      forall i, j | 0 <= i < j < |sounds| ensures sounds[i].handle != sounds[j].handle {
        assert now[i].handle != now[j].handle;
      }
      forall i | 0 <= i < |sounds| ensures sounds[i].handle != sound.handle {
        assert now[i].handle != now[|sounds|].handle;
      }
    }
  }

  /** Till handles have gone round, those held are under the next. */
  ghost predicate Under(sounds: seq<Sound>, next: nat) {
    forall i | 0 <= i < |sounds| :: sounds[i].handle < next
  }

  lemma UnderIsNew(sounds: seq<Sound>, next: nat)
    requires Under(sounds, next)
    ensures next !in LibOf(sounds)
  {
    LibKeys(sounds, next);
  }

  lemma AddedUnder(sounds: seq<Sound>, sound: Sound)
    ensures Distinct(sounds) && Under(sounds, sound.handle) ==>
              Distinct(sounds + [sound]) && Under(sounds + [sound], sound.handle + 1)
  {
  }

  lemma AddedHeard(sounds: seq<Sound>, sound: Sound, voices: seq<Voice>)
    requires Ok(Mix(sounds, voices, 0.0)) && SoundOk(sound) && VoicesOk(sounds, voices)
    ensures Ok(Mix(sounds + [sound], voices, 0.0)) && VoicesOk(sounds + [sound], voices)
    ensures HeardAll(sounds + [sound], voices) == HeardAll(sounds, voices)
  {
    forall k | 0 <= k < |voices| ensures VoiceOk(sounds + [sound], voices[k]) {
      assert VoiceOk(sounds, voices[k]);
    }
  }

  // ----- a voice for a sound, and its pan -----

  /** The first voice that is free, or with none free the first of those that started first. */
  ghost predicate IsPick(voices: seq<Voice>, k: int) {
    && 0 <= k < |voices|
    && if voices[k].sfx.None? then forall j | 0 <= j < k :: voices[j].sfx.Some?
       else
         && (forall j | 0 <= j < |voices| :: voices[j].sfx.Some? && voices[k].started <= voices[j].started)
         && (forall j | 0 <= j < k :: voices[k].started < voices[j].started)
  }

  lemma OnePick(voices: seq<Voice>, j: int, k: int)
    requires IsPick(voices, j) && IsPick(voices, k)
    ensures j == k
  {
  }

  function Clamp(pan: int): int {
    if pan < -255 then -255 else if pan > 255 then 255 else pan
  }

  function PanLeft(pan: int): real {
    (if Clamp(pan) > 0 then 255 - Clamp(pan) else 255) as real / 255.0
  }

  function PanRight(pan: int): real {
    (if Clamp(pan) < 0 then 255 + Clamp(pan) else 255) as real / 255.0
  }

  /** A pan turns one side down, and the other not; the far ends turn it off. */
  lemma PanSides(pan: int)
    ensures 0.0 <= PanLeft(pan) <= 1.0 && 0.0 <= PanRight(pan) <= 1.0
    ensures (pan <= 0 ==> PanLeft(pan) == 1.0) && (pan >= 0 ==> PanRight(pan) == 1.0)
    ensures (PanLeft(pan) == 0.0 <==> pan >= 255) && (PanRight(pan) == 0.0 <==> pan <= -255)
    ensures PanLeft(-pan) == PanRight(pan)
    ensures 0 <= pan <= 255 ==> PanLeft(pan) * 255.0 == (255 - pan) as real
  {
  }

  /** What a pause, a resume or a stop makes of a voice. */
  function Turned(heard: Heard, handle: nat, state: int): Heard {
    if heard.Silent? || heard.handle != handle then heard
    else if state == -1 then Silent
    else heard.(paused := state == 1)
  }

  function TurnedVoice(v: Voice, sfx: Option<nat>, state: int): Voice {
    if v.sfx != sfx then v
    else if state == -1 then v.(sfx := None)
    else v.(paused := state == 1)
  }

  function Repointed(v: Voice, i: nat, last: nat): Voice {
    if v.sfx == Some(i) then v.(sfx := None)
    else if v.sfx == Some(last) then v.(sfx := Some(i))
    else v
  }

  /** A voice on the sound that goes is silent, and any other plays on as it did, the same sound at
      the same position, wherever that sound now is. */
  lemma RepointedHeard(sounds: seq<Sound>, v: Voice, i: nat)
    requires i < |sounds| && VoiceOk(sounds, v)
    ensures VoiceOk(Swapped(sounds, i), Repointed(v, i, |sounds| - 1))
    ensures HeardOf(Swapped(sounds, i), Repointed(v, i, |sounds| - 1)) ==
            if v.sfx == Some(i) then Silent else HeardOf(sounds, v)
    ensures Distinct(sounds) ==>
              HeardOf(Swapped(sounds, i), Repointed(v, i, |sounds| - 1)) ==
              Turned(HeardOf(sounds, v), sounds[i].handle, -1)
  {
  }

  /** A handle that no sound has is that of no voice. */
  lemma NoneHeard(sounds: seq<Sound>, voices: seq<Voice>, handle: nat, state: int)
    requires VoicesOk(sounds, voices) && FoundAt(sounds, handle, None)
    ensures forall k | 0 <= k < |voices| :: HeardAll(sounds, voices)[k] == Turned(HeardAll(sounds, voices)[k], handle, state)
    ensures LibOf(sounds) == LibOf(sounds) - {handle}
  {
    LibKeys(sounds, handle);
    forall k | 0 <= k < |voices|
      ensures HeardOf(sounds, voices[k]) == Turned(HeardOf(sounds, voices[k]), handle, state)
    {
      TurnedHeard(sounds, voices[k], handle, None, state);
    }
  }

  lemma RepointedAll(sounds: seq<Sound>, before: seq<Voice>, voices: seq<Voice>, i: nat)
    requires i < |sounds| && VoicesOk(sounds, before) && |voices| == |before|
    requires forall k | 0 <= k < |voices| :: voices[k] == Repointed(before[k], i, |sounds| - 1)
    ensures VoicesOk(Swapped(sounds, i), voices)
    ensures forall k | 0 <= k < |voices| :: HeardAll(Swapped(sounds, i), voices)[k] ==
              if before[k].sfx == Some(i) then Silent else HeardAll(sounds, before)[k]
    ensures Distinct(sounds) ==> forall k | 0 <= k < |voices| ::
              HeardAll(Swapped(sounds, i), voices)[k] == Turned(HeardAll(sounds, before)[k], sounds[i].handle, -1)
  {
    hide VoiceOk, Repointed, HeardOf, Swapped, Turned, Distinct;
    forall k | 0 <= k < |voices|
      ensures VoiceOk(Swapped(sounds, i), voices[k])
      ensures HeardOf(Swapped(sounds, i), voices[k]) == if before[k].sfx == Some(i) then Silent else HeardOf(sounds, before[k])
      ensures Distinct(sounds) ==> HeardOf(Swapped(sounds, i), voices[k]) == Turned(HeardOf(sounds, before[k]), sounds[i].handle, -1)
    {
      RepointedHeard(sounds, before[k], i);
    }
  }

  lemma SwappedUnder(sounds: seq<Sound>, i: nat, next: nat)
    requires i < |sounds|
    ensures Under(sounds, next) ==> Under(Swapped(sounds, i), next)
  {
  }

  lemma TurnedHeard(sounds: seq<Sound>, v: Voice, handle: nat, at: Option<nat>, state: int)
    requires VoiceOk(sounds, v) && FoundAt(sounds, handle, at)
    ensures at.Some? ==> VoiceOk(sounds, TurnedVoice(v, at, state))
    ensures Distinct(sounds) && at.Some? ==>
              && HeardOf(sounds, TurnedVoice(v, at, state)) == Turned(HeardOf(sounds, v), handle, state)
              && (v.sfx == at <==> HeardOf(sounds, v).Playing? && HeardOf(sounds, v).handle == handle)
    ensures at.None? ==> HeardOf(sounds, v) == Turned(HeardOf(sounds, v), handle, state)
  {
  }

  lemma SwappedOk(sounds: seq<Sound>, i: nat)
    requires i < |sounds| && forall sound | sound in sounds :: SoundOk(sound)
    ensures forall sound | sound in Swapped(sounds, i) :: SoundOk(sound)
  {
    forall sound | sound in Swapped(sounds, i) ensures sound in sounds {
      var k :| 0 <= k < |sounds| - 1 && Swapped(sounds, i)[k] == sound;
      assert sound == sounds[if k == i then |sounds| - 1 else k];
    }
  }

  // ----- a mix, left and right by turns -----

  function Ear(j: nat, left: real, right: real): real {
    if j % 2 == 0 then left else right
  }

  lemma Ears(i: nat, left: real, right: real)
    ensures Ear(i * 2, left, right) == left && Ear(i * 2 + 1, left, right) == right
  {
  }

  /** What a voice adds to place `j` of a mix. */
  ghost function AddsAt(sounds: seq<Sound>, v: Voice, j: nat): real
    requires VoiceOk(sounds, v) && (forall sound | sound in sounds :: SoundOk(sound))
  {
    Adds(sounds, v, j / 2, j % 2)
  }

  lemma AddsHere(sounds: seq<Sound>, v: Voice, j: nat)
    requires VoiceOk(sounds, v) && (forall sound | sound in sounds :: SoundOk(sound))
    requires Sounds(v) && j < 2 * Left(sounds, v)
    ensures SoundOk(sounds[v.sfx.value])
    ensures AddsAt(sounds, v, j) == Times(sounds[v.sfx.value].samples[2 * v.position + j], Ear(j, v.left, v.right))
  {
    assert SoundOk(sounds[v.sfx.value]);
    assert 2 * (v.position + j / 2) + j % 2 == 2 * v.position + j;
  }

  lemma AddsNone(sounds: seq<Sound>, v: Voice, j: nat)
    requires VoiceOk(sounds, v) && (forall sound | sound in sounds :: SoundOk(sound))
    requires Sounds(v) ==> 2 * Left(sounds, v) <= j
    ensures AddsAt(sounds, v, j) == 0.0
  {
  }

  /** `count` frames of a sound, each side by its gain, laid over a mix. */
  method Lay(mix: array<real>, samples: seq<real>, at: nat, count: nat, left: real, right: real)
    requires 2 * count <= mix.Length && 2 * (at + count) <= |samples|
    modifies mix
    ensures forall j | 2 * count <= j < mix.Length :: mix[j] == old(mix[j])
    ensures forall j | 0 <= j < 2 * count :: mix[j] == old(mix[j]) + Times(samples[2 * at + j], Ear(j, left, right))
  {
    hide Ear;
    var i := 0;
    while i < count
      invariant 0 <= i <= count
      invariant forall j | 0 <= j < 2 * i :: mix[j] == old(mix[j]) + Times(samples[2 * at + j], Ear(j, left, right))
      invariant forall j | 2 * i <= j < mix.Length :: mix[j] == old(mix[j])
    {
      Ears(i, left, right);
      mix[i * 2] := mix[i * 2] + Times(samples[2 * at + i * 2], left);
      mix[i * 2 + 1] := mix[i * 2 + 1] + Times(samples[2 * at + i * 2 + 1], right);
      i := i + 1;
    }
  }

  ghost function RawAt(s: Mix, j: nat): real
    requires Ok(s)
  {
    Raw(s, j / 2, j % 2)
  }

  ghost function OutAt(e: real -> real, s: Mix, j: nat): real
    requires Ok(s)
  {
    Out(e, s, j / 2, j % 2)
  }

  ghost function SumAt(s: Mix, k: nat, j: nat): real
    requires Ok(s) && k <= |s.voices|
  {
    assert Ok(Mix(s.sounds, s.voices, 0.0));
    Sum(s.sounds, s.voices, k, j / 2, j % 2)
  }

  ghost function AfterOf(s: Mix, k: int, n: nat): Voice
    requires Ok(s) && 0 <= k < |s.voices|
  {
    assert VoiceOk(s.sounds, s.voices[k]);
    After(s.sounds, s.voices[k], n)
  }

  lemma SumNone(s: Mix, j: nat)
    requires Ok(s)
    ensures SumAt(s, 0, j) == 0.0
  {
  }

  lemma SumOn(s: Mix, k: nat, j: nat)
    requires Ok(s) && k < |s.voices|
    ensures VoiceOk(s.sounds, s.voices[k])
    ensures SumAt(s, k + 1, j) == SumAt(s, k, j) + AddsAt(s.sounds, s.voices[k], j)
  {
    assert VoiceOk(s.sounds, s.voices[k]);
  }

  lemma SumAll(s: Mix, j: nat)
    requires Ok(s)
    ensures SumAt(s, |s.voices|, j) == RawAt(s, j)
  {
  }

  lemma Sides(e: real -> real, s: Mix, i: nat)
    requires Ok(s)
    ensures RawAt(s, i * 2) == Raw(s, i, 0) && RawAt(s, i * 2 + 1) == Raw(s, i, 1)
    ensures OutAt(e, s, i * 2) == Times(Raw(s, i, 0), GainAt(e, s, i + 1))
    ensures OutAt(e, s, i * 2 + 1) == Times(Raw(s, i, 1), GainAt(e, s, i + 1))
    ensures GainAt(e, s, i + 1) == Limit(e, GainAt(e, s, i), Peak(Raw(s, i, 0), Raw(s, i, 1)))
  {
    hide Raw, Times, Limit;
    assert i * 2 / 2 == i && i * 2 % 2 == 0 && (i * 2 + 1) / 2 == i && (i * 2 + 1) % 2 == 1;
  }

  lemma StartGain(e: real -> real, s: Mix)
    requires Ok(s)
    ensures GainAt(e, s, 0) == s.gain
  {
  }

  lemma AllSides(e: real -> real, s: Mix, n: nat, mix: seq<real>)
    requires Ok(s) && |mix| == 2 * n
    requires forall j: nat | j < 2 * n :: mix[j] == OutAt(e, s, j)
    ensures mix == Samples(e, s, n)
  {
    hide Out;
  }

  lemma VoicesGoOn(e: real -> real, s: Mix, n: nat)
    requires Ok(s)
    ensures forall k | 0 <= k < |s.voices| && s.voices[k].paused ::
              Mixed(e, s, n).voices[k] == s.voices[k] && Samples(e, s, n) == Samples(e, Silenced(s, k), n)
    ensures forall k | 0 <= k < |s.voices| && s.voices[k].sfx.Some? && !s.voices[k].paused ::
              VoiceOk(s.sounds, s.voices[k]) && WentOn(s.sounds, s.voices[k], Mixed(e, s, n).voices[k], n)
  {
    hide Mixed, Samples, Silenced, WentOn, VoiceOk;
    forall k | 0 <= k < |s.voices| && s.voices[k].paused
      ensures Mixed(e, s, n).voices[k] == s.voices[k] && Samples(e, s, n) == Samples(e, Silenced(s, k), n)
    {
      PausedIsKept(e, s, k, n);
    }
    forall k | 0 <= k < |s.voices| && s.voices[k].sfx.Some? && !s.voices[k].paused
      ensures VoiceOk(s.sounds, s.voices[k]) && WentOn(s.sounds, s.voices[k], Mixed(e, s, n).voices[k], n)
    {
      PlaysOn(e, s, k, n);
    }
  }

  // ----- the mixer -----

  class Board {
    const sounds: array<Sound>
    const voices: array<Voice>
    const expf: real -> real
    var count: nat
    var nextHandle: nat
    var playCount: nat
    var gain: real

    ghost predicate Valid()
      reads this, sounds, voices
    {
      && sounds.Length == MAX_SFX && voices.Length == MAX_VOICES
      && count <= MAX_SFX && nextHandle < HANDLES
      && Ok(Mix(sounds[..count], voices[..], gain))
    }

    ghost function State(): Mix
      reads this, sounds, voices
      requires Valid()
    {
      Mix(sounds[..count], voices[..], gain)
    }

    ghost function Packed(): seq<Sound>
      reads this, sounds
      requires count <= sounds.Length
    {
      sounds[..count]
    }

    ghost function Lib(): map<nat, Sound>
      reads this, sounds
      requires count <= sounds.Length
    {
      LibOf(sounds[..count])
    }

    ghost function HeardNow(): seq<Heard>
      reads this, sounds, voices
      requires Valid()
    {
      HeardAll(sounds[..count], voices[..])
    }

    /** Handles are distinct, and those to come will be, for as long as they have not gone
        round. */
    ghost predicate Young()
      reads this, sounds
      requires count <= sounds.Length
    {
      Distinct(Packed()) && Under(Packed(), nextHandle)
    }

    constructor (expf: real -> real)
      ensures Valid() && fresh(sounds) && fresh(voices) && this.expf == expf
      ensures Young() && Packed() == [] && Lib() == map[] && gain == 1.0 && nextHandle == 0x1000
      ensures HeardNow() == seq(MAX_VOICES, _ => Silent)
    {
      this.expf := expf;
      sounds := new Sound[MAX_SFX](_ => Sound(0, [], 0));
      voices := new Voice[MAX_VOICES](_ => Voice(None, 0, 0.0, 0.0, false, 0));
      count, nextHandle, playCount, gain := 0, 0x1000, 0, 1.0;
      new;
      assert forall k | 0 <= k < MAX_VOICES :: voices[k].sfx.None?;
    }

    /** `mixer_find`. */
    method Find(handle: nat) returns (r: Option<nat>)
      requires Valid()
      ensures FoundAt(Packed(), handle, r) && (r.None? <==> handle !in Lib())
    {
      var i := 0;
      while i < count
        invariant i <= count
        invariant forall k | 0 <= k < i :: sounds[k].handle != handle
      {
        if sounds[i].handle == handle {
          LibKeys(sounds[..count], handle);
          assert sounds[..count][i].handle == handle;
          return Some(i);
        }
        i := i + 1;
      }
      LibKeys(sounds[..count], handle);
      return None;
    }

    /** `mixer_add`. Full, it gives 0 and changes nothing. Handles go round at 2^32. */
    method Add(samples: seq<real>, frames: nat) returns (handle: nat)
      requires Valid() && 2 * frames <= |samples|
      modifies this, sounds
      ensures Valid() && HeardNow() == old(HeardNow()) && gain == old(gain) && playCount == old(playCount)
      ensures old(count) == MAX_SFX ==> handle == 0 && Lib() == old(Lib()) && nextHandle == old(nextHandle)
      ensures old(count) < MAX_SFX ==>
                && handle == old(nextHandle) && nextHandle == (handle + 1) % HANDLES
                && Lib() == old(Lib())[handle := Sound(handle, samples, frames)]
      ensures Distinct(Packed()) <==>
              old(Distinct(Packed())) && (old(count) == MAX_SFX || old(nextHandle) !in old(Lib()))
      ensures old(Young()) && old(nextHandle) + 1 < HANDLES ==> Young()
    {
      hide Distinct, Under, VoiceOk, SoundOk, HeardAll, LibOf, FoundAt;
      if count >= MAX_SFX { return 0; }
      handle := nextHandle;
      nextHandle := (nextHandle + 1) % HANDLES;
      ghost var was := sounds[..count];
      var sound := Sound(handle, samples, frames);
      sounds[count] := sound;
      count := count + 1;
      assert sounds[..count] == was + [sound];
      AddedLib(was, sound);
      AddedUnder(was, sound);
      AddedHeard(was, sound, voices[..]);
    }

    method PickVoice() returns (voice: nat)
      requires Valid()
      ensures IsPick(voices[..], voice) && forall k | IsPick(voices[..], k) :: k == voice
    {
      voice := 0;
      var v := 0;
      while v < MAX_VOICES
        invariant 0 <= v <= MAX_VOICES && voice < MAX_VOICES
        invariant voice < v || (voice == 0 && v == 0)
        invariant forall j | 0 <= j < v :: voices[j].sfx.Some? && voices[voice].started <= voices[j].started
        invariant forall j | 0 <= j < voice :: voices[voice].started < voices[j].started
      {
        if voices[v].sfx.None? {
          forall k | IsPick(voices[..], k) ensures k == v { OnePick(voices[..], v, k); }
          return v;
        }
        if voices[v].started < voices[voice].started { voice := v; }
        v := v + 1;
      }
      forall k | IsPick(voices[..], k) ensures k == voice { OnePick(voices[..], voice, k); }
    }

    /** `mixer_play`. */
    method Play(handle: nat, pan: int) returns (r: int)
      requires Valid()
      modifies this`playCount, voices
      ensures Valid()
      ensures r == if handle in Lib() then 0 else -1
      ensures r == -1 ==> HeardNow() == old(HeardNow()) && playCount == old(playCount)
      ensures r == 0 ==>
                && playCount == old(playCount) + 1
                && exists k :: IsPick(old(voices[..]), k) &&
                     HeardNow() == old(HeardNow())[k := Playing(handle, 0, PanLeft(pan), PanRight(pan), false, playCount)]
    {
      var sfx := Find(handle);
      if sfx.None? { return -1; }
      var voice := PickVoice();
      playCount := playCount + 1;
      voices[voice] := Voice(sfx, 0, PanLeft(pan), PanRight(pan), false, playCount);
      assert forall k | 0 <= k < MAX_VOICES && k != voice :: VoiceOk(sounds[..count], old(voices[..])[k]);
      assert HeardNow() == old(HeardNow())[voice := Playing(handle, 0, PanLeft(pan), PanRight(pan), false, playCount)];
      return 0;
    }

    /** `mixer_change`: all the voices that play the sound that is found, and no other. With handles
        distinct, those that play the handle. */
    method Change(handle: nat, state: int) returns (r: int)
      requires Valid()
      modifies voices
      ensures Valid() && (r == -1 <==> handle !in Lib())
      ensures exists at: Option<nat> :: FoundAt(Packed(), handle, at) &&
                (at.None? ==> voices[..] == old(voices[..])) &&
                (at.Some? ==>
                   && (r == 0 <==> exists k :: 0 <= k < MAX_VOICES && old(voices[..])[k].sfx == at)
                   && forall k | 0 <= k < MAX_VOICES :: voices[..][k] == TurnedVoice(old(voices[..])[k], at, state))
      ensures Distinct(Packed()) ==>
                && r == (if handle !in Lib() then -1
                         else if exists k :: 0 <= k < MAX_VOICES && old(HeardNow())[k].Playing? && old(HeardNow())[k].handle == handle then 0
                         else -2)
                && forall k | 0 <= k < MAX_VOICES :: HeardNow()[k] == Turned(old(HeardNow())[k], handle, state)
      ensures Distinct(Packed()) ==> forall k | 0 <= k < MAX_VOICES ::
                var was, now := old(HeardNow())[k], HeardNow()[k];
                && (was.Playing? && was.handle == handle && state == 1 ==> now == was.(paused := true))
                && (was.Playing? && was.handle == handle && state == 0 ==> now == was.(paused := false))
                && (was.Playing? && was.handle == handle && state == -1 ==> now.Silent?)
                && (!(was.Playing? && was.handle == handle) ==> now == was)
    {
      var sfx := Find(handle);
      ghost var was := voices[..];
      forall k | 0 <= k < MAX_VOICES ensures VoiceOk(sounds[..count], was[k]) {}
      if sfx.None? {
        NoneHeard(sounds[..count], was, handle, state);
        return -1;
      }
      r := -2;
      var v := 0;
      while v < MAX_VOICES
        invariant 0 <= v <= MAX_VOICES
        invariant forall k | v <= k < MAX_VOICES :: voices[k] == was[k]
        invariant forall k | 0 <= k < v :: voices[k] == TurnedVoice(was[k], sfx, state)
        invariant r == 0 || r == -2
        invariant r == 0 <==> exists k :: 0 <= k < v && was[k].sfx == sfx
      {
        if voices[v].sfx == sfx {
          r := 0;
          if state == -1 { voices[v] := voices[v].(sfx := None); }
          else { voices[v] := voices[v].(paused := state == 1); }
        }
        v := v + 1;
      }
      forall k | 0 <= k < MAX_VOICES
        ensures VoiceOk(sounds[..count], voices[..][k])
        ensures Distinct(Packed()) ==>
                  && HeardOf(sounds[..count], voices[..][k]) == Turned(old(HeardNow())[k], handle, state)
                  && (was[k].sfx == sfx <==> old(HeardNow())[k].Playing? && old(HeardNow())[k].handle == handle)
      {
        TurnedHeard(sounds[..count], was[k], handle, sfx, state);
      }
    }

    /** What points at the sound that goes points at nothing, and what points at the last at where it
        is to be put. */
    method Repoint(i: nat)
      requires i < count && voices.Length == MAX_VOICES
      modifies voices
      ensures forall k | 0 <= k < MAX_VOICES :: voices[..][k] == Repointed(old(voices[..])[k], i, count - 1)
    {
      var v := 0;
      while v < MAX_VOICES
        invariant 0 <= v <= MAX_VOICES
        invariant forall k | v <= k < MAX_VOICES :: voices[k] == old(voices[k])
        invariant forall k | 0 <= k < v :: voices[k] == Repointed(old(voices[k]), i, count - 1)
      {
        if voices[v].sfx == Some(i) { voices[v] := voices[v].(sfx := None); }
        else if voices[v].sfx == Some(count - 1) { voices[v] := voices[v].(sfx := Some(i)); }
        v := v + 1;
      }
    }

    /** `mixer_remove`: the voices that play the sound that is found stop, the last sound is put in
        its place, and the voices that play the last go on with it there. With handles distinct the
        map loses just that handle. */
    method Remove(handle: nat) returns (r: Option<seq<real>>)
      requires Valid()
      modifies this`count, sounds, voices
      ensures Valid() && (old(Young()) ==> Young()) && (r.None? <==> handle !in old(Lib()))
      ensures exists at: Option<nat> :: FoundAt(old(Packed()), handle, at) &&
                (at.None? ==> Packed() == old(Packed()) && HeardNow() == old(HeardNow())) &&
                (at.Some? ==>
                   && Packed() == Swapped(old(Packed()), at.value) && r == Some(old(Packed())[at.value].samples)
                   && forall k | 0 <= k < MAX_VOICES ::
                        HeardNow()[k] == if old(voices[..])[k].sfx == at then Silent else old(HeardNow())[k])
      ensures old(Distinct(Packed())) ==>
                && Distinct(Packed()) && Lib() == old(Lib()) - {handle}
                && r == (if handle in old(Lib()) then Some(old(Lib())[handle].samples) else None)
                && forall k | 0 <= k < MAX_VOICES :: HeardNow()[k] == Turned(old(HeardNow())[k], handle, -1)
    {
      hide VoiceOk, SoundOk, Distinct, LibOf, HeardOf, Turned, Repointed, Under;
      var at := Find(handle);
      ghost var was, before := sounds[..count], voices[..];
      if at.None? {
        NoneHeard(was, before, handle, -1);
        return None;
      }
      var i := at.value;
      Repoint(i);
      var samples := sounds[i].samples;
      sounds[i] := sounds[count - 1];
      count := count - 1;
      assert sounds[..count] == Swapped(was, i);
      if Distinct(was) {
        SwappedLib(was, i);
        LibHolds(was, i);
      }
      RepointedAll(was, before, voices[..], i);
      SwappedOk(was, i);
      SwappedUnder(was, i, nextHandle);
      return Some(samples);
    }

    /** `mixer_take`: everything stops, and the last sound goes. */
    method Take() returns (r: Option<seq<real>>)
      requires Valid()
      modifies this`count, voices
      ensures Valid()
      ensures forall k | 0 <= k < MAX_VOICES :: HeardNow()[k].Silent?
      ensures old(count) == 0 ==> r == None && count == 0
      ensures old(count) > 0 ==>
                && count == old(count) - 1 && Packed() == old(Packed())[..count]
                && r == Some(old(Packed())[count].samples)
      ensures old(Young()) ==> Young()
    {
      var v := 0;
      while v < MAX_VOICES
        invariant 0 <= v <= MAX_VOICES && count == old(count)
        invariant forall k | 0 <= k < v :: voices[k].sfx.None?
      {
        voices[v] := Voice(None, 0, 0.0, 0.0, false, 0);
        v := v + 1;
      }
      if count == 0 { return None; }
      count := count - 1;
      assert sounds[..count] == old(sounds[..count])[..count];
      return Some(sounds[count].samples);
    }

    /** A driver that closes: it takes till there are none, and frees what it is handed. Each
        sound's samples come once. */
    method TakeAll() returns (freed: seq<seq<real>>)
      requires Valid()
      modifies this`count, voices
      ensures Valid() && count == 0 && Lib() == map[]
      ensures |freed| == old(count)
      ensures forall i | 0 <= i < |freed| :: freed[i] == old(Packed())[|freed| - 1 - i].samples
    {
      freed := [];
      ghost var was := Packed();
      var samples := Take();
      while samples.Some?
        invariant Valid()
        invariant samples.Some? ==> count < |was| && |freed| == |was| - 1 - count && samples.value == was[count].samples
        invariant samples.None? ==> count == 0 && |freed| == |was|
        invariant Packed() == was[..count]
        invariant forall i | 0 <= i < |freed| :: freed[i] == was[|was| - 1 - i].samples
        decreases samples.Some?, count
      {
        freed := freed + [samples.value];
        samples := Take();
      }
    }

    /** One voice, added in to a mix. */
    method AddVoice(v: nat, mix: array<real>, frames: nat)
      requires Valid() && v < MAX_VOICES && 2 * frames <= mix.Length
      requires VoiceOk(Packed(), voices[..][v])
      modifies mix, voices
      ensures Valid()
      ensures voices[..] == old(voices[..])[v := After(Packed(), old(voices[..])[v], frames)]
      ensures forall j | 2 * frames <= j < mix.Length :: mix[j] == old(mix[j])
      ensures forall j | 0 <= j < 2 * frames :: mix[j] == old(mix[j]) + AddsAt(Packed(), old(voices[..])[v], j)
    {
      hide AddsAt, Ear, Times;
      ghost var table, was := Packed(), voices[..][v];
      var voice := voices[v];
      if voice.sfx.None? || voice.paused {
        forall j: nat | j < 2 * frames ensures AddsAt(table, was, j) == 0.0 { AddsNone(table, was, j); }
        assert voices[..] == old(voices[..])[v := After(table, was, frames)];
        return;
      }
      var sound := sounds[voice.sfx.value];
      assert sound in table && SoundOk(sound);
      var left := sound.frames - voice.position;
      var count := if left < frames then left else frames;
      Lay(mix, sound.samples, voice.position, count, voice.left, voice.right);
      forall j: nat | j < 2 * frames ensures mix[j] == old(mix[j]) + AddsAt(table, was, j) {
        if j < 2 * count { AddsHere(table, was, j); } else { AddsNone(table, was, j); }
      }
      voice := voice.(position := voice.position + count);
      if voice.position >= sound.frames { voice := voice.(sfx := None); }
      voices[v] := voice;
      assert voices[..] == old(voices[..])[v := After(table, was, frames)];
    }

    /** Every voice, added in to a mix that is cleared first. */
    method AddVoices(mix: array<real>, frames: nat)
      requires Valid() && 2 * frames <= mix.Length
      modifies mix, voices
      ensures Valid()
      ensures forall j | 2 * frames <= j < mix.Length :: mix[j] == old(mix[j])
      ensures forall j | 0 <= j < 2 * frames :: mix[j] == RawAt(old(State()), j)
      ensures forall k | 0 <= k < MAX_VOICES :: voices[k] == AfterOf(old(State()), k, frames)
    {
      hide Raw, Sum, After, AddsAt;
      ghost var s := State();
      var i := 0;
      while i < 2 * frames
        invariant 0 <= i <= 2 * frames && voices[..] == s.voices
        invariant forall j | 0 <= j < i :: mix[j] == 0.0
        invariant forall j | 2 * frames <= j < mix.Length :: mix[j] == old(mix[j])
      {
        mix[i] := 0.0;
        i := i + 1;
      }
      forall j: nat | j < 2 * frames ensures mix[j] == SumAt(s, 0, j) { SumNone(s, j); }
      var v := 0;
      while v < MAX_VOICES
        invariant 0 <= v <= MAX_VOICES && Valid() && Packed() == s.sounds
        invariant forall j | 2 * frames <= j < mix.Length :: mix[j] == old(mix[j])
        invariant forall j: nat | j < 2 * frames :: mix[j] == SumAt(s, v, j)
        invariant forall k | 0 <= k < v :: voices[k] == AfterOf(s, k, frames)
        invariant forall k | v <= k < MAX_VOICES :: voices[k] == s.voices[k]
      {
        assert VoiceOk(s.sounds, s.voices[v]);
        AddVoice(v, mix, frames);
        forall j: nat | j < 2 * frames ensures mix[j] == SumAt(s, v + 1, j) { SumOn(s, v, j); }
        v := v + 1;
      }
      forall j: nat | j < 2 * frames ensures mix[j] == RawAt(s, j) { SumAll(s, j); }
    }

    /** The limiter, over a mix. */
    method LimitAll(mix: array<real>, frames: nat, ghost s: Mix)
      requires Valid() && 2 * frames <= mix.Length && Ok(s) && gain == s.gain
      requires forall j: nat | j < 2 * frames :: mix[j] == RawAt(s, j)
      modifies mix, this`gain
      ensures Valid() && gain == GainAt(expf, s, frames)
      ensures forall j | 2 * frames <= j < mix.Length :: mix[j] == old(mix[j])
      ensures mix[..2 * frames] == Samples(expf, s, frames)
    {
      hide Raw, Times, GainAt, Out, OutAt, RawAt, Want;
      StartGain(expf, s);
      var i := 0;
      while i < frames
        invariant 0 <= i <= frames && gain == GainAt(expf, s, i)
        invariant forall j: nat | j < 2 * i :: mix[j] == OutAt(expf, s, j)
        invariant forall j: nat | 2 * i <= j < 2 * frames :: mix[j] == RawAt(s, j)
        invariant forall j | 2 * frames <= j < mix.Length :: mix[j] == old(mix[j])
      {
        var l, r := mix[i * 2], mix[i * 2 + 1];
        Sides(expf, s, i);
        var peak := if l < 0.0 then -l else l;
        var peak_r := if r < 0.0 then -r else r;
        if peak_r > peak { peak := peak_r; }
        var want := Want(expf, peak);
        if want < gain { gain := want; } else { gain := gain + (want - gain) * RELEASE; }
        mix[i * 2] := Times(l, gain);
        mix[i * 2 + 1] := Times(r, gain);
        i := i + 1;
      }
      AllSides(expf, s, frames, mix[..2 * frames]);
    }

    /** `mixer_mix`: the samples of the next frames, and what is left to play after them. */
    method MixInto(mix: array<real>, frames: nat)
      requires Valid() && 2 * frames <= mix.Length
      modifies mix, voices, this`gain
      ensures Valid()
      ensures mix[..2 * frames] == Samples(expf, old(State()), frames)
      ensures forall j | 2 * frames <= j < mix.Length :: mix[j] == old(mix[j])
      ensures State() == Mixed(expf, old(State()), frames)
      ensures forall k | 0 <= k < MAX_VOICES && old(voices[..])[k].paused ::
                && voices[..][k] == old(voices[..])[k]
                && mix[..2 * frames] == Samples(expf, Silenced(old(State()), k), frames)
      ensures forall k | 0 <= k < MAX_VOICES && old(voices[..])[k].sfx.Some? && !old(voices[..])[k].paused ::
                VoiceOk(Packed(), old(voices[..])[k]) && WentOn(Packed(), old(voices[..])[k], voices[..][k], frames)
    {
      hide Raw, GainAt, After;
      ghost var s := State();
      AddVoices(mix, frames);
      LimitAll(mix, frames, s);
      ghost var t := Mixed(expf, s, frames);
      forall k | 0 <= k < MAX_VOICES ensures voices[..][k] == t.voices[k] {
        assert VoiceOk(s.sounds, s.voices[k]);
      }
      assert voices[..] == t.voices;
      VoicesGoOn(expf, s, frames);
    }

    /** A device's `mix_callback`: however much it asks for, in parts of 1024 frames, is what one
        mix of it all would be. To ask for none does nothing. */
    method Feed(frames: nat) returns (fed: seq<real>)
      requires Valid()
      modifies voices, this`gain
      ensures Valid()
      ensures fed == Samples(expf, old(State()), frames)
      ensures frames > 0 ==> State() == Mixed(expf, old(State()), frames)
      ensures frames == 0 ==> State() == old(State())
    {
      hide Samples, Mixed;
      var mix := new real[CHUNK * 2];
      fed := [];
      ghost var s, done := State(), 0;
      var togo: nat := frames;
      while togo > 0
        invariant Valid() && done == frames - togo
        invariant fed == Samples(expf, s, done)
        invariant done > 0 ==> State() == Mixed(expf, s, done)
        invariant done == 0 ==> State() == s
      {
        var n := if togo < CHUNK then togo else CHUNK;
        MixInto(mix, n);
        fed := fed + mix[..2 * n];
        if done > 0 { InParts(expf, s, done, n); } else { assert fed == mix[..2 * n]; }
        togo := togo - n;
        done := done + n;
      }
    }
  }
}
