/** What the sound mixer makes of its voices, frame by frame, and its limiter
    (src/host/mixer.h:48-67, 91-121).

    Samples, gains and the limiter are over `real`: how a float rounds is not modelled. `expf`
    is any function that lies over 0, and under 1, as an exponential does for what is not over
    0; that its tangent at 0 lies under it is only needed for the gain not to pass 1. */
module Mixer {
  import opened Options

  const MAX_SFX: nat := 256
  const MAX_VOICES: nat := 32
  const KNEE: real := 0.9
  const RELEASE: real := 1.0 / (0.25 * 44100.0)

  /** Float stereo, left and right by turns. */
  datatype Sound = Sound(handle: nat, samples: seq<real>, frames: nat)

  /** `sfx` is where in the table of sounds is the one that plays. */
  datatype Voice = Voice(sfx: Option<nat>, position: int, left: real, right: real, paused: bool, started: nat)

  datatype Mix = Mix(sounds: seq<Sound>, voices: seq<Voice>, gain: real)

  predicate SoundOk(sound: Sound) {
    2 * sound.frames <= |sound.samples|
  }

  /** A voice that plays points at a sound that is there, at a place that is in it. */
  predicate VoiceOk(sounds: seq<Sound>, v: Voice) {
    v.sfx.Some? ==> v.sfx.value < |sounds| && 0 <= v.position <= sounds[v.sfx.value].frames
  }

  ghost predicate Ok(s: Mix) {
    && (forall sound | sound in s.sounds :: SoundOk(sound))
    && (forall k | 0 <= k < |s.voices| :: VoiceOk(s.sounds, s.voices[k]))
  }

  // ----- a voice -----

  /** A product by name, for what is equal to be seen to give what is equal. */
  function Times(a: real, b: real): real {
    a * b
  }

  predicate Sounds(v: Voice) {
    v.sfx.Some? && !v.paused
  }

  function Left(sounds: seq<Sound>, v: Voice): nat
    requires VoiceOk(sounds, v) && v.sfx.Some?
  {
    sounds[v.sfx.value].frames - v.position
  }

  /** What a voice adds to side `c` of the frame `i` on from now. */
  function Adds(sounds: seq<Sound>, v: Voice, i: nat, c: nat): real
    requires VoiceOk(sounds, v) && (forall sound | sound in sounds :: SoundOk(sound)) && c < 2
  {
    if Sounds(v) && i < Left(sounds, v) then
      var sound := sounds[v.sfx.value];
      assert SoundOk(sound);
      Times(sound.samples[2 * (v.position + i) + c], if c == 0 then v.left else v.right)
    else 0.0
  }

  /** A voice after `n` frames: it stops once it has come to the end of its sound. */
  function After(sounds: seq<Sound>, v: Voice, n: nat): (r: Voice)
    requires VoiceOk(sounds, v)
    ensures VoiceOk(sounds, r)
  {
    if !Sounds(v) then v
    else if Left(sounds, v) <= n then v.(position := sounds[v.sfx.value].frames, sfx := None)
    else v.(position := v.position + n)
  }

  // ----- the limiter -----

  ghost predicate IsExp(e: real -> real) {
    forall x: real | x <= 0.0 :: 0.0 < e(x) <= 1.0 && 1.0 + x <= e(x)
  }

  function Abs(x: real): real {
    if x < 0.0 then -x else x
  }

  function Peak(l: real, r: real): real {
    if Abs(r) > Abs(l) then Abs(r) else Abs(l)
  }

  /** The gain that takes a peak to where it should be. */
  function Want(e: real -> real, peak: real): real {
    if peak <= KNEE then 1.0
    else
      var room := 1.0 - KNEE;
      (KNEE + room * (1.0 - e((KNEE - peak) / room))) / peak
  }

  function Limit(e: real -> real, gain: real, peak: real): real {
    var want := Want(e, peak);
    if want < gain then want else gain + (want - gain) * RELEASE
  }

  // ----- the mix -----

  /** The first `k` voices added up. */
  function Sum(sounds: seq<Sound>, voices: seq<Voice>, k: nat, i: nat, c: nat): real
    requires Ok(Mix(sounds, voices, 0.0)) && k <= |voices| && c < 2
  {
    if k == 0 then 0.0 else
      assert VoiceOk(Mix(sounds, voices, 0.0).sounds, Mix(sounds, voices, 0.0).voices[k - 1]);
      Sum(sounds, voices, k - 1, i, c) + Adds(sounds, voices[k - 1], i, c)
  }

  function Raw(s: Mix, i: nat, c: nat): real
    requires Ok(s) && c < 2
  {
    assert Ok(Mix(s.sounds, s.voices, 0.0));
    Sum(s.sounds, s.voices, |s.voices|, i, c)
  }

  function GainAt(e: real -> real, s: Mix, n: nat): real
    requires Ok(s)
  {
    if n == 0 then s.gain else Limit(e, GainAt(e, s, n - 1), Peak(Raw(s, n - 1, 0), Raw(s, n - 1, 1)))
  }

  function Out(e: real -> real, s: Mix, i: nat, c: nat): real
    requires Ok(s) && c < 2
  {
    Times(Raw(s, i, c), GainAt(e, s, i + 1))
  }

  /** The samples of the next `n` frames. */
  function Samples(e: real -> real, s: Mix, n: nat): (r: seq<real>)
    requires Ok(s)
    ensures |r| == 2 * n
  {
    seq(2 * n, j requires 0 <= j < 2 * n => Out(e, s, j / 2, j % 2))
  }

  /** And what is left to play. */
  function Mixed(e: real -> real, s: Mix, n: nat): (r: Mix)
    requires Ok(s)
    ensures |r.voices| == |s.voices| && Ok(r)
  {
    var voices := seq(|s.voices|, k requires 0 <= k < |s.voices| =>
                        assert VoiceOk(s.sounds, s.voices[k]); After(s.sounds, s.voices[k], n));
    Mix(s.sounds, voices, GainAt(e, s, n))
  }

  // ----- a voice in the mix -----

  /** The same with one voice playing nothing. */
  function Silenced(s: Mix, k: nat): (r: Mix)
    requires Ok(s) && k < |s.voices|
    ensures Ok(r) && |r.voices| == |s.voices|
  {
    Mix(s.sounds, s.voices[k := s.voices[k].(sfx := None)], s.gain)
  }

  lemma {:induction false} SumSilenced(s: Mix, k: nat, to: nat, i: nat, c: nat)
    requires Ok(s) && k < |s.voices| && to <= |s.voices| && c < 2
    requires Ok(Mix(s.sounds, s.voices, 0.0)) && Ok(Mix(s.sounds, Silenced(s, k).voices, 0.0))
    requires VoiceOk(s.sounds, s.voices[k])
    ensures Sum(s.sounds, s.voices, to, i, c) ==
            Sum(s.sounds, Silenced(s, k).voices, to, i, c) + (if k < to then Adds(s.sounds, s.voices[k], i, c) else 0.0)
  {
    if to == 0 {
    } else {
      SumSilenced(s, k, to - 1, i, c);
    }
  }

  /** What a voice adds, by the sample it has come to. */
  lemma AddsIs(sounds: seq<Sound>, v: Voice, i: nat, c: nat)
    requires VoiceOk(sounds, v) && (forall sound | sound in sounds :: SoundOk(sound)) && c < 2
    ensures v.sfx.None? || v.paused ==> Adds(sounds, v, i, c) == 0.0
    ensures v.sfx.Some? ==> SoundOk(sounds[v.sfx.value]) && 0 <= v.position
    ensures v.sfx.Some? && !v.paused ==>
              Adds(sounds, v, i, c) ==
              if sounds[v.sfx.value].frames <= v.position + i then 0.0
              else sounds[v.sfx.value].samples[2 * (v.position + i) + c] * (if c == 0 then v.left else v.right)
  {
    if v.sfx.Some? { assert sounds[v.sfx.value] in sounds; }
  }

  /** What one voice puts in a frame of the mix: nothing if it is paused or its sound has ended, or
      else the sample it has come to, on each side by the voice's own part. */
  lemma VoiceInMix(s: Mix, k: nat, i: nat, c: nat)
    requires Ok(s) && k < |s.voices| && c < 2
    ensures VoiceOk(s.sounds, s.voices[k])
    ensures s.voices[k].sfx.None? || s.voices[k].paused ==> Raw(s, i, c) == Raw(Silenced(s, k), i, c)
    ensures s.voices[k].sfx.Some? ==> SoundOk(s.sounds[s.voices[k].sfx.value])
    ensures s.voices[k].sfx.Some? && !s.voices[k].paused ==>
              var v, sound := s.voices[k], s.sounds[s.voices[k].sfx.value];
              Raw(s, i, c) == Raw(Silenced(s, k), i, c) +
                              if sound.frames <= v.position + i then 0.0
                              else sound.samples[2 * (v.position + i) + c] * (if c == 0 then v.left else v.right)
  {
    var t := Silenced(s, k);
    assert Ok(Mix(s.sounds, s.voices, 0.0)) && Ok(Mix(t.sounds, t.voices, 0.0));
    assert VoiceOk(s.sounds, s.voices[k]);
    hide Adds, Sum, VoiceOk, Ok;
    SumSilenced(s, k, |s.voices|, i, c);
    AddsIs(s.sounds, s.voices[k], i, c);
  }

  /** With nothing playing there is nothing in it. */
  lemma {:induction false} NothingInMix(s: Mix, to: nat, i: nat, c: nat)
    requires Ok(s) && Ok(Mix(s.sounds, s.voices, 0.0)) && to <= |s.voices| && c < 2
    requires forall k | 0 <= k < |s.voices| :: s.voices[k].sfx.None? || s.voices[k].paused
    ensures Sum(s.sounds, s.voices, to, i, c) == 0.0 && (to == |s.voices| ==> Raw(s, i, c) == 0.0)
  {
    if to == 0 {
    } else {
      NothingInMix(s, to - 1, i, c);
    }
  }

  lemma {:induction false} GainSilenced(e: real -> real, s: Mix, k: nat, n: nat)
    requires Ok(s) && k < |s.voices| && s.voices[k].paused
    ensures GainAt(e, s, n) == GainAt(e, Silenced(s, k), n)
  {
    if n == 0 {
    } else {
      GainSilenced(e, s, k, n - 1);
      VoiceInMix(s, k, n - 1, 0);
      VoiceInMix(s, k, n - 1, 1);
    }
  }

  /** A voice that is paused is not heard, and is kept just as it is. */
  lemma PausedIsKept(e: real -> real, s: Mix, k: nat, n: nat)
    requires Ok(s) && k < |s.voices| && s.voices[k].paused
    ensures Mixed(e, s, n).voices[k] == s.voices[k]
    ensures Samples(e, s, n) == Samples(e, Silenced(s, k), n)
  {
    assert VoiceOk(s.sounds, s.voices[k]);
    hide Raw, GainAt, Silenced;
    forall j: nat | j < 2 * n ensures Out(e, s, j / 2, j % 2) == Out(e, Silenced(s, k), j / 2, j % 2) {
      GainSilenced(e, s, k, j / 2 + 1);
      VoiceInMix(s, k, j / 2, j % 2);
    }
  }

  /** What was playing has gone on by `n` frames, with nothing else changed, or has stopped if that
      is to the end of its sound or past it. */
  predicate WentOn(sounds: seq<Sound>, was: Voice, now: Voice, n: nat)
    requires VoiceOk(sounds, was) && was.sfx.Some?
  {
    if was.position + n < sounds[was.sfx.value].frames then now == was.(position := was.position + n)
    else now.sfx.None?
  }

  /** One that is not paused goes on by as many frames as were mixed. */
  lemma PlaysOn(e: real -> real, s: Mix, k: nat, n: nat)
    requires Ok(s) && k < |s.voices| && s.voices[k].sfx.Some? && !s.voices[k].paused
    ensures VoiceOk(s.sounds, s.voices[k]) && WentOn(s.sounds, s.voices[k], Mixed(e, s, n).voices[k], n)
  {
    assert VoiceOk(s.sounds, s.voices[k]);
  }

  // ----- in parts or at once -----

  lemma AddsInParts(sounds: seq<Sound>, v: Voice, n: nat, i: nat, c: nat)
    requires VoiceOk(sounds, v) && (forall sound | sound in sounds :: SoundOk(sound)) && c < 2
    ensures Adds(sounds, After(sounds, v, n), i, c) == Adds(sounds, v, n + i, c)
  {
  }

  lemma {:induction false} SumInParts(e: real -> real, s: Mix, n: nat, k: nat, i: nat, c: nat)
    requires Ok(s) && k <= |s.voices| && c < 2 && Ok(Mix(s.sounds, s.voices, 0.0))
    requires Ok(Mix(s.sounds, Mixed(e, s, n).voices, 0.0))
    ensures Sum(s.sounds, Mixed(e, s, n).voices, k, i, c) == Sum(s.sounds, s.voices, k, n + i, c)
  {
    if k == 0 {
    } else {
      SumInParts(e, s, n, k - 1, i, c);
      assert VoiceOk(s.sounds, s.voices[k - 1]);
      AddsInParts(s.sounds, s.voices[k - 1], n, i, c);
    }
  }

  lemma RawInParts(e: real -> real, s: Mix, n: nat, i: nat, c: nat)
    requires Ok(s) && c < 2
    ensures Raw(Mixed(e, s, n), i, c) == Raw(s, n + i, c)
  {
    var t := Mixed(e, s, n);
    assert Ok(Mix(s.sounds, s.voices, 0.0)) && Ok(Mix(t.sounds, t.voices, 0.0));
    SumInParts(e, s, n, |s.voices|, i, c);
  }

  lemma {:induction false} GainInParts(e: real -> real, s: Mix, n: nat, m: nat)
    requires Ok(s)
    ensures GainAt(e, Mixed(e, s, n), m) == GainAt(e, s, n + m)
  {
    if m == 0 {
    } else {
      GainInParts(e, s, n, m - 1);
      RawInParts(e, s, n, m - 1, 0);
      RawInParts(e, s, n, m - 1, 1);
    }
  }

  lemma SampleInParts(e: real -> real, s: Mix, n: nat, m: nat, j: nat)
    requires Ok(s) && j < 2 * m
    ensures Samples(e, Mixed(e, s, n), m)[j] == Samples(e, s, n + m)[2 * n + j]
  {
    hide Raw, GainAt, Mixed;
    assert (2 * n + j) / 2 == n + j / 2 && (2 * n + j) % 2 == j % 2;
    RawInParts(e, s, n, j / 2, j % 2);
    GainInParts(e, s, n, j / 2 + 1);
  }

  lemma MixedInParts(e: real -> real, s: Mix, n: nat, m: nat)
    requires Ok(s)
    ensures Mixed(e, Mixed(e, s, n), m) == Mixed(e, s, n + m)
  {
    var both, once := Mixed(e, Mixed(e, s, n), m), Mixed(e, s, n + m);
    GainInParts(e, s, n, m);
    hide GainAt;
    forall k | 0 <= k < |s.voices| ensures both.voices[k] == once.voices[k] {
      assert VoiceOk(s.sounds, s.voices[k]);
    }
    assert both.voices == once.voices;
  }

  /** To mix `n` frames and then `m` is to mix `n + m`: the same samples, the same voices and the
      same gain, from any state and for any parts, none of either as well. */
  lemma InParts(e: real -> real, s: Mix, n: nat, m: nat)
    requires Ok(s)
    ensures Mixed(e, Mixed(e, s, n), m) == Mixed(e, s, n + m)
    ensures Samples(e, s, n) + Samples(e, Mixed(e, s, n), m) == Samples(e, s, n + m)
  {
    MixedInParts(e, s, n, m);
    hide Out, Mixed, Ok;
    var t := Mixed(e, s, n);
    var parts, all := Samples(e, s, n) + Samples(e, t, m), Samples(e, s, n + m);
    forall j | 0 <= j < 2 * (n + m) ensures parts[j] == all[j] {
      if j >= 2 * n { SampleInParts(e, s, n, m, j - 2 * n); }
    }
  }

  /** One frame at a time, every voice in each: what a mix is meant to be. */
  function FrameByFrame(e: real -> real, s: Mix, n: nat): seq<real>
    requires Ok(s)
    decreases n
  {
    if n == 0 then []
    else
      var l, r := Raw(s, 0, 0), Raw(s, 0, 1);
      var gain := Limit(e, s.gain, Peak(l, r));
      [Times(l, gain), Times(r, gain)] + FrameByFrame(e, Mixed(e, s, 1), n - 1)
  }

  lemma FirstFrame(e: real -> real, s: Mix)
    requires Ok(s)
    ensures var gain := Limit(e, s.gain, Peak(Raw(s, 0, 0), Raw(s, 0, 1)));
            Samples(e, s, 1) == [Times(Raw(s, 0, 0), gain), Times(Raw(s, 0, 1), gain)]
  {
    hide Raw, Limit, Times;
    assert GainAt(e, s, 0) == s.gain;
  }

  lemma {:induction false} IsFrameByFrame(e: real -> real, s: Mix, n: nat)
    requires Ok(s)
    ensures Samples(e, s, n) == FrameByFrame(e, s, n)
    decreases n
  {
    if n > 0 {
      hide Samples, Mixed, Raw, Limit, Times;
      IsFrameByFrame(e, Mixed(e, s, 1), n - 1);
      InParts(e, s, 1, n - 1);
      FirstFrame(e, s);
    } else {
      assert Samples(e, s, n) == [];
    }
  }

  // ----- the bound -----

  lemma TimesLess(a: real, b: real, c: real)
    requires a <= b && 0.0 <= c
    ensures Times(a, c) <= Times(b, c)
  {
  }

  lemma Divided(top: real, peak: real, want: real)
    requires 0.0 < top <= peak && want == top / peak
    ensures 0.0 < want <= 1.0 && Times(peak, want) == top
  {
  }

  /** What is wanted of a peak brings it under full scale, and never turns it up. */
  lemma WantBounds(e: real -> real, peak: real)
    requires IsExp(e) && 0.0 <= peak
    ensures 0.0 < Want(e, peak) <= 1.0
    ensures Times(peak, Want(e, peak)) < 1.0
  {
    if peak > KNEE {
      var room := 1.0 - KNEE;
      var x := (KNEE - peak) / room;
      assert room * x == KNEE - peak;
      assert 0.0 < e(x) <= 1.0 && 1.0 + x <= e(x);
      var top := KNEE + room * (1.0 - e(x));
      Divided(top, peak, Want(e, peak));
    }
  }

  /** And for it not to turn a peak up is just what is asked of `expf` beyond lying between 0
      and 1. */
  lemma WantNeverTurnsUp(e: real -> real, peak: real)
    requires KNEE < peak
    ensures var x := (KNEE - peak) / (1.0 - KNEE);
            Want(e, peak) <= 1.0 <==> 1.0 + x <= e(x)
  {
    var room := 1.0 - KNEE;
    var x := (KNEE - peak) / room;
    assert room * x == KNEE - peak;
    var top, want := KNEE + room * (1.0 - e(x)), Want(e, peak);
    assert Times(want, peak) == top by { Quotient(top, peak, want); }
    if want <= 1.0 { TimesLess(want, 1.0, peak); }
    if top <= peak && want > 1.0 { TimesMore(want, peak); }
  }

  lemma Quotient(top: real, peak: real, want: real)
    requires 0.0 < peak && want == top / peak
    ensures Times(want, peak) == top
  {
  }

  lemma TimesMore(a: real, b: real)
    requires 1.0 < a && 0.0 < b
    ensures b < Times(a, b)
  {
  }

  lemma LimitBounds(e: real -> real, gain: real, peak: real)
    requires IsExp(e) && 0.0 <= peak && 0.0 < gain <= 1.0
    ensures 0.0 < Limit(e, gain, peak) <= Want(e, peak) <= 1.0
    ensures Times(peak, Limit(e, gain, peak)) < 1.0
  {
    WantBounds(e, peak);
    var want, now := Want(e, peak), Limit(e, gain, peak);
    TimesLess(now, want, peak);
    assert Times(now, peak) == Times(peak, now) && Times(want, peak) == Times(peak, want);
  }

  lemma OneSide(raw: real, peak: real, gain: real)
    requires -peak <= raw <= peak && 0.0 < gain && Times(peak, gain) < 1.0
    ensures -1.0 < Times(raw, gain) < 1.0
  {
    TimesLess(raw, peak, gain);
    TimesLess(-peak, raw, gain);
    assert Times(-peak, gain) == -Times(peak, gain);
  }

  lemma {:induction false} GainBounds(e: real -> real, s: Mix, n: nat)
    requires IsExp(e) && Ok(s) && 0.0 < s.gain <= 1.0
    ensures 0.0 < GainAt(e, s, n) <= 1.0
  {
    if n == 0 {
    } else {
      GainBounds(e, s, n - 1);
      LimitBounds(e, GainAt(e, s, n - 1), Peak(Raw(s, n - 1, 0), Raw(s, n - 1, 1)));
    }
  }

  lemma OutBounds(e: real -> real, s: Mix, i: nat, c: nat)
    requires IsExp(e) && Ok(s) && 0.0 < s.gain <= 1.0 && c < 2
    ensures -1.0 < Out(e, s, i, c) < 1.0
  {
    GainBounds(e, s, i);
    GainBounds(e, s, i + 1);
    var raw, peak := Raw(s, i, c), Peak(Raw(s, i, 0), Raw(s, i, 1));
    var gain := GainAt(e, s, i + 1);
    assert gain == Limit(e, GainAt(e, s, i), peak);
    hide GainAt, Raw, Limit, IsExp, Times;
    LimitBounds(e, GainAt(e, s, i), peak);
    assert c == 0 || c == 1;
    assert -peak <= raw <= peak;
    OneSide(raw, peak, gain);
  }

  /** However loud the voices are, each sample is under full scale. */
  lemma NeverClips(e: real -> real, s: Mix, n: nat, j: nat)
    requires IsExp(e) && Ok(s) && 0.0 < s.gain <= 1.0 && j < 2 * n
    ensures -1.0 < Samples(e, s, n)[j] < 1.0
    ensures 0.0 < Mixed(e, s, n).gain <= 1.0
  {
    GainBounds(e, s, n);
    OutBounds(e, s, j / 2, j % 2);
  }

  function Pow(x: real, k: nat): real {
    if k == 0 then 1.0 else x * Pow(x, k - 1)
  }

  ghost predicate Quiet(s: Mix, n: nat)
    requires Ok(s)
  {
    forall i: nat | i < n :: Peak(Raw(s, i, 0), Raw(s, i, 1)) <= KNEE
  }

  /** What the gain lacks after `n` frames of that: what it lacked, the same part of it gone with
      each. */
  function Lack(gain: real, n: nat): real {
    (1.0 - gain) * Pow(1.0 - RELEASE, n)
  }

  lemma {:induction false} LackShrinks(gain: real, n: nat)
    requires gain <= 1.0
    ensures Lack(gain, n + 1) == Lack(gain, n) * (1.0 - RELEASE)
    ensures 0.0 <= Lack(gain, n)
  {
    if n == 0 {
    } else {
      LackShrinks(gain, n - 1);
    }
  }

  /** While the mix is at or under the knee the gain comes back by the same part of what it lacks
      with each frame. */
  lemma {:induction false} GainComesBack(e: real -> real, s: Mix, n: nat)
    requires Ok(s) && s.gain <= 1.0 && Quiet(s, n)
    ensures GainAt(e, s, n) == 1.0 - Lack(s.gain, n) <= 1.0
  {
    LackShrinks(s.gain, n);
    if n == 0 {
    } else {
      GainComesBack(e, s, n - 1);
      LackShrinks(s.gain, n - 1);
      hide Lack, Raw, Peak, Limit;
    }
  }

  /** So what is never over the knee is left as it is. */
  lemma QuietIsUntouched(e: real -> real, s: Mix, n: nat, i: nat, c: nat)
    requires Ok(s) && s.gain == 1.0 && Quiet(s, n) && i < n && c < 2
    ensures Samples(e, s, n)[2 * i + c] == Raw(s, i, c)
    ensures Mixed(e, s, n).gain == 1.0
  {
    GainComesBack(e, s, n);
    GainComesBack(e, s, i + 1);
    hide GainAt, Raw;
    assert (2 * i + c) / 2 == i && (2 * i + c) % 2 == c;
  }
}
