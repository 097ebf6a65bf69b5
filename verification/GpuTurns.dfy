/** Who may draw on the GPU, and when (src/host/gui_sdl3.cpp:113-130, 343-356, 753-809).
    A fence is there or not, and `done` is the textures whose fence the GPU has signalled
    when a call looks. Times are of a clock that does not go back. */
module GpuTurns {
  import opened Options

  const FLIGHTS: nat := 32
  const FRESH: int := 3000000
  const TURN: int := 100000000

  // ----- the scheduler as a map of what is in flight -----

  /** What is in flight, and since when, who has the next turn, and since when. */
  datatype Turns<T> = Turns(flights: map<T, int>, waiting: Option<T>, since: int)

  function Landed<T>(g: Turns<T>, done: set<T>): map<T, int> {
    map t | t in g.flights && t !in done :: g.flights[t]
  }

  /** Some draw in flight has been so for long enough to hold another up. */
  predicate Stale<T>(flights: map<T, int>, now: int) {
    exists t :: t in flights && now - flights[t] > FRESH
  }

  function Expire<T>(g: Turns<T>, now: int): Option<T> {
    if g.waiting.Some? && now - g.since > TURN then None else g.waiting
  }

  /** Granted or not, and who has the next turn then, by what is in flight. */
  function Choose<T(==)>(g: Turns<T>, tex: T, now: int): (Turns<T>, bool) {
    var waiting := Expire(g, now);
    if Stale(g.flights, now) || (waiting.Some? && waiting.value != tex) || |g.flights| >= FLIGHTS then
      if waiting.None? then (g.(waiting := Some(tex), since := now), false)
      else (g.(waiting := waiting), false)
    else (g.(waiting := None), true)
  }

  /** `gpu_may_draw`. */
  function Ask<T(==)>(g: Turns<T>, tex: T, done: set<T>, now: int): (Turns<T>, bool) {
    if tex in g.flights && tex !in done then (g, false)
    else Choose(g.(flights := Landed(g, done)), tex, now)
  }

  /** `gpu_drawing`, and a fence or none. */
  function Drawing<T>(g: Turns<T>, tex: T, fence: bool, now: int): Turns<T> {
    if fence then g.(flights := g.flights[tex := now]) else g
  }

  /** A texture that is destroyed. */
  function Gone<T(==)>(g: Turns<T>, tex: T): Turns<T> {
    g.(flights := g.flights - {tex}, waiting := if g.waiting == Some(tex) then None else g.waiting)
  }

  // ----- runs -----

  /** A call to ask, and if it is granted, a draw or none; or a texture destroyed. */
  datatype Event<T> =
    | Try(tex: T, done: set<T>, now: int, draws: bool, fence: bool)
    | Destroy(tex: T)

  predicate Granted<T(==)>(g: Turns<T>, e: Event<T>) {
    e.Try? && Ask(g, e.tex, e.done, e.now).1
  }

  function After<T(==)>(g: Turns<T>, e: Event<T>): Turns<T> {
    match e
    case Try(tex, done, now, draws, fence) =>
      var (asked, granted) := Ask(g, tex, done, now);
      if granted && draws then Drawing(asked, tex, fence, now) else asked
    case Destroy(tex) => Gone(g, tex)
  }

  function Run<T(==)>(g: Turns<T>, events: seq<Event<T>>): Turns<T>
    decreases |events|
  {
    if events == [] then g else After(Run(g, events[..|events| - 1]), events[|events| - 1])
  }

  lemma {:induction false} LandedFewer<T>(a: map<T, int>, b: map<T, int>)
    requires a.Keys <= b.Keys
    ensures |a| <= |b|
    decreases |a|
  {
    Fewer(a.Keys, b.Keys);
    assert |a| == |a.Keys| && |b| == |b.Keys|;
  }

  lemma {:induction false} Fewer<T>(a: set<T>, b: set<T>)
    requires a <= b
    ensures |a| <= |b|
    decreases |a|
  {
    if a != {} {
      var x :| x in a;
      Fewer(a - {x}, b - {x});
    }
  }

  /** A grant is only of a texture with no draw in flight, when all there is in flight is fresh,
      there is room for it, and no other has the turn. And it is refused only when one of these
      is not so. */
  lemma GrantedIff<T>(g: Turns<T>, e: Event<T>)
    requires e.Try?
    ensures Granted(g, e) <==>
              && e.tex !in Landed(g, e.done)
              && (forall t | t in Landed(g, e.done) :: e.now - g.flights[t] <= FRESH)
              && |Landed(g, e.done)| < FLIGHTS
              && (Expire(g, e.now) == None || Expire(g, e.now) == Some(e.tex))
  {
    var flights := Landed(g, e.done);
    assert Stale(flights, e.now) <==> !forall t | t in flights :: e.now - g.flights[t] <= FRESH;
  }

  lemma RoomStill<T>(g: Turns<T>, e: Event<T>)
    requires |g.flights| <= FLIGHTS
    ensures |After(g, e).flights| <= FLIGHTS
  {
    match e
    case Try(tex, done, now, draws, fence) =>
      LandedFewer(Landed(g, done), g.flights);
      if Granted(g, e) {
        GrantedIff(g, e);
        var more := Landed(g, done)[tex := now];
        assert more.Keys == Landed(g, done).Keys + {tex};
      }
    case Destroy(tex) => LandedFewer(g.flights - {tex}, g.flights);
  }

  /** There are never more in flight than there is room for. */
  lemma {:induction false} RoomForAll<T>(g: Turns<T>, events: seq<Event<T>>)
    requires |g.flights| <= FLIGHTS
    ensures |Run(g, events).flights| <= FLIGHTS
    decreases |events|
  {
    hide After;
    if events == [] {
    } else {
      RoomForAll(g, events[..|events| - 1]);
      RoomStill(Run(g, events[..|events| - 1]), events[|events| - 1]);
    }
  }

  /** The turn of `w` is not ended by this. */
  predicate Spares<T(==)>(g: Turns<T>, w: T, since: int, e: Event<T>) {
    match e
    case Try(tex, _, now, _, _) => now - since <= TURN && (tex == w ==> !Granted(g, e))
    case Destroy(tex) => tex != w
  }

  predicate SparesAll<T(==)>(g: Turns<T>, w: T, since: int, events: seq<Event<T>>)
    decreases |events|
  {
    events == [] || (SparesAll(g, w, since, events[..|events| - 1])
                     && Spares(Run(g, events[..|events| - 1]), w, since, events[|events| - 1]))
  }

  lemma Spared<T>(g: Turns<T>, w: T, e: Event<T>)
    requires g.waiting == Some(w) && Spares(g, w, g.since, e)
    ensures After(g, e).waiting == Some(w) && After(g, e).since == g.since && !Granted(g, e)
  {
  }

  /** A texture that has the turn keeps it, and no other is granted, till it is granted itself, is
      destroyed, or the turn is over. */
  lemma {:induction false} TurnIsKept<T>(g: Turns<T>, w: T, events: seq<Event<T>>)
    requires g.waiting == Some(w) && SparesAll(g, w, g.since, events)
    ensures Run(g, events).waiting == Some(w) && Run(g, events).since == g.since
    ensures forall i | 0 <= i < |events| :: !Granted(Run(g, events[..i]), events[i])
    decreases |events|
  {
    hide Granted, After, Spares;
    if events == [] {
    } else {
      var less := events[..|events| - 1];
      TurnIsKept(g, w, less);
      Spared(Run(g, less), w, events[|events| - 1]);
      forall i | 0 <= i < |events| ensures !Granted(Run(g, events[..i]), events[i]) {
        if i < |less| { assert less[..i] == events[..i] && less[i] == events[i]; }
      }
    }
  }

  // ----- the code -----

  class Texture {
    var fence: bool
    var drawnAt: int

    constructor ()
      ensures !fence
    {
      fence, drawnAt := false, 0;
    }
  }

  class Gpu {
    var flights: array<Texture?>
    var num: nat
    var waiting: Texture?
    var waitingSince: int
    ghost var textures: set<Texture>

    /** A driver that begins, with no textures. */
    constructor ()
      ensures Valid() && textures == {} && Model() == Turns(map[], None, 0)
    {
      flights := new Texture?[FLIGHTS](_ => null);
      num, waiting, waitingSince, textures := 0, null, 0, {};
    }

    /** A texture that is made has no draw in flight. */
    method NewTexture() returns (tex: Texture)
      requires Valid()
      modifies this`textures
      ensures Valid() && fresh(tex) && textures == old(textures) + {tex} && Model() == old(Model())
    {
      tex := new Texture();
      textures := textures + {tex};
      assert InFlight() == old(InFlight());
    }

    ghost predicate Distinct()
      reads this`flights, this`num, flights
    {
      && flights.Length == FLIGHTS && num <= FLIGHTS
      && (forall i, j | 0 <= i < j < num :: flights[i] != flights[j])
    }

    /** The flights are distinct, and are the textures that have a fence. */
    ghost predicate Valid()
      reads this`flights, this`num, this`textures, flights, textures
    {
      && Distinct()
      && (forall i | 0 <= i < num :: flights[i] != null && flights[i] in textures && flights[i].fence)
      && (forall t | t in textures && t.fence :: t in flights[..num])
    }

    ghost function InFlight(): map<Texture, int>
      reads this`textures, textures
    {
      map t | t in textures && t.fence :: t.drawnAt
    }

    ghost function HasTurn(): Option<Texture>
      reads this`waiting
    {
      if waiting == null then None else Some(waiting)
    }

    ghost function Model(): Turns<Texture>
      reads this`textures, this`waiting, this`waitingSince, textures
    {
      Turns(InFlight(), HasTurn(), waitingSince)
    }

    /** Takes a flight out by putting the last in its place, `gpu_flights[i--] = gpu_flights[--n]`. */
    method Drop(i: nat)
      requires Distinct() && i < num
      modifies this`num, flights
      ensures Distinct() && num == old(num) - 1
      ensures forall j | 0 <= j < i :: flights[j] == old(flights[j])
      ensures forall t :: t in flights[..num] <==> t in old(flights[..num]) && t != old(flights[i])
    {
      num := num - 1;
      flights[i] := flights[num];
      forall t ensures t in flights[..num] <==> t in old(flights[..num]) && t != old(flights[i]) {
        if t in flights[..num] {
          var k :| 0 <= k < num && flights[..num][k] == t;
          assert old(flights[..num])[if k == i then num else k] == t;
        }
        if t in old(flights[..num]) && t != old(flights[i]) {
          var k :| 0 <= k <= num && old(flights[..num])[k] == t;
          assert flights[..num][if k == num then i else k] == t;
        }
      }
    }

    /** `gpu_forget`. */
    method Forget(tex: Texture)
      requires Distinct()
      modifies this`num, flights
      ensures Distinct() && num <= old(num)
      ensures forall t :: t in flights[..num] <==> t in old(flights[..num]) && t != tex
    {
      var i := 0;
      while i < num
        invariant i <= num <= old(num) && Distinct()
        invariant forall j | 0 <= j < i :: flights[j] != tex
        invariant forall t | t in flights[..num] :: t in old(flights[..num])
        invariant forall t | t in old(flights[..num]) && t != tex :: t in flights[..num]
        decreases num - i
      {
        if flights[i] == tex {
          Drop(i);
        } else {
          i := i + 1;
        }
      }
    }

    /** A draw the GPU is done with is let go of. */
    method Land(i: nat)
      requires Valid() && i < num
      modifies this`num, flights, textures`fence
      ensures Valid() && num == old(num) - 1
      ensures forall t | t in textures :: t.fence == (old(t.fence) && t != old(flights[i]))
      ensures forall j | 0 <= j < i :: flights[j] == old(flights[j])
    {
      var other := flights[i];
      other.fence := false;
      Drop(i);
      forall k | 0 <= k < num ensures flights[k] in old(flights[..num]) && flights[k] != other {
        assert flights[k] in flights[..num];
      }
    }

    /** The loop of `gpu_may_draw` over the flights: those the GPU is done with are let go of,
        and one that is not and is not fresh is in the way. */
    method Sweep(done: set<Texture>, now: int) returns (busy: bool)
      requires Valid()
      modifies this`num, flights, textures`fence
      ensures Valid()
      ensures forall t | t in textures :: t.fence == (old(t.fence) && t !in done)
      ensures busy <==> exists t :: t in textures && t.fence && now - t.drawnAt > FRESH
    {
      busy := false;
      ghost var had, late: Texture? := set t | t in textures && t.fence, null;
      var i := 0;
      while i < num
        invariant i <= num && Valid()
        invariant forall j | 0 <= j < i :: flights[j] !in done && (!busy ==> now - flights[j].drawnAt <= FRESH)
        invariant forall t | t in textures :: t.fence ==> t in had
        invariant forall t | t in textures :: t in had && !t.fence ==> t in done
        invariant busy ==> late != null && late in textures && late.fence && now - late.drawnAt > FRESH && late !in done
        decreases num - i
      {
        var other := flights[i];
        if other in done {
          Land(i);
        } else {
          if now - other.drawnAt > FRESH {
            busy := true;
            late := other;
          }
          i := i + 1;
        }
      }
      forall t | t in textures && t.fence ensures t !in done && (!busy ==> now - t.drawnAt <= FRESH) {
        var j :| 0 <= j < num && flights[..num][j] == t;
        assert flights[j] == t;
      }
    }

    /** As many are in flight as there are flights. */
    lemma Counted()
      requires Valid()
      ensures |InFlight()| == num <= FLIGHTS
    {
      var listed := set t | t in flights[..num];
      Listed(flights[..num]);
      assert InFlight().Keys == listed by {
        forall t: Texture? | t in flights[..num] ensures t in InFlight().Keys {
          var j :| 0 <= j < num && flights[..num][j] == t;
          assert flights[j] == t;
        }
      }
      assert |InFlight()| == |InFlight().Keys|;
    }

    /** A texture's own draw is done with. */
    method Release(tex: Texture)
      requires Valid() && tex in textures
      modifies this`num, flights, tex`fence
      ensures Valid() && !tex.fence
    {
      tex.fence := false;
      Forget(tex);
      forall k | 0 <= k < num ensures flights[k] in old(flights[..num]) && flights[k] != tex {
        assert flights[k] in flights[..num];
      }
    }

    /** The fences looked at: what is done with is let go of, and is any other in the way ? */
    method Settle(tex: Texture, done: set<Texture>, now: int) returns (busy: bool)
      requires Valid() && tex in textures && (tex.fence ==> tex in done)
      modifies this`num, flights, textures`fence
      ensures Valid() && !tex.fence
      ensures InFlight() == Landed(old(Model()), done)
      ensures busy <==> Stale(InFlight(), now)
      ensures busy <==> exists t :: t in textures && t.fence && now - t.drawnAt > FRESH
      ensures forall t | t in textures :: t.fence == (old(t.fence) && t !in done)
    {
      hide Gpu.Distinct, Gpu.Valid;
      if tex.fence { Release(tex); }
      busy := Sweep(done, now);
      if busy {
        ghost var t :| t in textures && t.fence && now - t.drawnAt > FRESH;
        assert t in InFlight() && now - InFlight()[t] > FRESH;
      }
    }

    /** Nobody else has the next turn, or has had it for too long. */
    ghost predicate TurnIsFor(tex: Texture, now: int)
      reads this`waiting, this`waitingSince
    {
      waiting == null || waiting == tex || now - waitingSince > TURN
    }

    /** Granted, or if it is refused and nobody has the next turn, it has. */
    method Decide(tex: Texture, busy: bool, now: int) returns (granted: bool)
      requires Valid() && (busy <==> Stale(InFlight(), now))
      modifies this`waiting, this`waitingSince
      ensures Valid() && (Model(), granted) == Choose(old(Model()), tex, now)
      ensures granted <==> !busy && num < FLIGHTS && old(TurnIsFor(tex, now))
      ensures !granted && old(waiting == null || now - waitingSince > TURN) ==> waiting == tex && waitingSince == now
      ensures granted ==> waiting == null
      ensures !granted && old(waiting != null && now - waitingSince <= TURN) ==>
                waiting == old(waiting) && waitingSince == old(waitingSince)
    {
      hide Stale, Gpu.InFlight, Gpu.Distinct, Gpu.Valid;
      Counted();
      if waiting != null && now - waitingSince > TURN { waiting := null; }
      if busy || (waiting != null && waiting != tex) || num >= FLIGHTS {
        if waiting == null {
          waiting := tex;
          waitingSince := now;
        }
        return false;
      }
      if waiting == tex { waiting := null; }
      return true;
    }

    /** `gpu_may_draw`. A draw is granted just when the texture has none in flight, every other in
        flight is fresh, there is room, and nobody else has the turn, and it gives up any turn it had. One that is
        refused for what others do has the next turn if nobody has. */
    method MayDraw(tex: Texture, done: set<Texture>, now: int) returns (granted: bool)
      requires Valid() && tex in textures
      modifies this`num, this`waiting, this`waitingSince, flights, textures`fence
      ensures Valid() && (Model(), granted) == Ask(old(Model()), tex, done, now)
      ensures forall t | t in textures ::
                t.fence == (old(t.fence) && (t !in done || (old(tex.fence) && tex !in done)))
      ensures granted <==>
                && !tex.fence && num < FLIGHTS && old(TurnIsFor(tex, now))
                && forall t | t in textures && t.fence :: now - t.drawnAt <= FRESH
      ensures !granted && !tex.fence && old(waiting == null || now - waitingSince > TURN) ==>
                waiting == tex && waitingSince == now
      ensures granted ==> waiting == null
      ensures !granted && (tex.fence || old(waiting != null && now - waitingSince <= TURN)) ==>
                waiting == old(waiting) && waitingSince == old(waitingSince)
    {
      assert tex.fence <==> tex in InFlight();
      hide Stale, Landed, Choose, Gpu.InFlight, Gpu.Distinct, Gpu.Valid;
      if tex.fence && tex !in done { return false; }
      var busy := Settle(tex, done, now);
      granted := Decide(tex, busy, now);
    }

    /** All but that one has a fence that is not among the flights yet. */
    ghost predicate ValidBut(tex: Texture)
      reads this, flights, textures
    {
      && Distinct() && tex in textures && tex.fence
      && (forall i | 0 <= i < num :: flights[i] != null && flights[i] in textures && flights[i].fence && flights[i] != tex)
      && (forall t | t in textures && t.fence && t != tex :: t in flights[..num])
    }

    method Enlist(tex: Texture)
      requires ValidBut(tex) && num < FLIGHTS
      modifies this`num, flights
      ensures Valid()
    {
      ghost var listed := flights[..num];
      flights[num] := tex;
      num := num + 1;
      assert flights[..num] == listed + [tex];
    }

    /** `gpu_drawing`, of a texture that was granted a draw. */
    method DrawingOf(tex: Texture, fence: bool, now: int)
      requires Valid() && tex in textures && !tex.fence && num < FLIGHTS
      modifies this`num, flights, tex
      ensures Valid() && Model() == Drawing(old(Model()), tex, fence, now)
    {
      ghost var was := InFlight();
      assert forall j | 0 <= j < num :: flights[j] != tex;
      tex.fence := fence;
      tex.drawnAt := now;
      assert InFlight() == if fence then was[tex := now] else was;
      hide Gpu.InFlight;
      if fence { Enlist(tex); }
    }

    /** A texture is forgotten, and is one no more. */
    method Unlist(tex: Texture)
      requires Valid() && tex in textures
      modifies this`num, this`textures, flights
      ensures Valid() && textures == old(textures) - {tex} && InFlight() == old(InFlight()) - {tex}
    {
      ghost var listed := flights[..num];
      Forget(tex);
      textures := textures - {tex};
      assert InFlight() == old(InFlight()) - {tex};
      assert forall t | t in textures && t.fence :: t in listed;
      hide Gpu.InFlight, Gpu.Distinct;
      forall k | 0 <= k < num ensures flights[k] in listed && flights[k] != tex {
        assert flights[k] in flights[..num];
      }
    }

    /** What `host_gui_destroy_texture` does of the turns: its own is given up, and another's is not. */
    method DestroyTexture(tex: Texture)
      requires Valid() && tex in textures
      modifies this, flights
      ensures Valid() && textures == old(textures) - {tex} && Model() == Gone(old(Model()), tex)
      ensures waiting == if old(waiting) == tex then null else old(waiting)
      ensures waitingSince == old(waitingSince) && InFlight() == old(InFlight()) - {tex}
    {
      hide Gpu.InFlight, Gpu.Distinct, Gpu.Valid;
      Unlist(tex);
      if waiting == tex { waiting := null; }
    }
  }

  lemma {:induction false} Listed<T>(s: seq<T>)
    requires forall i, j | 0 <= i < j < |s| :: s[i] != s[j]
    ensures |set t | t in s| == |s|
    decreases |s|
  {
    if s == [] {
      assert (set t | t in s) == {};
    } else {
      var less, last := s[..|s| - 1], s[|s| - 1];
      Listed(less);
      assert s == less + [last];
      assert (set t | t in s) == (set t | t in less) + {last};
    }
  }
}
