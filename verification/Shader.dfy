/** A shader is built by a thread of its own while the GUI thread may destroy it, and one
    compare-and-swap on its state decides who frees it (src/host/gui_sdl3.cpp:288-309,
    572-582, 597-619, 719-727).

    An `Action` is what one thread does between two moves of the others; what a shader, a
    pipeline or the device is used for after it has gone is a `fault`. A run is any list of
    actions, those that can not be taken left out. */
module Shader {

  datatype Tag = Building | Ready | Failed | Dropped

  /** Where the builder of a shader is in `build_shader`. `made` is if it has a pipeline. */
  datatype Stage =
    | Compile
    | Store(made: bool)
    | Swap(made: bool)
    | Release(made: bool)
    | Free
    | CountDown
    | Done

  /** A shader, with what has become of it. `here` is false once it is freed. */
  datatype Life = Life(
    here: bool, tag: Tag, pipeline: bool, stage: Stage,
    held: bool, destroyed: bool, frees: nat, live: bool, releases: nat)

  /** Where the GUI thread is. */
  datatype Gui =
    | Idle
    | Inline(id: nat)
    | Letting(id: nat)
    | Freeing(id: nat)
    | Waiting

  datatype State = State(shaders: map<nat, Life>, builds: int, device: bool, gui: Gui, fault: bool)

  datatype Action =
    | Create(thread: bool)
    | Build(id: nat, works: bool)
    | Draw(id: nat)
    | Destroy(id: nat)
    | LetGo
    | FreeIt
    | Deinit
    | Look

  function Init(): State {
    State(map[], 0, true, Idle, false)
  }

  // ----- the moves -----

  /** An id that no shader has had. */
  function Fresh(s: State): (id: nat)
    ensures id !in s.shaders
  {
    Above(s.shaders.Keys)
  }

  function Above(ids: set<nat>): (n: nat)
    ensures forall id | id in ids :: id < n
    decreases |ids|
  {
    if ids == {} then 0 else
      LeastIn(ids);
      var m :| m in ids && forall x | x in ids :: x <= m;
      m + 1
  }

  lemma LeastIn(ids: set<nat>)
    requires ids != {}
    ensures exists m :: m in ids && forall x | x in ids :: x <= m
    decreases |ids|
  {
    var m :| m in ids;
    var rest := ids - {m};
    if rest == {} {
      assert ids == {m};
    } else {
      LeastIn(rest);
      var k :| k in rest && forall x | x in rest :: x <= k;
      var top := if k > m then k else m;
      assert forall x | x in ids :: x == m || x in rest;
      assert top in ids && forall x | x in ids :: x <= top;
    }
  }

  function Put(s: State, id: nat, life: Life): State {
    s.(shaders := s.shaders[id := life])
  }

  /** Memory that has been freed is not to be used. */
  function Touch(s: State, life: Life): State {
    s.(fault := s.fault || !life.here)
  }

  function UseDevice(s: State): State {
    s.(fault := s.fault || !s.device)
  }

  function ReleasePipeline(s: State, id: nat, life: Life): State {
    Put(UseDevice(s).(fault := s.fault || !s.device || !life.live), id,
        life.(live := false, releases := life.releases + 1))
  }

  function FreeShader(s: State, id: nat, life: Life): State {
    Put(Touch(s, life), id, life.(here := false, frees := life.frees + 1))
  }

  /** What a move of `build_shader` makes of its shader. */
  function Built(life: Life, works: bool): Life {
    match life.stage
    case Compile => life.(stage := Store(works), live := works)
    case Store(made) => life.(pipeline := made, stage := Swap(made))
    case Swap(made) =>
      if life.tag.Building? then life.(tag := if made then Ready else Failed, stage := CountDown)
      else life.(stage := Release(made))
    case Release(made) =>
      if made then life.(stage := Free, live := false, releases := life.releases + 1) else life.(stage := Free)
    case Free => life.(stage := CountDown, here := false, frees := life.frees + 1)
    case CountDown => life.(stage := Done)
    case Done => life
  }

  /** And if it uses what has gone. */
  predicate Misuses(life: Life, device: bool) {
    match life.stage
    case Compile => !life.here || !device
    case Store(_) => !life.here
    case Swap(_) => !life.here
    case Release(made) => made && (!device || !life.live)
    case Free => !life.here
    case _ => false
  }

  /** `build_shader`, one move of it. */
  function BuildMove(s: State, id: nat, works: bool): State
    requires id in s.shaders
  {
    var life := s.shaders[id];
    var now := Put(s, id, Built(life, works)).(fault := s.fault || Misuses(life, s.device));
    if life.stage.CountDown? then now.(builds := s.builds - 1, gui := if s.gui == Inline(id) then Idle else s.gui)
    else now
  }

  function Move(s: State, a: Action): State {
    match a
    case Create(thread) =>
      // with no device there is no format, and no shader is made
      if s.gui.Idle? && s.device then
        var id := Fresh(s);
        Put(s, id, Life(true, Building, false, Compile, true, false, 0, false, 0))
          .(builds := s.builds + 1, gui := if thread then Idle else Inline(id))
      else s
    case Build(id, works) =>
      if id in s.shaders then BuildMove(s, id, works) else s
    case Draw(id) =>
      if s.gui.Idle? && s.device && id in s.shaders && s.shaders[id].held then
        var life := s.shaders[id];
        Touch(s, life).(fault := s.fault || !life.here || (life.tag.Ready? && !(life.pipeline && life.live)))
      else s
    case Destroy(id) =>
      if s.gui.Idle? && id in s.shaders && s.shaders[id].held then
        var life := s.shaders[id].(held := false, destroyed := true);
        if life.tag.Building? then Put(Touch(s, life), id, life.(tag := Dropped))
        else Put(Touch(s, life), id, life).(gui := Letting(id))
      else s
    case LetGo =>
      if s.gui.Letting? && s.gui.id in s.shaders then
        var id := s.gui.id;
        var life := s.shaders[id];
        if s.device && life.pipeline then ReleasePipeline(Touch(s, life), id, life).(gui := Freeing(id))
        else Touch(s, life).(gui := Freeing(id))
      else s
    case FreeIt =>
      if s.gui.Freeing? && s.gui.id in s.shaders then
        FreeShader(s, s.gui.id, s.shaders[s.gui.id]).(gui := Idle)
      else s
    case Deinit =>
      if s.gui.Idle? && s.device then s.(gui := Waiting) else s
    case Look =>
      // the device goes once no shader is being built
      if s.gui.Waiting? && s.builds <= 0 then s.(device := false, gui := Idle) else s
  }

  function Run(s: State, actions: seq<Action>): State
    decreases |actions|
  {
    if actions == [] then s else Move(Run(s, actions[..|actions| - 1]), actions[|actions| - 1])
  }

  // ----- what every move keeps -----

  function Busy(s: State): set<nat> {
    set id | id in s.shaders && !s.shaders[id].stage.Done?
  }

  /** Who has what of a shader, by where its builder is and if it has been destroyed. */
  predicate LifeOk(life: Life, gui: Gui, id: nat, device: bool) {
    var letting := gui == Letting(id);
    var freeing := gui == Freeing(id);
    && life.held == !life.destroyed
    && life.frees == (if life.here then 0 else 1)
    && life.releases <= 1 && (life.live || !life.destroyed ==> life.releases == 0)
    && ((letting || freeing) ==> life.destroyed && life.here && (life.stage.CountDown? || life.stage.Done?))
    && match life.stage
       case Compile => BeingBuilt(life) && !life.live && life.releases == 0 && !life.pipeline
       case Store(made) => BeingBuilt(life) && life.live == made && life.releases == 0 && !life.pipeline
       case Swap(made) => BeingBuilt(life) && life.live == made && life.releases == 0 && life.pipeline == made
       case Release(made) => life.here && life.tag.Dropped? && life.destroyed && life.live == made && life.releases == 0
       case Free => life.here && life.tag.Dropped? && life.destroyed && !life.live
       case _ =>
         && !life.tag.Building?
         && (life.tag.Dropped? ==> !life.here && life.destroyed && !life.live && !letting && !freeing)
         && (!life.tag.Dropped? ==>
               && life.here == (!life.destroyed || letting || freeing)
               && life.pipeline == life.tag.Ready?
               && (device && life.pipeline && life.here && !freeing ==> life.live)
               && (device && life.live ==> life.here && !freeing && life.pipeline))
  }

  predicate BeingBuilt(life: Life) {
    life.here && (if life.destroyed then life.tag.Dropped? else life.tag.Building?)
  }

  predicate GuiOk(s: State) {
    match s.gui
    case Inline(id) => id in s.shaders && !s.shaders[id].stage.Done?
    case Letting(id) => id in s.shaders
    case Freeing(id) => id in s.shaders
    case Waiting => s.device
    case Idle => true
  }

  ghost predicate Inv(s: State) {
    && !s.fault
    && s.builds == |Busy(s)|
    && (!s.device ==> s.builds == 0)
    && GuiOk(s)
    && forall id | id in s.shaders :: LifeOk(s.shaders[id], s.gui, id, s.device)
  }

  lemma NobodyBusy(s: State)
    requires Inv(s) && s.builds <= 0
    ensures forall id | id in s.shaders :: s.shaders[id].stage.Done?
  {
    hide LifeOk;
    forall id | id in s.shaders ensures s.shaders[id].stage.Done? {
      assert Busy(s) == {};
      assert id in Busy(s) <==> !s.shaders[id].stage.Done?;
    }
  }

  lemma SomebodyBusy(s: State, id: nat)
    requires Inv(s) && id in s.shaders && !s.shaders[id].stage.Done?
    ensures s.device
  {
    hide LifeOk;
    assert id in Busy(s);
  }

  /** It is only by letting go of a shader, or freeing it, that the GUI thread matters to it. */
  lemma OtherGui(life: Life, was: Gui, now: Gui, id: nat, device: bool)
    requires LifeOk(life, was, id, device)
    requires was != Letting(id) && was != Freeing(id) && now != Letting(id) && now != Freeing(id)
    ensures LifeOk(life, now, id, device)
  {
  }

  /** One move on one shader leaves the rest as they were. */
  lemma OneKeeps(s: State, now: State, id: nat)
    requires Inv(s) && id in now.shaders && now.device == s.device && !now.fault
    requires forall k | k in now.shaders && k != id :: k in s.shaders && now.shaders[k] == s.shaders[k]
    requires forall k: nat | k != id :: now.gui == Letting(k) <==> s.gui == Letting(k)
    requires forall k: nat | k != id :: now.gui == Freeing(k) <==> s.gui == Freeing(k)
    requires now.builds == |Busy(now)| && (!now.device ==> now.builds == 0) && GuiOk(now)
    requires LifeOk(now.shaders[id], now.gui, id, now.device)
    ensures Inv(now)
  {
    hide LifeOk;
    forall k | k in now.shaders ensures LifeOk(now.shaders[k], now.gui, k, now.device) {
      if k != id {
        if now.gui == Letting(k) || now.gui == Freeing(k) {
          assert now.gui == s.gui;
        } else {
          OtherGui(s.shaders[k], s.gui, now.gui, k, s.device);
        }
      }
    }
  }

  lemma BuildLife(s: State, id: nat, works: bool)
    requires Inv(s) && id in s.shaders && s.device
    ensures var now := BuildMove(s, id, works);
            !now.fault && LifeOk(now.shaders[id], now.gui, id, now.device)
  {
    assert LifeOk(s.shaders[id], s.gui, id, s.device);
  }

  /** What a move of a builder does not touch, and how it counts. */
  lemma BuildShape(s: State, id: nat, works: bool)
    requires id in s.shaders && !s.shaders[id].stage.Done?
    ensures var now := BuildMove(s, id, works);
            && now.shaders.Keys == s.shaders.Keys && now.device == s.device
            && (forall k | k in s.shaders && k != id :: now.shaders[k] == s.shaders[k])
            && now.gui == (if s.shaders[id].stage.CountDown? && s.gui == Inline(id) then Idle else s.gui)
            && now.builds == s.builds - (if s.shaders[id].stage.CountDown? then 1 else 0)
            && (now.shaders[id].stage.Done? <==> s.shaders[id].stage.CountDown?)
  {
    hide Built, Misuses;
    BuiltDone(s.shaders[id], works);
  }

  lemma BuiltDone(life: Life, works: bool)
    requires !life.stage.Done?
    ensures Built(life, works).stage.Done? <==> life.stage.CountDown?
  {
  }

  lemma BuildKeeps(s: State, id: nat, works: bool)
    requires Inv(s) && id in s.shaders
    ensures Inv(BuildMove(s, id, works))
  {
    var now := BuildMove(s, id, works);
    if s.shaders[id].stage.Done? {
      assert now.shaders == s.shaders;
      return;
    }
    hide LifeOk, BuildMove;
    SomebodyBusy(s, id);
    BuildLife(s, id, works);
    BuildShape(s, id, works);
    assert Busy(now) == if s.shaders[id].stage.CountDown? then Busy(s) - {id} else Busy(s);
    OneKeeps(s, now, id);
  }

  lemma CreateKeeps(s: State, thread: bool)
    requires Inv(s)
    ensures Inv(Move(s, Create(thread)))
  {
    hide LifeOk, Fresh;
    if s.gui.Idle? && s.device {
      var id, now := Fresh(s), Move(s, Create(thread));
      NewLife(now.gui, id, now.device);
      assert Busy(now) == Busy(s) + {id};
      OneKeeps(s, now, id);
    }
  }

  lemma NewLife(gui: Gui, id: nat, device: bool)
    requires gui == Idle || gui == Inline(id)
    ensures LifeOk(Life(true, Building, false, Compile, true, false, 0, false, 0), gui, id, device)
  {
  }

  lemma GuiLife(s: State, a: Action, id: nat)
    requires Inv(s) && id in s.shaders
    requires a == Destroy(id) || (a.LetGo? && s.gui == Letting(id)) || (a.FreeIt? && s.gui == Freeing(id))
    ensures var now := Move(s, a);
            !now.fault && LifeOk(now.shaders[id], now.gui, id, now.device)
  {
    assert LifeOk(s.shaders[id], s.gui, id, s.device);
  }

  lemma GuiKeeps(s: State, a: Action, id: nat)
    requires Inv(s) && id in s.shaders && Move(s, a) != s
    requires a == Destroy(id) || (a.LetGo? && s.gui == Letting(id)) || (a.FreeIt? && s.gui == Freeing(id))
    ensures Inv(Move(s, a))
  {
    var now := Move(s, a);
    GuiLife(s, a, id);
    hide LifeOk;
    assert Busy(now) == Busy(s);
    OneKeeps(s, now, id);
  }

  lemma DrawKeeps(s: State, id: nat)
    requires Inv(s)
    ensures Move(s, Draw(id)) == s
  {
    if id in s.shaders { assert LifeOk(s.shaders[id], s.gui, id, s.device); }
  }

  lemma DeviceKeeps(s: State, a: Action)
    requires Inv(s) && (a.Deinit? || a.Look?)
    ensures Inv(Move(s, a))
  {
    var now := Move(s, a);
    assert Busy(now) == Busy(s);
    if a.Look? && s.builds <= 0 { NobodyBusy(s); }
    forall id | id in now.shaders ensures LifeOk(now.shaders[id], now.gui, id, now.device) {
      assert LifeOk(s.shaders[id], s.gui, id, s.device);
    }
  }

  lemma MoveKeeps(s: State, a: Action)
    requires Inv(s)
    ensures Inv(Move(s, a))
  {
    hide LifeOk;
    match a
    case Create(thread) => CreateKeeps(s, thread);
    case Build(id, works) => if id in s.shaders { BuildKeeps(s, id, works); }
    case Draw(id) => DrawKeeps(s, id);
    case Destroy(id) => if Move(s, a) != s { GuiKeeps(s, a, id); }
    case LetGo => if Move(s, a) != s { GuiKeeps(s, a, s.gui.id); }
    case FreeIt => if Move(s, a) != s { GuiKeeps(s, a, s.gui.id); }
    case Deinit => DeviceKeeps(s, a);
    case Look => DeviceKeeps(s, a);
  }

  lemma {:induction false} RunKeeps(actions: seq<Action>)
    ensures Inv(Run(Init(), actions))
    decreases |actions|
  {
    if actions == [] {
      assert Busy(Init()) == {};
    } else {
      RunKeeps(actions[..|actions| - 1]);
      MoveKeeps(Run(Init(), actions[..|actions| - 1]), actions[|actions| - 1]);
    }
  }

  // ----- what comes of it -----

  /** In every run nothing is used after it has gone, no shader is freed twice and no pipeline
      released twice. */
  lemma NeverMisused(actions: seq<Action>, id: nat)
    ensures var s := Run(Init(), actions);
            !s.fault && (id in s.shaders ==> s.shaders[id].frees <= 1 && s.shaders[id].releases <= 1)
  {
    RunKeeps(actions);
    var s := Run(Init(), actions);
    if id in s.shaders { assert LifeOk(s.shaders[id], s.gui, id, s.device); }
  }

  /** A shader that has been built and destroyed has been freed, the once, whichever came last,
      and while the device lasts its pipeline has been let go of. One that has not been
      destroyed has not been freed. */
  lemma FreedOnce(actions: seq<Action>, id: nat)
    ensures var s := Run(Init(), actions);
            id in s.shaders ==>
              var life := s.shaders[id];
              && (life.stage.Done? && life.destroyed && s.gui != Letting(id) && s.gui != Freeing(id) ==>
                    life.frees == 1 && (s.device ==> !life.live))
              && (!life.destroyed ==> life.frees == 0 && life.releases == 0)
  {
    RunKeeps(actions);
    var s := Run(Init(), actions);
    if id in s.shaders { assert LifeOk(s.shaders[id], s.gui, id, s.device); }
  }

  /** The device is there for as long as any shader is being built. */
  lemma DeviceOutlasts(actions: seq<Action>, id: nat)
    ensures var s := Run(Init(), actions);
            id in s.shaders && !s.shaders[id].stage.Done? ==> s.device
  {
    RunKeeps(actions);
    var s := Run(Init(), actions);
    if id in s.shaders && !s.shaders[id].stage.Done? { SomebodyBusy(s, id); }
  }

  /** A driver that waits to close lets the device go when it looks and every shader has been built, and
      waits on till then. */
  lemma DeviceGoesIff(actions: seq<Action>)
    ensures var s := Run(Init(), actions);
            s.gui.Waiting? ==>
              && s.device
              && (Move(s, Look).device <==> exists id :: id in s.shaders && !s.shaders[id].stage.Done?)
              && Move(s, Look).gui == if Move(s, Look).device then Waiting else Idle
  {
    RunKeeps(actions);
    var s := Run(Init(), actions);
    if s.gui.Waiting? {
      if s.builds <= 0 { NobodyBusy(s); } else { BusyOne(s); }
    }
  }

  lemma BusyOne(s: State)
    requires Inv(s) && s.builds > 0
    ensures exists id :: id in s.shaders && !s.shaders[id].stage.Done?
  {
    hide LifeOk;
    var id :| id in Busy(s);
    assert id in s.shaders && !s.shaders[id].stage.Done?;
  }
}
