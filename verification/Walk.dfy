/** The walk of a directory tree that keeps its own stack and one path buffer, against the same
    walk as a recursion (src/host/pii_linux.cpp:266-343).

    What the host answers is given: the entries a directory has, if it can be opened, and
    which visits fail. Opening and closing a directory are events like the visits, so that it
    can be seen what is left open. */
module Walk {
  const DEPTH: nat := 64

  /** An entry as `readdir` has it. Whether a folder can be opened is the host's to say. */
  datatype Entry =
    | File(name: string)
    | Folder(name: string, opens: bool, entries: seq<Entry>)

  datatype Event =
    | Opened(path: string)
    | Pre(path: string)
    | Visit(path: string)
    | Post(path: string)
    | Closed(path: string)

  datatype Status = Ok | Fail | Leak

  /** What was done, and how it ended. */
  datatype Walk = Walk(log: seq<Event>, status: Status)

  /** `room` is the length of the path buffer. */
  datatype World = World(room: nat, fails: Event -> bool)

  predicate Skipped(name: string) {
    name == "." || name == ".."
  }

  function Join(path: string, name: string): string {
    path + "/" + name
  }

  function Then(log: seq<Event>, walk: Walk): Walk {
    walk.(log := log + walk.log)
  }

  function Size(entries: seq<Entry>): (n: nat)
    ensures entries != [] ==> n == SizeOf(entries[0]) + Size(entries[1..])
  {
    if entries == [] then 0 else SizeOf(entries[0]) + Size(entries[1..])
  }

  function SizeOf(e: Entry): (n: nat)
    ensures 1 <= n && (e.Folder? ==> Size(e.entries) + 2 == n)
  {
    match e
    case File(_) => 1
    case Folder(_, _, entries) => 2 + Size(entries)
  }

  // ----- the walk as a recursion -----

  /** A folder inside another, with what comes after it there. */
  function Around(path: string, inner: Walk, tail: Walk): Walk {
    match inner.status
    case Ok => Then(inner.log, tail)
    case Fail => Walk(inner.log + [Closed(path)], Fail)
    case Leak => inner
  }

  /** The rest of a folder that is open, `depth` of them with it, from some of its entries on. A
      folder that ends badly is closed, and so are those over it, but where a path is too long. */
  function Rest(w: World, path: string, entries: seq<Entry>, depth: nat): Walk
    decreases Size(entries)
  {
    if entries == [] then
      Walk([Closed(path), Post(path)], if w.fails(Post(path)) && depth > 1 then Fail else Ok)
    else
      var e, tail := entries[0], Rest(w, path, entries[1..], depth);
      var q := Join(path, e.name);
      if Skipped(e.name) then tail
      else if |q| >= w.room then Walk([], Leak)
      else match e
        case File(_) =>
          if w.fails(Visit(q)) then Walk([Visit(q), Closed(path)], Fail) else Then([Visit(q)], tail)
        case Folder(_, opens, inner) =>
          if depth >= DEPTH then Walk([Closed(path)], Fail)
          else if !opens then tail
          else if w.fails(Pre(q)) then Walk([Opened(q), Pre(q), Closed(q), Closed(path)], Fail)
          else
            Then([Opened(q), Pre(q)], Around(path, Rest(w, q, inner, depth + 1), tail))
  }

  function WalkAll(w: World, path: string, opens: bool, entries: seq<Entry>): Walk {
    if !opens then Walk([], Fail)
    else if w.fails(Pre(path)) then Walk([Opened(path), Pre(path), Closed(path)], Fail)
    else Then([Opened(path), Pre(path)], Rest(w, path, entries, 1))
  }

  // ----- the walk with a stack -----

  /** A directory that is open: what it was opened as, and what is left in it to read. */
  datatype Dir = Dir(path: string, left: seq<Entry>)

  datatype Frame = Frame(dir: Dir, len: nat)

  /** What is to come with a stack of open directories. */
  function RestAll(w: World, frames: seq<Frame>): Walk
    decreases |frames|
  {
    if frames == [] then Walk([], Ok)
    else
      var n := |frames| - 1;
      var top := Rest(w, frames[n].dir.path, frames[n].dir.left, n + 1);
      match top.status
      case Ok => Then(top.log, RestAll(w, frames[..n]))
      case Fail => Walk(top.log + CloseAll(frames[..n]), Fail)
      case Leak => top
  }

  function CloseAll(frames: seq<Frame>): seq<Event>
    decreases |frames|
  {
    if frames == [] then [] else [Closed(frames[|frames| - 1].dir.path)] + CloseAll(frames[..|frames| - 1])
  }

  function Togo(frames: seq<Frame>): nat
    decreases |frames|
  {
    if frames == [] then 0 else 1 + Size(frames[|frames| - 1].dir.left) + Togo(frames[..|frames| - 1])
  }

  predicate NoNul(s: string) {
    forall k | 0 <= k < |s| :: s[k] != '\0'
  }

  ghost predicate NamesOk(entries: seq<Entry>)
    decreases Size(entries)
  {
    entries != [] ==>
      && NoNul(entries[0].name) && NamesOk(entries[1..])
      && (entries[0].Folder? ==> NamesOk(entries[0].entries))
  }

  /** The text in a buffer, up to its end. */
  function CStr(s: seq<char>): string {
    if s == [] || s[0] == '\0' then [] else [s[0]] + CStr(s[1..])
  }

  lemma {:induction false} CStrIs(s: seq<char>, text: string)
    requires |text| < |s| && s[..|text|] == text && s[|text|] == '\0' && NoNul(text)
    ensures CStr(s) == text
    decreases |s|
  {
    if text == [] {
    } else {
      assert s[0] == text[0];
      assert s[1..][..|text| - 1] == text[1..];
      CStrIs(s[1..], text[1..]);
    }
  }

  ghost predicate FrameOk(path: seq<char>, f: Frame) {
    && f.len == |f.dir.path| < |path| && path[..f.len] == f.dir.path && NoNul(f.dir.path)
    && NamesOk(f.dir.left)
  }

  /** The buffer begins with the path of each open directory, and none is longer than the next. */
  ghost predicate PathsOk(path: seq<char>, frames: seq<Frame>) {
    && (forall k | 0 <= k < |frames| :: FrameOk(path, frames[k]))
    && (forall j, k | 0 <= j < k < |frames| :: frames[j].len <= frames[k].len)
  }

  /** What is under the top stays so when the buffer changes from the end of the top's path. */
  lemma PathsUnder(was: seq<char>, now: seq<char>, base: seq<Frame>, top: Frame)
    requires PathsOk(was, base + [top]) && |now| == |was| && top.len <= |was| && now[..top.len] == was[..top.len]
    ensures PathsOk(now, base + [top])
  {
    var frames := base + [top];
    forall k | 0 <= k < |frames| ensures FrameOk(now, frames[k]) {
      assert FrameOk(was, frames[k]) && frames[k].len <= frames[|base|].len;
      assert now[..frames[k].len] == now[..top.len][..frames[k].len];
      assert was[..frames[k].len] == was[..top.len][..frames[k].len];
    }
  }

  lemma PathsBase(path: seq<char>, base: seq<Frame>, top: Frame)
    requires PathsOk(path, base + [top])
    ensures PathsOk(path, base)
  {
    var frames := base + [top];
    assert forall k | 0 <= k < |base| :: frames[k] == base[k];
  }

  lemma PushPaths(path: seq<char>, base: seq<Frame>, top: Frame, sub: Frame)
    requires PathsOk(path, base + [top]) && FrameOk(path, sub) && top.len <= sub.len
    ensures PathsOk(path, base + [top] + [sub])
  {
    var frames := base + [top];
    assert forall k | 0 <= k < |frames| :: frames[k].len <= frames[|base|].len;
  }

  lemma KeptPaths(was: seq<char>, now: seq<char>, base: seq<Frame>, top: Frame)
    requires PathsOk(was, base + [top]) && |now| == |was| && top.len <= |was| && now[..top.len] == was[..top.len]
    requires top.dir.left != []
    ensures PathsOk(now, base + [Left(top)])
  {
    PathsUnder(was, now, base, top);
    var frames := base + [top];
    assert FrameOk(now, frames[|base|]) && forall k | 0 <= k < |base| :: frames[k] == base[k];
    assert NamesOk(top.dir.left[1..]);
    hide NamesOk, NoNul;
  }

  // ----- one step of the loop, and what it leaves to come -----

  /** What is to come of a folder, and then of those over it. */
  function Onto(w: World, walk: Walk, base: seq<Frame>): Walk {
    match walk.status
    case Ok => Then(walk.log, RestAll(w, base))
    case Fail => Walk(walk.log + CloseAll(base), Fail)
    case Leak => walk
  }

  lemma RestAllTop(w: World, base: seq<Frame>, top: Frame)
    ensures RestAll(w, base + [top]) == Onto(w, Rest(w, top.dir.path, top.dir.left, |base| + 1), base)
    ensures CloseAll(base + [top]) == [Closed(top.dir.path)] + CloseAll(base)
    ensures Togo(base + [top]) == 1 + Size(top.dir.left) + Togo(base)
  {
    assert (base + [top])[..|base|] == base;
  }

  lemma OntoThen(w: World, done: seq<Event>, walk: Walk, base: seq<Frame>)
    ensures Onto(w, Then(done, walk), base) == Then(done, Onto(w, walk, base))
  {
    assert done + (walk.log + CloseAll(base)) == done + walk.log + CloseAll(base);
    assert done + (walk.log + RestAll(w, base).log) == done + walk.log + RestAll(w, base).log;
  }

  function Left(top: Frame): Frame
    requires top.dir.left != []
  {
    top.(dir := top.dir.(left := top.dir.left[1..]))
  }

  /** An entry that is passed over or visited. */
  lemma StepOn(w: World, base: seq<Frame>, top: Frame, done: seq<Event>)
    requires top.dir.left != []
    requires var left := top.dir.left;
             Rest(w, top.dir.path, left, |base| + 1) == Then(done, Rest(w, top.dir.path, left[1..], |base| + 1))
    ensures RestAll(w, base + [top]) == Then(done, RestAll(w, base + [Left(top)]))
    ensures Togo(base + [Left(top)]) < Togo(base + [top])
  {
    hide Rest;
    RestAllTop(w, base, top);
    RestAllTop(w, base, Left(top));
    OntoThen(w, done, Rest(w, top.dir.path, top.dir.left[1..], |base| + 1), base);
  }

  /** A folder that is gone in to. */
  lemma StepIn(w: World, base: seq<Frame>, top: Frame, sub: Frame)
    requires top.dir.left != [] && top.dir.left[0].Folder?
    requires var e := top.dir.left[0];
             && sub.dir == Dir(Join(top.dir.path, e.name), e.entries) && e.opens && !Skipped(e.name)
             && |sub.dir.path| < w.room && |base| + 1 < DEPTH && !w.fails(Pre(sub.dir.path))
    ensures RestAll(w, base + [top]) ==
            Then([Opened(sub.dir.path), Pre(sub.dir.path)], RestAll(w, base + [Left(top)] + [sub]))
    ensures Togo(base + [Left(top)] + [sub]) < Togo(base + [top])
  {
    RestAllTop(w, base, top);
    RestAllTop(w, base, Left(top));
    RestAllTop(w, base + [Left(top)], sub);
    hide Rest, Onto, Join;
    var inner := Rest(w, sub.dir.path, sub.dir.left, |base| + 2);
    var tail := Rest(w, top.dir.path, top.dir.left[1..], |base| + 1);
    OntoInner(w, base, Left(top), inner, tail);
    OntoThen(w, [Opened(sub.dir.path), Pre(sub.dir.path)], Around(top.dir.path, inner, tail), base);
  }

  lemma OntoInner(w: World, base: seq<Frame>, top: Frame, inner: Walk, tail: Walk)
    requires RestAll(w, base + [top]) == Onto(w, tail, base)
    requires CloseAll(base + [top]) == [Closed(top.dir.path)] + CloseAll(base)
    ensures Onto(w, inner, base + [top]) == Onto(w, Around(top.dir.path, inner, tail), base)
  {
    match inner.status
    case Ok => OntoThen(w, inner.log, tail, base);
    case Fail =>
      assert inner.log + [Closed(top.dir.path)] + CloseAll(base) ==
             inner.log + ([Closed(top.dir.path)] + CloseAll(base));
    case Leak =>
  }

  lemma Thens(a: seq<Event>, b: seq<Event>, walk: Walk)
    ensures Then(a + b, walk) == Then(a, Then(b, walk))
  {
    assert a + b + walk.log == a + (b + walk.log);
  }

  /** A folder that ends here, or stops the walk. */
  lemma StepStop(w: World, base: seq<Frame>, top: Frame, done: seq<Event>)
    requires Rest(w, top.dir.path, top.dir.left, |base| + 1) == Walk(done + [Closed(top.dir.path)], Fail)
    ensures RestAll(w, base + [top]) == Walk(done + CloseAll(base + [top]), Fail)
  {
    hide Rest;
    RestAllTop(w, base, top);
    assert done + [Closed(top.dir.path)] + CloseAll(base) == done + ([Closed(top.dir.path)] + CloseAll(base));
  }

  lemma EndIs(w: World, base: seq<Frame>, top: Frame, was: seq<Event>)
    requires top.dir.left == []
    ensures var all, log := RestAll(w, base + [top]), was + [Closed(top.dir.path)] + [Post(top.dir.path)];
            if w.fails(Post(top.dir.path)) && base != [] then
              all.status == Fail && was + all.log == log + CloseAll(base)
            else Then(was, all) == Then(log, RestAll(w, base)) && Togo(base) < Togo(base + [top])
  {
    RestAllTop(w, base, top);
    var two := [Closed(top.dir.path), Post(top.dir.path)];
    assert was + [two[0]] + [two[1]] == was + two;
    assert was + (two + CloseAll(base)) == was + two + CloseAll(base);
    assert was + (two + RestAll(w, base).log) == was + two + RestAll(w, base).log;
  }

  /** An entry passed over or visited, with what was done before it. */
  lemma OnIs(w: World, base: seq<Frame>, top: Frame, done: seq<Event>, was: seq<Event>)
    requires top.dir.left != []
    requires var left := top.dir.left;
             Rest(w, top.dir.path, left, |base| + 1) == Then(done, Rest(w, top.dir.path, left[1..], |base| + 1))
    ensures Then(was, RestAll(w, base + [top])) == Then(was + done, RestAll(w, base + [Left(top)]))
    ensures Togo(base + [Left(top)]) < Togo(base + [top])
  {
    hide Rest;
    StepOn(w, base, top, done);
    Thens(was, done, RestAll(w, base + [Left(top)]));
  }

  /** One that stops the walk. */
  lemma StopIs(w: World, base: seq<Frame>, top: Frame, done: seq<Event>, was: seq<Event>)
    requires top.dir.left != []
    requires Rest(w, top.dir.path, top.dir.left, |base| + 1) == Walk(done + [Closed(top.dir.path)], Fail)
    ensures var all := RestAll(w, base + [top]);
            all.status == Fail && was + all.log == was + done + CloseAll(base + [Left(top)])
  {
    hide Rest;
    StepStop(w, base, top, done);
    RestAllTop(w, base, top);
    RestAllTop(w, base, Left(top));
    assert was + (done + CloseAll(base + [top])) == was + done + CloseAll(base + [top]);
  }

  /** The folders that are not gone in to: too deep, not to be opened, or not wanted. */
  lemma FolderStops(w: World, base: seq<Frame>, top: Frame, was: seq<Event>)
    requires top.dir.left != [] && top.dir.left[0].Folder? && !Skipped(top.dir.left[0].name)
    requires |Join(top.dir.path, top.dir.left[0].name)| < w.room
    ensures var q, all := Join(top.dir.path, top.dir.left[0].name), RestAll(w, base + [top]);
            var rest := base + [Left(top)];
            if |base| + 1 >= DEPTH then all.status == Fail && was + all.log == was + CloseAll(rest)
            else if !top.dir.left[0].opens then
              Then(was, all) == Then(was, RestAll(w, rest)) && Togo(rest) < Togo(base + [top])
            else w.fails(Pre(q)) ==>
              all.status == Fail && was + all.log == was + [Opened(q), Pre(q), Closed(q)] + CloseAll(rest)
  {
    var q := Join(top.dir.path, top.dir.left[0].name);
    assert was + [] == was;
    if |base| + 1 >= DEPTH { StopIs(w, base, top, [], was); }
    else if !top.dir.left[0].opens { OnIs(w, base, top, [], was); }
    else if w.fails(Pre(q)) { StopIs(w, base, top, [Opened(q), Pre(q), Closed(q)], was); }
  }

  lemma WholeIs(w: World, root: string, entries: seq<Entry>, was: seq<Event>)
    requires !w.fails(Pre(root))
    ensures Then(was, WalkAll(w, root, true, entries)) ==
            Then(was + [Opened(root), Pre(root)], Onto(w, Rest(w, root, entries, 1), []))
  {
    hide Rest;
    var rest := Rest(w, root, entries, 1);
    NeverFailsRoot(w, root, entries);
    assert Onto(w, rest, []).log == rest.log;
    Thens(was, [Opened(root), Pre(root)], rest);
  }

  lemma NeverFailsRoot(w: World, root: string, entries: seq<Entry>)
    ensures Onto(w, Rest(w, root, entries, 1), []) == Rest(w, root, entries, 1)
  {
    hide Rest;
    var rest := Rest(w, root, entries, 1);
    assert rest.log + [] == rest.log;
  }

  lemma DoneIs(w: World, frames: seq<Frame>, log: seq<Event>)
    requires frames == []
    ensures Then(log, RestAll(w, frames)) == Walk(log, Ok)
  {
    assert log + [] == log;
  }

  lemma JoinOk(path: string, name: string)
    requires NoNul(path) && NoNul(name)
    ensures NoNul(Join(path, name)) && |Join(path, name)| == |path| + 1 + |name|
  {
  }

  // ----- the walker -----

  class Walker {
    const stack: array<Frame>
    const path: array<char>
    var top: nat
    var log: seq<Event>

    ghost predicate Valid()
      reads this, stack, path
    {
      stack.Length == DEPTH && top <= DEPTH && PathsOk(path[..], stack[..top])
    }

    constructor (max: nat)
      ensures fresh(stack) && fresh(path) && path.Length == max && stack.Length == DEPTH && top == 0 && log == []
    {
      stack := new Frame[DEPTH](_ => Frame(Dir([], []), 0));
      path := new char[max](_ => '\0');
      top, log := 0, [];
    }

    /** Closes what is open, the last opened first. */
    method CloseOpen()
      requires Valid()
      modifies this`top, this`log
      ensures top == 0 && log == old(log) + CloseAll(stack[..old(top)])
    {
      ghost var frames := stack[..top];
      assert frames[..top] == frames;
      while top > 0
        invariant top <= |frames| && stack[..] == old(stack[..])
        invariant log + CloseAll(frames[..top]) == old(log) + CloseAll(frames)
      {
        top := top - 1;
        assert frames[..top + 1][..top] == frames[..top];
        assert log + ([Closed(frames[top].dir.path)] + CloseAll(frames[..top])) ==
               log + [Closed(frames[top].dir.path)] + CloseAll(frames[..top]);
        log := log + [Closed(stack[top].dir.path)];
      }
    }

    /** The name of an entry, put after the path of the folder it is in. */
    method SetPath(at: nat, name: string)
      requires at + 1 + |name| < path.Length
      modifies path
      ensures path[..at] == old(path[..at])
      ensures path[..at + 1 + |name|] == Join(old(path[..at]), name)
      ensures path[at + 1 + |name|] == '\0'
    {
      path[at] := '/';
      var k := 0;
      while k < |name|
        invariant 0 <= k <= |name|
        invariant path[..at] == old(path[..at]) && path[at] == '/'
        invariant path[at + 1..at + 1 + k] == name[..k]
      {
        path[at + 1 + k] := name[k];
        k := k + 1;
        assert path[at + 1..at + 1 + k] == path[at + 1..at + k] + [name[k - 1]];
      }
      path[at + 1 + |name|] := '\0';
      assert path[..at + 1 + |name|] == path[..at] + [path[at]] + path[at + 1..at + 1 + |name|];
    }

    /** The folder on the top is closed and visited once more, and comes off. */
    method CloseTop(ghost base: seq<Frame>, ghost s: Frame) returns (visit: Event)
      requires Valid() && top > 0 && stack[..top] == base + [s]
      modifies this`top, this`log, path
      ensures Valid() && stack[..top] == base
      ensures visit == Post(s.dir.path) && log == old(log) + [Closed(s.dir.path)] + [visit]
    {
      assert FrameOk(path[..], (base + [s])[|base|]);
      hide PathsOk, CStr, NoNul;
      assert stack[top - 1] == (base + [s])[top - 1];
      var len := stack[top - 1].len;
      log := log + [Closed(stack[top - 1].dir.path)];
      path[len] := '\0';
      CStrIs(path[..], s.dir.path);
      PathsUnder(old(path[..]), path[..], base, s);
      PathsBase(path[..], base, s);
      visit := Post(CStr(path[..]));
      log := log + [visit];
      top := top - 1;
      assert stack[..top] == (base + [s])[..top] == base;
    }

    /** No entry is left. */
    method End(w: World, ghost base: seq<Frame>, ghost s: Frame) returns (stop: bool)
      requires Valid() && top > 0 && stack[..top] == base + [s] && s.dir.left == []
      modifies this`top, this`log, path
      ensures Stepped(w, stop, old(log), base + [s])
    {
      hide PathsOk, Rest, CloseAll, RestAll, Togo;
      var visit := CloseTop(base, s);
      EndIs(w, base, s, old(log));
      if w.fails(visit) && top > 0 {
        CloseOpen();
        return true;
      }
      return false;
    }

    /** The next entry: passed over, visited, or a folder to go in to. */
    method Next(w: World, ghost base: seq<Frame>, ghost s: Frame) returns (stop: bool)
      requires Valid() && top > 0 && stack[..top] == base + [s] && s.dir.left != [] && w.room == path.Length
      modifies this`top, this`log, stack, path
      ensures Stepped(w, stop, old(log), base + [s])
    {
      ghost var was, left := log, s.dir.left;
      assert FrameOk(path[..], (base + [s])[|base|]);
      assert stack[top - 1] == (base + [s])[top - 1];
      var f := stack[top - 1];
      var e := f.dir.left[0];
      assert NamesOk(left) && NoNul(e.name) && NamesOk(left[1..]);
      JoinOk(s.dir.path, e.name);
      ghost var q := Join(s.dir.path, e.name);
      stack[top - 1] := f.(dir := f.dir.(left := f.dir.left[1..]));
      assert stack[..top] == base + [Left(s)];
      KeptPaths(path[..], path[..], base, s);
      if e.name == "." || e.name == ".." {
        OnIs(w, base, s, [], was);
        assert was + [] == was;
        return false;
      }
      var len := f.len + 1 + |e.name|;
      if len >= path.Length {
        RestAllTop(w, base, s);
        assert was + [] == was;
        return true;
      }
      SetPath(f.len, e.name);
      KeptPaths(old(path[..]), path[..], base, s);
      assert path[..len] == q && path[len] == '\0';
      CStrIs(path[..], q);
      match e {
        case File(_) =>
          stop := VisitFile(w, base, s, q);
        case Folder(_, opens, entries) =>
          stop := Enter(w, e, base, s, q);
      }
    }

    method VisitFile(w: World, ghost base: seq<Frame>, ghost s: Frame, ghost q: string) returns (stop: bool)
      requires s.dir.left != []
      requires Valid() && top > 0 && stack[..top] == base + [Left(s)] && CStr(path[..]) == q
      requires s.dir.left[0].File? && !Skipped(s.dir.left[0].name)
      requires q == Join(s.dir.path, s.dir.left[0].name) && |q| < w.room
      modifies this`top, this`log
      ensures Stepped(w, stop, old(log), base + [s])
    {
      ghost var was := log;
      var visit := Visit(CStr(path[..]));
      log := log + [visit];
      if w.fails(visit) {
        StopIs(w, base, s, [visit], was);
        CloseOpen();
        return true;
      }
      OnIs(w, base, s, [visit], was);
      return false;
    }

    method Enter(w: World, e: Entry, ghost base: seq<Frame>, ghost s: Frame, ghost q: string) returns (stop: bool)
      requires s.dir.left != []
      requires Valid() && top > 0 && stack[..top] == base + [Left(s)] && CStr(path[..]) == q
      requires s.dir.left[0] == e && e.Folder? && !Skipped(e.name)
      requires q == Join(s.dir.path, e.name) && |q| < w.room
      requires FrameOk(path[..], Frame(Dir(q, e.entries), |q|)) && s.len <= |q|
      modifies this`top, this`log, stack
      ensures Stepped(w, stop, old(log), base + [s])
    {
      hide Rest, CStr, NoNul, FrameOk, NamesOk, PathsOk, RestAll, Togo, Join, CloseAll;
      ghost var was := log;
      if top >= DEPTH {
        FolderStops(w, base, s, was);
        CloseOpen();
        return true;
      }
      if !e.opens {
        FolderStops(w, base, s, was);
        return false;
      }
      var sub := Dir(CStr(path[..]), e.entries);
      var pre := Pre(CStr(path[..]));
      log := log + [Opened(sub.path)] + [pre];
      assert log == was + [Opened(q), pre];
      if w.fails(pre) {
        log := log + [Closed(sub.path)];
        assert log == was + [Opened(q), pre, Closed(q)];
        FolderStops(w, base, s, was);
        CloseOpen();
        return true;
      }
      stack[top] := Frame(sub, |CStr(path[..])|);
      top := top + 1;
      StepIn(w, base, s, stack[top - 1]);
      Thens(was, [Opened(q), pre], RestAll(w, base + [Left(s)] + [stack[top - 1]]));
      assert stack[..top] == base + [Left(s)] + [stack[top - 1]];
      PushPaths(path[..], base, Left(s), stack[top - 1]);
      return false;
    }

    /** `walk_directory`, of a folder that can be opened or not and has these entries: it does what
        the recursion does, and says if that ended well. */
    method WalkDirectory(w: World, opens: bool, entries: seq<Entry>, ghost root: string) returns (r: int)
      requires stack.Length == DEPTH && w.room == path.Length && NamesOk(entries)
      requires |root| < path.Length && path[..|root|] == root && path[|root|] == '\0' && NoNul(root)
      modifies this, stack, path
      ensures log == old(log) + WalkAll(w, root, opens, entries).log
      ensures r == if WalkAll(w, root, opens, entries).status.Ok? then 0 else -1
    {
      ghost var was, all := log, WalkAll(w, root, opens, entries);
      CStrIs(path[..], root);
      top := 0;
      if !opens { return -1; }
      var d := Dir(CStr(path[..]), entries);
      var pre := Pre(CStr(path[..]));
      log := log + [Opened(d.path)] + [pre];
      assert log == was + [Opened(root), pre];
      if w.fails(pre) {
        log := log + [Closed(d.path)];
        return -1;
      }
      stack[0] := Frame(d, |CStr(path[..])|);
      top := 1;
      assert stack[..1] == [] + [stack[0]];
      RestAllTop(w, [], stack[0]);
      WholeIs(w, root, entries, was);
      hide Rest, RestAll, Togo, WalkAll, PathsOk, NamesOk;
      while top > 0
        invariant Valid() && Then(was, all) == Then(log, RestAll(w, stack[..top]))
        decreases Togo(stack[..top])
      {
        ghost var base, s := stack[..top - 1], stack[top - 1];
        assert stack[..top] == base + [s];
        var stop: bool;
        ghost var before := log;
        if stack[top - 1].dir.left == [] { stop := End(w, base, s); } else { stop := Next(w, base, s); }
        if stop { return -1; }
      }
      DoneIs(w, stack[..top], log);
      return 0;
    }

    /** What a step leaves: the walk is over, and not well, or what was to come is what has been
        done since and what is to come now. */
    ghost predicate Stepped(w: World, stop: bool, was: seq<Event>, frames: seq<Frame>)
      reads this, stack, path
    {
      if stop then
        RestAll(w, frames).status != Ok && log == was + RestAll(w, frames).log
      else
        && Valid() && Then(was, RestAll(w, frames)) == Then(log, RestAll(w, stack[..top]))
        && Togo(stack[..top]) < Togo(frames)
    }
  }
}
